// The handful of Python string built-ins the harness and the clients rely on:
// str(int), hex(int), int(str), str.split, str.rstrip, str.startswith and
// pathlib's suffix, each written out over ASCII text.
module PyText {
  import opened Wrappers

  predicate IsDigit(c: char) { '0' <= c <= '9' }

  function DigitValue(c: char): (r: nat)
    requires IsDigit(c)
    ensures r < 10
  {
    c as int - '0' as int
  }

  function DigitChar(d: nat): (c: char)
    requires d < 10
    ensures IsDigit(c) && DigitValue(c) == d
  {
    ('0' as int + d) as char
  }

  /** The value of a string of decimal digits, most significant first. */
  function DecimalValue(s: string): (r: nat)
    requires forall i :: 0 <= i < |s| ==> IsDigit(s[i])
  {
    if |s| == 0 then 0 else 10 * DecimalValue(s[..|s| - 1]) + DigitValue(s[|s| - 1])
  }

  /** str(n) for a non-negative int: no leading zeros, "0" for zero. */
  function DecimalString(n: nat): (r: string)
    ensures |r| >= 1
    ensures forall i :: 0 <= i < |r| ==> IsDigit(r[i])
    ensures |r| > 1 ==> r[0] != '0'
  {
    if n < 10 then [DigitChar(n)] else DecimalString(n / 10) + [DigitChar(n % 10)]
  }

  lemma {:induction false} DecimalStringValue(n: nat)
    ensures DecimalValue(DecimalString(n)) == n
  {
    if n >= 10 {
      DecimalStringValue(n / 10);
      var s := DecimalString(n);
      assert s[..|s| - 1] == DecimalString(n / 10);
    }
  }

  /** str(v) for any int. */
  function IntString(v: int): (r: string)
    ensures |r| >= 1
  {
    if v < 0 then "-" + DecimalString(-v) else DecimalString(v)
  }

  predicate IsSpace(c: char) {
    c == ' ' || c == '\t' || c == '\n' || c == '\r' || c as int == 11 || c as int == 12
  }

  /** str.strip() over ASCII whitespace. */
  function Strip(s: string): (r: string)
    ensures |r| <= |s|
    ensures |r| > 0 ==> !IsSpace(r[0]) && !IsSpace(r[|r| - 1])
    decreases |s|
  {
    if |s| == 0 then s
    else if IsSpace(s[0]) then Strip(s[1..])
    else if IsSpace(s[|s| - 1]) then Strip(s[..|s| - 1])
    else s
  }

  /** The digit grammar int() accepts in base 10: digits, with single underscores between them. */
  predicate WellFormedDigits(s: string) {
    |s| > 0 && IsDigit(s[0]) && IsDigit(s[|s| - 1]) &&
    (forall i :: 0 <= i < |s| ==> IsDigit(s[i]) || s[i] == '_') &&
    (forall i :: 0 <= i < |s| - 1 ==> !(s[i] == '_' && s[i + 1] == '_'))
  }

  function Digits(s: string): (r: string)
    ensures forall i :: 0 <= i < |r| ==> IsDigit(r[i])
    ensures (forall i :: 0 <= i < |s| ==> IsDigit(s[i])) ==> r == s
  {
    if |s| == 0 then []
    else if IsDigit(s[0]) then [s[0]] + Digits(s[1..])
    else Digits(s[1..])
  }

  /**
   * int(s) for a str argument in base 10; None stands for the ValueError
   * Python raises. Surrounding whitespace and one sign are allowed.
   */
  function PyInt(s: string): (r: Option<int>)
    ensures r.Some? ==> |Strip(s)| > 0
  {
    var t := Strip(s);
    if |t| == 0 then None
    else if (t[0] == '-' || t[0] == '+') then
      var body := t[1..];
      if WellFormedDigits(body) then
        var v: int := DecimalValue(Digits(body));
        Some(if t[0] == '-' then -v else v)
      else None
    else if WellFormedDigits(t) then Some(DecimalValue(Digits(t)))
    else None
  }

  lemma StripNoSpace(s: string)
    requires |s| > 0 && !IsSpace(s[0]) && !IsSpace(s[|s| - 1])
    ensures Strip(s) == s
  {
  }

  /** int() undoes str() for every int. */
  lemma PyIntOfIntString(v: int)
    ensures PyInt(IntString(v)) == Some(v)
  {
    var s := IntString(v);
    if v < 0 {
      var d := DecimalString(-v);
      StripNoSpace(s);
      assert s[1..] == d;
      DecimalStringValue(-v);
    } else {
      StripNoSpace(s);
      DecimalStringValue(v);
    }
  }

  lemma PyIntRejectsEmpty()
    ensures PyInt("") == None && PyInt("abc") == None
  {
    assert Strip("abc") == "abc";
    assert !IsDigit("abc"[0]);
  }

  // ----- hex() -----

  function HexChar(d: nat): (c: char)
    requires d < 16
  {
    if d < 10 then ('0' as int + d) as char else ('a' as int + d - 10) as char
  }

  predicate IsHexChar(c: char) { '0' <= c <= '9' || 'a' <= c <= 'f' }

  function HexCharValue(c: char): (r: nat)
    requires IsHexChar(c)
    ensures r < 16
  {
    if '0' <= c <= '9' then c as int - '0' as int else c as int - 'a' as int + 10
  }

  function HexDigits(n: nat): (r: string)
    ensures |r| >= 1
    ensures forall i :: 0 <= i < |r| ==> IsHexChar(r[i])
  {
    if n < 16 then [HexChar(n)] else HexDigits(n / 16) + [HexChar(n % 16)]
  }

  function HexValue(s: string): (r: nat)
    requires forall i :: 0 <= i < |s| ==> IsHexChar(s[i])
  {
    if |s| == 0 then 0 else 16 * HexValue(s[..|s| - 1]) + HexCharValue(s[|s| - 1])
  }

  lemma {:induction false} HexDigitsValue(n: nat)
    ensures HexValue(HexDigits(n)) == n
  {
    if n >= 16 {
      HexDigitsValue(n / 16);
      var s := HexDigits(n);
      assert s[..|s| - 1] == HexDigits(n / 16);
      assert HexCharValue(HexChar(n % 16)) == n % 16;
    } else {
      assert HexCharValue(HexChar(n)) == n;
    }
  }

  /** Python's hex(): "0x" and lower-case digits, behind a '-' for negatives. */
  function Hex(v: int): (r: string)
    ensures var k := if v >= 0 then 2 else 3;
      k < |r| && r[..k] == (if v >= 0 then "0x" else "-0x") &&
      (forall i :: k <= i < |r| ==> IsHexChar(r[i])) &&
      HexValue(r[k..]) == (if v >= 0 then v else -v)
  {
    var m: nat := if v >= 0 then v else -v;
    var prefix := if v >= 0 then "0x" else "-0x";
    var d := HexDigits(m);
    HexDigitsValue(m);
    var r := prefix + d;
    assert r[|prefix|..] == d;
    r
  }

  // ----- split, join, strip, prefix -----

  /** str.split(sep) with an explicit one-character separator. */
  function Split(s: string, sep: char): (r: seq<string>)
    ensures |r| >= 1
    ensures forall i :: 0 <= i < |r| ==> sep !in r[i]
    decreases |s|
  {
    if sep !in s then [s]
    else
      var i := IndexOf(s, sep);
      [s[..i]] + Split(s[i + 1..], sep)
  }

  function IndexOf(s: string, c: char): (i: nat)
    requires c in s
    ensures i < |s| && s[i] == c && c !in s[..i]
  {
    if s[0] == c then 0 else 1 + IndexOf(s[1..], c)
  }

  /** sep.join(parts). */
  function Join(parts: seq<string>, sep: char): (r: string)
    requires |parts| >= 1
  {
    if |parts| == 1 then parts[0] else parts[0] + [sep] + Join(parts[1..], sep)
  }

  /** Splitting loses nothing: joining the parts with the separator gives the string back. */
  lemma {:induction false} JoinSplit(s: string, sep: char)
    ensures Join(Split(s, sep), sep) == s
    decreases |s|
  {
    if sep in s {
      var i := IndexOf(s, sep);
      JoinSplit(s[i + 1..], sep);
      assert s == s[..i] + [sep] + s[i + 1..];
    }
  }

  /** The first part is the text before the first separator. */
  lemma SplitHead(s: string, sep: char, head: string, tail: string)
    requires s == head + [sep] + tail && sep !in head
    ensures Split(s, sep) == [head] + Split(tail, sep)
  {
    assert sep in s by { assert s[|head|] == sep; }
    var i := IndexOf(s, sep);
    assert s[..|head|] == head;
    assert i <= |head| by { assert s[|head|] == sep; }
    assert i >= |head| by { assert s[..i] == head[..i]; }
    assert s[..i] == head;
    assert s[i + 1..] == tail;
  }

  lemma SplitNone(s: string, sep: char)
    requires sep !in s
    ensures Split(s, sep) == [s]
  {
  }

  /** Splitting `a<sep>b` when neither part holds the separator. */
  lemma SplitTwo(a: string, b: string, sep: char)
    requires sep !in a && sep !in b
    ensures Split(a + [sep] + b, sep) == [a, b]
  {
    SplitHead(a + [sep] + b, sep, a, b);
    SplitNone(b, sep);
  }

  /** Splitting `a<sep>b<sep>c` when no part holds the separator. */
  lemma SplitThree(a: string, b: string, c: string, sep: char)
    requires sep !in a && sep !in b && sep !in c
    ensures Split(a + [sep] + b + [sep] + c, sep) == [a, b, c]
  {
    assert a + [sep] + b + [sep] + c == a + [sep] + (b + [sep] + c);
    SplitHead(a + [sep] + b + [sep] + c, sep, a, b + [sep] + c);
    SplitTwo(b, c, sep);
  }

  /** str() of an int is a '-' and digits, so it holds no other character. */
  lemma IntStringChars(v: int, c: char)
    requires c != '-' && !IsDigit(c)
    ensures c !in IntString(v)
  {
    var d := DecimalString(if v < 0 then -v else v);
    assert forall i | 0 <= i < |d| :: d[i] != c;
    if v < 0 {
      assert IntString(v) == "-" + d;
      assert forall i | 0 <= i < |IntString(v)| :: IntString(v)[i] != c;
    }
  }

  /** str.rstrip(c). */
  function RStrip(s: string, c: char): (r: string)
    ensures |r| <= |s| && r == s[..|r|]
    ensures |r| == 0 || r[|r| - 1] != c
    ensures forall i :: |r| <= i < |s| ==> s[i] == c
  {
    if |s| > 0 && s[|s| - 1] == c then RStrip(s[..|s| - 1], c) else s
  }

  predicate StartsWith(s: string, prefix: string) {
    |prefix| <= |s| && s[..|prefix|] == prefix
  }

  function LowerChar(c: char): (r: char)
  {
    if 'A' <= c <= 'Z' then (c as int - 'A' as int + 'a' as int) as char else c
  }

  /** str.lower() over ASCII letters. */
  function Lower(s: string): (r: string)
    ensures |r| == |s|
    ensures forall i :: 0 <= i < |s| ==> r[i] == LowerChar(s[i])
  {
    if |s| == 0 then [] else [LowerChar(s[0])] + Lower(s[1..])
  }

  function LastIndexOf(s: string, c: char): (r: Option<nat>)
    ensures r.Some? ==> r.value < |s| && s[r.value] == c && c !in s[r.value + 1..]
    ensures r.None? ==> c !in s
  {
    if |s| == 0 then None
    else if s[|s| - 1] == c then Some(|s| - 1)
    else match LastIndexOf(s[..|s| - 1], c)
      case None => None
      case Some(i) => assert s[i + 1..] == s[i + 1..|s| - 1] + [s[|s| - 1]]; Some(i)
  }

  /**
   * PurePath.suffix: the final component's text from its last '.', provided
   * that dot is neither the first nor the last character of the name; else "".
   */
  function Suffix(path: string): (r: string)
    ensures r == "" || r[0] == '.'
  {
    var name := match LastIndexOf(path, '/')
      case None => path
      case Some(i) => path[i + 1..];
    match LastIndexOf(name, '.')
      case None => ""
      case Some(i) => if 0 < i < |name| - 1 then name[i..] else ""
  }
}
