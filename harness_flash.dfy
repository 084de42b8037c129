// The flash fixture's command builder
// (scripts/pylib/pytest-test-harness/src/test_harness/fixtures/flash.py):
// the runner-specific board-id arguments and the `west flash` command line
// for a custom binary.
//
// The lookup of `west` on PATH is a parameter (None when it is not found);
// a runner, board id, product or build directory the device configuration
// leaves unset is the empty string, and unset runner parameters are the
// empty list. Paths are strings as given.
module HarnessFlash {
  import opened Wrappers
  import opened PyText

  /** The parts of the device configuration the builder reads. */
  datatype DeviceConfig = DeviceConfig(runner: string, id: string, product: string,
                                       buildDir: string, runnerParams: seq<string>)

  /** A load address: an int, written with hex(), or a string passed through. */
  datatype Offset = IntOffset(n: int) | StrOffset(s: string)

  const WEST_NOT_FOUND: string := "west not found in PATH"

  /** _get_runner_board_id_args, as a value. */
  function BoardIdArgs(d: DeviceConfig): (r: seq<string>)
  {
    var id := d.id;
    if id == "" then []
    else if d.runner == "pyocd" then ["--board-id", id]
    else if d.runner == "nrfjprog" || d.runner == "nrfutil" then ["--dev-id", id]
    else if d.runner == "openocd" && d.product in ["STM32 STLink", "STLINK-V3"] then ["--cmd-pre-init", "hla_serial " + id]
    else if d.runner == "openocd" && d.product == "EDBG CMSIS-DAP" then ["--cmd-pre-init", "cmsis_dap_serial " + id]
    else if d.runner == "openocd" && d.product == "LPC-LINK2 CMSIS-DAP" then ["--cmd-pre-init", "adapter serial " + id]
    else if d.runner == "jlink" then ["-SelectEmuBySN " + id]
    else if d.runner == "stm32cubeprogrammer" then ["sn=" + id]
    else if d.runner == "linkserver" then ["--probe", id]
    else []
  }

  function LoadAddr(o: Offset): (r: string)
  {
    match o
      case IntOffset(n) => Hex(n)
      case StrOffset(s) => s
  }

  /** The file-type arguments for a binary whose lower-cased suffix is `suffix`. */
  function FileArgs(suffix: string, path: string, offset: Option<Offset>): (r: seq<string>)
    ensures |r| >= 2 && r[1] == path
  {
    if suffix == ".hex" then ["--hex-file", path]
    else if suffix == ".elf" then ["--elf-file", path]
    else ["--bin-file", path] + (if offset.Some? then ["--load-addr", LoadAddr(offset.value)] else [])
  }

  /** What follows the `--` separator: board-id args (with a runner), runner params, file args. */
  function ExtraArgs(d: DeviceConfig, suffix: string, path: string, offset: Option<Offset>): (r: seq<string>)
  {
    (if d.runner != "" then BoardIdArgs(d) else []) + d.runnerParams + FileArgs(suffix, path, offset)
  }

  /** The command's head: west flash --skip-rebuild --build-dir <dir>. */
  function Head(west: string, d: DeviceConfig, buildDir: Option<string>): (r: seq<string>)
  {
    [west, "flash", "--skip-rebuild", "--build-dir", if buildDir.Some? then buildDir.value else d.buildDir]
  }

  /** _build_flash_command, as a value; Err stands for the RuntimeError it raises. */
  function FlashCommand(west: Option<string>, d: DeviceConfig, path: string,
                        buildDir: Option<string>, offset: Option<Offset>): (r: Result<seq<string>, string>)
  {
    if west.None? || west.value == "" then Err(WEST_NOT_FOUND)
    else
      var extra := ExtraArgs(d, Lower(Suffix(path)), path, offset);
      Ok(Head(west.value, d, buildDir) + (if d.runner != "" then ["--runner", d.runner] else [])
         + (if |extra| > 0 then ["--"] + extra else []))
  }

  // ---- The builders, list by list ----

  /** _get_runner_board_id_args. */
  method RunnerBoardIdArgs(d: DeviceConfig) returns (args: seq<string>)
    ensures args == BoardIdArgs(d)
  {
    args := [];
    var runner := d.runner;
    var boardId := d.id;
    if boardId == "" {
      return;
    }
    if runner == "pyocd" {
      args := args + ["--board-id", boardId];
    } else if runner == "nrfjprog" || runner == "nrfutil" {
      args := args + ["--dev-id", boardId];
    } else if runner == "openocd" && d.product in ["STM32 STLink", "STLINK-V3"] {
      args := args + ["--cmd-pre-init", "hla_serial " + boardId];
    } else if runner == "openocd" && d.product == "EDBG CMSIS-DAP" {
      args := args + ["--cmd-pre-init", "cmsis_dap_serial " + boardId];
    } else if runner == "openocd" && d.product == "LPC-LINK2 CMSIS-DAP" {
      args := args + ["--cmd-pre-init", "adapter serial " + boardId];
    } else if runner == "jlink" {
      args := args + ["-SelectEmuBySN " + boardId];
    } else if runner == "stm32cubeprogrammer" {
      args := args + ["sn=" + boardId];
    } else if runner == "linkserver" {
      args := args + ["--probe", boardId];
    }
  }

  /** The suffix branch of _build_flash_command, extending `extraArgs` with the file arguments. */
  method ExtendFileArgs(extraArgs: seq<string>, suffix: string, path: string, offset: Option<Offset>) returns (r: seq<string>)
    ensures r == extraArgs + FileArgs(suffix, path, offset)
  {
    r := extraArgs;
    if suffix == ".bin" {
      r := r + ["--bin-file", path];
      if offset.Some? {
        var addr := if offset.value.IntOffset? then Hex(offset.value.n) else offset.value.s;
        r := r + ["--load-addr", addr];
      }
    } else if suffix == ".hex" {
      r := r + ["--hex-file", path];
    } else if suffix == ".elf" {
      r := r + ["--elf-file", path];
    } else {
      r := r + ["--bin-file", path];
      if offset.Some? {
        var addr := if offset.value.IntOffset? then Hex(offset.value.n) else offset.value.s;
        r := r + ["--load-addr", addr];
      }
    }
  }

  /** _build_flash_command. */
  method BuildFlashCommand(west: Option<string>, d: DeviceConfig, path: string,
                           buildDir: Option<string>, offset: Option<Offset>)
    returns (r: Result<seq<string>, string>)
    ensures r == FlashCommand(west, d, path, buildDir, offset)
  {
    if west.None? || west.value == "" {
      return Err(WEST_NOT_FOUND);
    }
    var effectiveBuildDir := if buildDir.Some? then buildDir.value else d.buildDir;
    var command := [west.value, "flash", "--skip-rebuild", "--build-dir", effectiveBuildDir];
    if d.runner != "" {
      command := command + ["--runner", d.runner];
    }
    ghost var start := command;
    assert start == Head(west.value, d, buildDir) + (if d.runner != "" then ["--runner", d.runner] else []);
    var extraArgs := RunnerExtraArgs(d);
    var suffix := Lower(Suffix(path));
    extraArgs := ExtendFileArgs(extraArgs, suffix, path, offset);
    assert extraArgs == ExtraArgs(d, suffix, path, offset);
    if |extraArgs| > 0 {
      command := command + ["--"];
      command := command + extraArgs;
      assert command == start + (["--"] + extraArgs);
    }
    FlashCommandFrom(west.value, d, path, buildDir, offset, start, extraArgs);
    r := Ok(command);
  }

  /** The extra arguments before the file arguments: the board id for a named runner, then the runner parameters. */
  method RunnerExtraArgs(d: DeviceConfig) returns (extraArgs: seq<string>)
    ensures extraArgs == (if d.runner != "" then BoardIdArgs(d) else []) + d.runnerParams
  {
    extraArgs := [];
    if d.runner != "" {
      var boardArgs := RunnerBoardIdArgs(d);
      extraArgs := extraArgs + boardArgs;
    }
    if |d.runnerParams| > 0 {
      extraArgs := extraArgs + d.runnerParams;
    }
  }

  /** The command assembled from its head and extra arguments. */
  lemma FlashCommandFrom(w: string, d: DeviceConfig, path: string, buildDir: Option<string>,
                         offset: Option<Offset>, start: seq<string>, extra: seq<string>)
    requires w != ""
    requires start == Head(w, d, buildDir) + (if d.runner != "" then ["--runner", d.runner] else [])
    requires extra == ExtraArgs(d, Lower(Suffix(path)), path, offset)
    ensures FlashCommand(Some(w), d, path, buildDir, offset) == Ok(start + (if |extra| > 0 then ["--"] + extra else []))
  {
  }

  // ---- Properties ----

  /**
   * Board-id arguments: none without an id or for a runner outside the
   * table (openocd counts only with one of its three products); otherwise
   * one or two arguments, the last of which ends with the id.
   */
  lemma BoardIdArgsShape(d: DeviceConfig)
    ensures d.id == "" ==> BoardIdArgs(d) == []
    ensures d.runner !in ["pyocd", "nrfjprog", "nrfutil", "openocd", "jlink", "stm32cubeprogrammer", "linkserver"]
            ==> BoardIdArgs(d) == []
    ensures d.runner == "openocd" && d.product !in ["STM32 STLink", "STLINK-V3", "EDBG CMSIS-DAP", "LPC-LINK2 CMSIS-DAP"]
            ==> BoardIdArgs(d) == []
    ensures var r := BoardIdArgs(d);
      r != [] ==> |r| <= 2 && |d.id| <= |r[|r| - 1]| && r[|r| - 1][|r[|r| - 1]| - |d.id|..] == d.id
  {
    var r := BoardIdArgs(d);
    if r != [] {
      var last := r[|r| - 1];
      assert last[|last| - |d.id|..] == d.id;
    }
  }

  /** The builder fails exactly when west is not found, and then with that message. */
  lemma FlashCommandFailsOnlyWithoutWest(west: Option<string>, d: DeviceConfig, path: string,
                                         buildDir: Option<string>, offset: Option<Offset>)
    ensures FlashCommand(west, d, path, buildDir, offset).Err? <==> west.None? || west.value == ""
    ensures FlashCommand(west, d, path, buildDir, offset).Err? ==> FlashCommand(west, d, path, buildDir, offset).error == WEST_NOT_FOUND
  {
  }

  /**
   * A command is west flash --skip-rebuild --build-dir <the override, or
   * the device's build directory>, then `--runner <runner>` exactly when a
   * runner is set, then `--` and the extra arguments, which always end with
   * the file arguments and so are never empty.
   */
  lemma FlashCommandShape(w: string, d: DeviceConfig, path: string, buildDir: Option<string>, offset: Option<Offset>)
    requires w != ""
    ensures var r := FlashCommand(Some(w), d, path, buildDir, offset);
      var k := if d.runner != "" then 7 else 5;
      r.Ok? && |r.value| > k
      && r.value[..5] == [w, "flash", "--skip-rebuild", "--build-dir", if buildDir.Some? then buildDir.value else d.buildDir]
      && (d.runner != "" ==> r.value[5..7] == ["--runner", d.runner])
      && r.value[k] == "--"
      && r.value[k + 1..] == ExtraArgs(d, Lower(Suffix(path)), path, offset)
  {
    var extra := ExtraArgs(d, Lower(Suffix(path)), path, offset);
    var head := Head(w, d, buildDir);
    var runner: seq<string> := if d.runner != "" then ["--runner", d.runner] else [];
    FlashCommandFrom(w, d, path, buildDir, offset, head + runner, extra);
    CommandLayout(head, runner, extra);
  }

  /** Where the parts of head + runner + ["--"] + extra sit. */
  lemma CommandLayout(head: seq<string>, runner: seq<string>, extra: seq<string>)
    requires |head| == 5 && |extra| > 0
    ensures var v := head + runner + (["--"] + extra);
      v[..5] == head && v[5..5 + |runner|] == runner && v[5 + |runner|] == "--" && v[5 + |runner| + 1..] == extra
  {
    var v := head + runner + (["--"] + extra);
    assert v[..5] == head;
    assert v[5..5 + |runner|] == runner;
    assert v[5 + |runner| + 1..] == extra;
  }

  /**
   * The extra arguments: the board-id arguments only with a runner, then
   * the runner parameters, then the file arguments.
   */
  lemma ExtraArgsOrder(d: DeviceConfig, suffix: string, path: string, offset: Option<Offset>)
    ensures d.runner == "" ==> ExtraArgs(d, suffix, path, offset) == d.runnerParams + FileArgs(suffix, path, offset)
    ensures d.runner != "" ==> ExtraArgs(d, suffix, path, offset) == BoardIdArgs(d) + d.runnerParams + FileArgs(suffix, path, offset)
  {
  }

  /**
   * The file arguments by lower-cased suffix: `.hex` and `.elf` name the
   * file and ignore the offset; any other suffix, `.bin` or not, is a
   * binary, with `--load-addr` exactly when an offset is given, an int one
   * in hex.
   */
  lemma FileArgsKinds(suffix: string, path: string, offset: Option<Offset>, n: int)
    ensures suffix == ".hex" ==> FileArgs(suffix, path, offset) == ["--hex-file", path]
    ensures suffix == ".elf" ==> FileArgs(suffix, path, offset) == ["--elf-file", path]
    ensures suffix !in [".hex", ".elf"] ==>
      FileArgs(suffix, path, None) == ["--bin-file", path]
      && FileArgs(suffix, path, Some(IntOffset(n))) == ["--bin-file", path, "--load-addr", Hex(n)]
      && (offset.Some? ==> FileArgs(suffix, path, offset) == ["--bin-file", path, "--load-addr", LoadAddr(offset.value)])
  {
  }
}
