/** The FPGA debug plugin: `read_fpga` and `write_fpga`, recognised by the
    first word of the command, and only while the plugin is active. */
module FpgaPlugin {
  import opened Outcomes
  import opened PyStr
  import opened Categories

  const Name := "FPGA Debug Handler"
  const ReadVerb := "read_fpga"
  const WriteVerb := "write_fpga"

  /** The register values `read_fpga` reports. */
  const ReadValues: seq<nat> := [0x1, 0x2, 0x3, 0x4, 0x5]

  /** `execCommand` for a plugin whose flag is `active`. When active, the
      command is unpacked as `command, *params = text.split(maxsplit=1)`,
      which raises ValueError for a blank command. */
  function ExecCommand(active: bool, commandText: string): (r: Result<ExecResult>)
    ensures !active ==> r == Ok(NotHandled)
    ensures active && IsBlank(commandText) ==> r == Raised(ValueError)
    ensures active && FirstToken(commandText) == Some(ReadVerb) ==> r == Ok(ExecResult(ExecSuccess, "1 2 3 4 5"))
    ensures active && FirstToken(commandText) == Some(WriteVerb) ==> r == Ok(ExecResult(ExecSuccess, "write fpga success"))
    ensures (active && FirstToken(commandText).Some? && FirstToken(commandText).value != ReadVerb
             && FirstToken(commandText).value != WriteVerb) ==> r == Ok(NotHandled)
    ensures r.Ok? ==> r.value.status != ExecFailed
  {
    if active then
      var words := SplitMax1(commandText);
      if words == [] then Raised(ValueError)
      else if words[0] == ReadVerb then
        ReadValuesText();
        Ok(ExecResult(ExecSuccess, Join(" ", DecimalStrings(ReadValues))))
      else if words[0] == WriteVerb then Ok(ExecResult(ExecSuccess, "write fpga success"))
      else Ok(ExecResult(ExecNotFound, ""))
    else Ok(NotHandled)
  }

  /** `" ".join(map(str, [1, 2, 3, 4, 5]))`. */
  lemma ReadValuesText()
    ensures Join(" ", DecimalStrings(ReadValues)) == "1 2 3 4 5"
  {
    SmallDecimalStrings();
    JoinCons(" ", "4", ["5"]);
    JoinCons(" ", "3", ["4", "5"]);
    JoinCons(" ", "2", ["3", "4", "5"]);
    JoinCons(" ", "1", ["2", "3", "4", "5"]);
  }

  /** The `read_fpga` reply splits back into one decimal numeral per
      register value, each standing for that value. */
  lemma ReadReplyDecodes()
    ensures var words := Split(Join(" ", DecimalStrings(ReadValues)));
            |words| == |ReadValues|
            && forall i :: 0 <= i < |words| ==> DigitsValue(words[i]) == ReadValues[i]
  {
    SplitJoin(DecimalStrings(ReadValues));
  }

  lemma SmallDecimalStrings()
    ensures DecimalStrings(ReadValues) == ["1", "2", "3", "4", "5"]
  {
    var ds := DecimalStrings(ReadValues);
    assert ds[0] == DecimalString(1) == "1";
    assert ds[1] == DecimalString(2) == "2";
    assert ds[2] == DecimalString(3) == "3";
    assert ds[3] == DecimalString(4) == "4";
    assert ds[4] == DecimalString(5) == "5";
  }

  lemma JoinCons(sep: string, x: string, xs: seq<string>)
    requires xs != []
    ensures Join(sep, [x] + xs) == x + sep + Join(sep, xs)
  {
    assert ([x] + xs)[1..] == xs;
  }
}

/** The ARM debug plugin, the same shape as the FPGA one with the verbs
    `read_arm` and `write_arm`. In the repository its class is also named
    `FPGADebugHandler`; its display name is "ARM Debug Handler". */
module ArmPlugin {
  import opened Outcomes
  import opened PyStr
  import opened Categories
  import FpgaPlugin

  const Name := "ARM Debug Handler"
  const ReadVerb := "read_arm"
  const WriteVerb := "write_arm"
  /** The same register values as the FPGA plugin's. */
  const ReadValues: seq<nat> := FpgaPlugin.ReadValues

  function ExecCommand(active: bool, commandText: string): (r: Result<ExecResult>)
    ensures !active ==> r == Ok(NotHandled)
    ensures active && IsBlank(commandText) ==> r == Raised(ValueError)
    ensures active && FirstToken(commandText) == Some(ReadVerb) ==> r == Ok(ExecResult(ExecSuccess, "1 2 3 4 5"))
    ensures active && FirstToken(commandText) == Some(WriteVerb) ==> r == Ok(ExecResult(ExecSuccess, "write arm success"))
    ensures (active && FirstToken(commandText).Some? && FirstToken(commandText).value != ReadVerb
             && FirstToken(commandText).value != WriteVerb) ==> r == Ok(NotHandled)
    ensures r.Ok? ==> r.value.status != ExecFailed
  {
    if active then
      var words := SplitMax1(commandText);
      if words == [] then Raised(ValueError)
      else if words[0] == ReadVerb then
        FpgaPlugin.ReadValuesText();
        Ok(ExecResult(ExecSuccess, Join(" ", DecimalStrings(ReadValues))))
      else if words[0] == WriteVerb then Ok(ExecResult(ExecSuccess, "write arm success"))
      else Ok(ExecResult(ExecNotFound, ""))
    else Ok(NotHandled)
  }

  /** No command succeeds in both plugins: a success in one means the first
      word is one of its verbs, and the two plugins' verbs are disjoint. */
  lemma VerbsDisjoint(fpgaActive: bool, armActive: bool, commandText: string)
    ensures !(Succeeded(ExecCommand(armActive, commandText)) && Succeeded(FpgaPlugin.ExecCommand(fpgaActive, commandText)))
  {
  }
}
