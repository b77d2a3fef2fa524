/** The cucumber-js command builders and dispatch of `src/utils.ts`. The
    editor state the source reads from `vscode.window` (the active file's
    path, the selected line's text) and the terminal it writes to are
    explicit inputs and outputs here. */
module CommandSynthesis {
  import opened Js
  import opened JsText
  import opened ScenarioParser

  /** `CucumberRunnerConfiguration`, with each field taken to be a string or
      absent (an absent settings file yields an empty object). */
  datatype Configuration = Configuration(language: Option<string>, tool: Option<string>, script: Option<string>)

  /** The one key of the tool-command maps. */
  const CucumberJs: string := "cucumber-js"
  const JavaScript: string := "javascript"
  const TypeScript: string := "typescript"

  /** The message of every `Error` the builders and `getScenarioName` throw. */
  const IncorrectScenario: string := "Scenario Name incorrect. Please select scenario"

  /** What a tool other than cucumber-js gets sent. */
  const Clear: string := "clear"

  /** The name of the terminal created when none is active. */
  const TerminalName: string := "Cucumber Runner"

  function Quote(s: string): (q: string)
  {
    "\"" + s + "\""
  }

  // ---------------------------------------------------------------------------
  // Positional substitution into the configured script
  // ---------------------------------------------------------------------------

  /** `getCucumberJsFeatureExecutable` before the join: the script's
      space-separated slots, with slot 4 overwritten by the quoted path. A
      script of fewer than five slots grows to five, the gap slots empty. */
  function FeatureSlots(script: string, path: Option<string>): (slots: seq<string>)
    ensures |slots| == Max(|Split(script, ' ')|, 5)
    ensures slots[4] == Quote(TemplateText(path))
    ensures forall k :: 0 <= k < |slots| && k != 4 ==> slots[k] == SlotText(Split(script, ' '), k)
  {
    SetSlot(Split(script, ' '), 4, Quote(TemplateText(path)))
  }

  /** `getCucumberJsFeatureExecutable`; reading `script` of a configuration
      without one is a `TypeError`. */
  function FeatureExecutable(config: Configuration, path: Option<string>): (r: Result<string>)
    ensures r.Throw? <==> config.script.None?
    ensures r.Throw? ==> r.fault == TypeError
    ensures r.Ok? ==> r.value == Join(FeatureSlots(config.script.value, path), ' ')
    ensures r.Ok? ==> Includes(r.value, Quote(TemplateText(path)))
  {
    match config.script
    case None => Throw(TypeError)
    case Some(script) =>
      var slots := FeatureSlots(script, path);
      SlotInJoin(slots, 4);
      Ok(Join(slots, ' '))
  }

  /** Helper: the text of a slot occurs in the joined command. */
  lemma SlotInJoin(slots: seq<string>, k: nat)
    requires k < |slots|
    ensures Includes(Join(slots, ' '), slots[k])
  {
    assert OccursAt(slots[k], slots[k], 0);
    OccursInPiece(slots, ' ', k, slots[k], 0);
  }

  /** `getCucumberJsScenarioExecutable` before the join: slot 4 holds the
      quoted name argument and slot 5 the quoted path; the script grows to
      six slots if shorter, and every other slot is kept. */
  function ScenarioSlots(script: string, nameArgument: string, path: Option<string>): (slots: seq<string>)
    ensures |slots| == Max(|Split(script, ' ')|, 6)
    ensures slots[4] == Quote(nameArgument)
    ensures slots[5] == Quote(TemplateText(path))
    ensures forall k :: 0 <= k < |slots| && k != 4 && k != 5 ==> slots[k] == SlotText(Split(script, ' '), k)
  {
    var withName := SetSlot(Split(script, ' '), 4, Quote(nameArgument));
    SetSlot(withName, 5, Quote(TemplateText(path)))
  }

  /** `getCucumberJsScenarioExecutable`; like the feature builder, it needs
      a script. The command holds the quoted name argument and the quoted path. */
  function ScenarioExecutable(config: Configuration, nameArgument: string, path: Option<string>): (r: Result<string>)
    ensures r.Throw? <==> config.script.None?
    ensures r.Throw? ==> r.fault == TypeError
    ensures r.Ok? ==> r.value == Join(ScenarioSlots(config.script.value, nameArgument, path), ' ')
    ensures r.Ok? ==> Includes(r.value, Quote(nameArgument)) && Includes(r.value, Quote(TemplateText(path)))
  {
    match config.script
    case None => Throw(TypeError)
    case Some(script) =>
      var slots := ScenarioSlots(script, nameArgument, path);
      SlotInJoin(slots, 4);
      SlotInJoin(slots, 5);
      Ok(Join(slots, ' '))
  }

  /** The template `` --name "${scenarioName}"`` handed to the scenario builder. */
  function NameArgument(scenarioName: string): (a: string)
    ensures |a| == |scenarioName| + 10
    ensures a[..8] == " --name " && a[8..] == Quote(scenarioName)
  {
    " --name \"" + scenarioName + "\""
  }

  /** Different scenario names give different name arguments: the name is
      recoverable from between the quotes. */
  lemma NameArgumentInjective(name1: string, name2: string)
    ensures NameArgument(name1) == NameArgument(name2) ==> name1 == name2
  {
    if NameArgument(name1) == NameArgument(name2) {
      var q := Quote(name1);
      assert q == Quote(name2);
      assert name1 == q[1..|q| - 1] == name2;
    }
  }

  // ---------------------------------------------------------------------------
  // The command builders
  // ---------------------------------------------------------------------------

  /** The scenario builder's branch condition as written: `&&` binds tighter
      than `||`, so the language `typescript` passes whatever the tool. */
  function TakesScenarioBranch(c: Configuration): (b: bool)
    ensures c.language == Some(TypeScript) ==> b
    ensures c.language != Some(TypeScript) ==> (b <==> c.tool == Some(CucumberJs) && c.language == Some(JavaScript))
    ensures c.tool != Some(CucumberJs) ==> (b <==> c.language == Some(TypeScript))
  {
    (c.tool == Some(CucumberJs) && c.language == Some(JavaScript)) || c.language == Some(TypeScript)
  }

  /** `createCommandToExecuteScenario`. Of its early-return test only
      `configuration == undefined` can hold: `typeof x` is a string and never
      `== undefined`, so neither `tool` nor a missing active file returns
      early. A configuration failing the branch condition throws; one passing
      it returns the scenario executable for cucumber-js and "" for any other
      tool. */
  function CommandToExecuteScenario(config: Option<Configuration>, scenarioName: string, tool: string, path: Option<string>): (r: Result<string>)
    ensures config.None? ==> r == Ok("")
    ensures r.Throw? && r.fault.Error? <==> config.Some? && !TakesScenarioBranch(config.value)
    ensures r.Throw? && r.fault.Error? ==> r.fault.message == IncorrectScenario
    ensures r == Throw(TypeError) <==> config.Some? && TakesScenarioBranch(config.value) && config.value.script.None?
    ensures r == Ok("") <==>
              || config.None?
              || (TakesScenarioBranch(config.value) && config.value.script.Some? && config.value.tool != Some(CucumberJs))
    ensures r.Ok? && r.value != "" ==>
              && config.Some? && config.value.tool == Some(CucumberJs) && config.value.script.Some?
              && r.value == Join(ScenarioSlots(config.value.script.value, NameArgument(scenarioName), path), ' ')
  {
    if config.None? then Ok("")
    else if !TakesScenarioBranch(config.value) then Throw(Error(IncorrectScenario))
    else
      match ScenarioExecutable(config.value, NameArgument(scenarioName), path)
      case Throw(f) => Throw(f)
      case Ok(command) =>
        JoinOfTwoIsNotEmpty(ScenarioSlots(config.value.script.value, NameArgument(scenarioName), path), ' ');
        // `toolCommands` maps only cucumber-js; any other tool finds `undefined`
        Ok(if config.value.tool == Some(CucumberJs) then command else "")
  }

  /** `createCommandToExecuteFeature`. The map of tool commands is built
      first, so a missing configuration or script is a `TypeError` whatever
      else holds. It throws only when there is no active file AND the tool is
      not cucumber-js; cucumber-js gets the feature executable even with no
      active file, and any other tool with an active file gets `undefined`. */
  function CommandToExecuteFeature(config: Option<Configuration>, path: Option<string>): (r: Result<Option<string>>)
    ensures r == Throw(TypeError) <==> config.None? || config.value.script.None?
    ensures r.Throw? && r.fault.Error? <==>
              && config.Some? && config.value.script.Some?
              && path.None? && config.value.tool != Some(CucumberJs)
    ensures r.Throw? && r.fault.Error? ==> r.fault.message == IncorrectScenario
    ensures r.Ok? && r.value.Some? <==> config.Some? && config.value.script.Some? && config.value.tool == Some(CucumberJs)
    ensures r.Ok? && r.value.Some? ==> Ok(r.value.value) == FeatureExecutable(config.value, path)
    ensures r == Ok(None) <==>
              && config.Some? && config.value.script.Some?
              && path.Some? && config.value.tool != Some(CucumberJs)
  {
    if config.None? then Throw(TypeError)
    else
      match FeatureExecutable(config.value, path)
      case Throw(f) => Throw(f)
      case Ok(command) =>
        var registered := config.value.tool == Some(CucumberJs);
        if path.None? && !registered then Throw(Error(IncorrectScenario))
        else Ok(if registered then Some(command) else None)
  }

  /** Helper: a join of two or more pieces holds a separator, so is never empty. */
  lemma JoinOfTwoIsNotEmpty(parts: seq<string>, sep: char)
    requires |parts| >= 2
    ensures Join(parts, sep) != ""
  {
    assert Join(parts, sep)[|parts[0]|] == sep;
  }

  // ---------------------------------------------------------------------------
  // Properties of the builders
  // ---------------------------------------------------------------------------

  /** Splitting the feature command on spaces gives back its slots when the
      path has no space: slot 4 is the quoted path, the command has at least
      five slots, and every other slot is the script's (or empty past its end). */
  lemma FeatureCommandSlots(config: Configuration, path: Option<string>)
    requires config.script.Some? && ' ' !in TemplateText(path)
    ensures var slots := Split(FeatureExecutable(config, path).value, ' ');
            var original := Split(config.script.value, ' ');
            && |slots| == Max(|original|, 5)
            && slots[4] == Quote(TemplateText(path))
            && forall k :: 0 <= k < |slots| && k != 4 ==> slots[k] == SlotText(original, k)
  {
    var slots := FeatureSlots(config.script.value, path);
    forall k | 0 <= k < |slots| ensures ' ' !in slots[k] {
      if k == 4 {
        assert slots[k] == "\"" + TemplateText(path) + "\"";
      }
    }
    SplitJoin(slots, ' ');
  }

  /** With no active file the path slot reads `"undefined"`. */
  lemma FeatureCommandWithoutActiveFile(config: Configuration)
    requires config.script.Some?
    ensures FeatureSlots(config.script.value, None)[4] == "\"undefined\""
  {
  }

  /** The `tool` argument of the scenario builder never changes its result:
      the `typeof tool == undefined` test is always false and `tool` is
      otherwise only shown in the error message. */
  lemma ScenarioIgnoresToolArgument(config: Option<Configuration>, scenarioName: string, tool1: string, tool2: string, path: Option<string>)
    ensures CommandToExecuteScenario(config, scenarioName, tool1, path) == CommandToExecuteScenario(config, scenarioName, tool2, path)
  {
  }

  /** A typescript configuration passes the branch test whatever its tool, so
      an unsupported tool gets "" instead of an error. */
  lemma TypeScriptSkipsToolCheck(tool: Option<string>, script: string, scenarioName: string, path: Option<string>)
    requires tool != Some(CucumberJs)
    ensures CommandToExecuteScenario(Some(Configuration(Some(TypeScript), tool, Some(script))), scenarioName, CucumberJs, path) == Ok("")
  {
  }

  // ---------------------------------------------------------------------------
  // getScenarioName
  // ---------------------------------------------------------------------------

  /** `/(Scenario:|Scenario Outline:)/` matches at `p`. */
  predicate MarkerAt(s: string, p: int)
  {
    OccursAt(s, Marker, p) || OccursAt(s, OutlineMarker, p)
  }

  /** Both alternatives begin with `S`. */
  lemma MarkerStartsWithS(s: string, p: int)
    ensures MarkerAt(s, p) ==> s[p] == 'S'
  {
    if OccursAt(s, Marker, p) {
      assert s[p] == s[p..p + |Marker|][0];
    } else if OccursAt(s, OutlineMarker, p) {
      assert s[p] == s[p..p + |OutlineMarker|][0];
    }
  }

  /** Where the search for `/(Scenario:|Scenario Outline:)/` from `from`
      succeeds: the leftmost position at which either alternative occurs. */
  function FindMarker(s: string, from: nat): (r: Option<nat>)
    ensures r.Some? ==> from <= r.value && MarkerAt(s, r.value)
    ensures r.Some? ==> forall p :: from <= p < r.value ==> !MarkerAt(s, p)
    ensures r.None? ==> forall p :: from <= p ==> !MarkerAt(s, p)
    decreases |s| - from
  {
    if from >= |s| then None
    else if MarkerAt(s, from) then Some(from)
    else FindMarker(s, from + 1)
  }

  /** `s.replace(/(Scenario:|Scenario Outline:)/, '')`: the first match is cut
      out; the two alternatives cannot both match at one position. */
  function RemoveFirstMarker(s: string): (t: string)
    ensures FindMarker(s, 0).None? ==> t == s
    ensures FindMarker(s, 0).Some? ==>
              var p := FindMarker(s, 0).value;
              || (OccursAt(s, Marker, p) && t == s[..p] + s[p + |Marker|..])
              || (OccursAt(s, OutlineMarker, p) && t == s[..p] + s[p + |OutlineMarker|..])
    ensures FindMarker(s, 0).Some? ==> |t| < |s|
  {
    match FindMarker(s, 0)
    case None => s
    case Some(p) =>
      var length := if OccursAt(s, Marker, p) then |Marker| else |OutlineMarker|;
      s[..p] + s[p + length..]
  }

  /** `getScenarioName`, with the selected line (absent when there is no
      active editor) as input. A line containing `Scenario` loses its first
      marker; otherwise a line containing `@` is kept whole; both are then
      trimmed. The `Scenario` test comes first. Any other line throws. A name
      returned has no whitespace at either end. */
  function GetScenarioName(selectedLine: Option<string>): (r: Result<string>)
    ensures r.Ok? <==> selectedLine.Some? && (Includes(selectedLine.value, "Scenario") || Includes(selectedLine.value, "@"))
    ensures r.Throw? ==> r.fault == Error(IncorrectScenario)
    ensures r.Ok? ==> |r.value| == 0 || (!IsSpace(r.value[0]) && !IsSpace(r.value[|r.value| - 1]))
    ensures selectedLine.Some? && Includes(selectedLine.value, "Scenario") ==>
              r == Ok(Trim(RemoveFirstMarker(selectedLine.value)))
    ensures selectedLine.Some? && !Includes(selectedLine.value, "Scenario") && Includes(selectedLine.value, "@") ==>
              r == Ok(Trim(selectedLine.value))
  {
    match selectedLine
    case None => Throw(Error(IncorrectScenario))
    case Some(line) =>
      if Includes(line, "Scenario") then Ok(Trim(RemoveFirstMarker(line)))
      else if Includes(line, "@") then Ok(Trim(line))
      else Throw(Error(IncorrectScenario))
  }

  /** Whitespace in front does not change what `Trim` keeps. */
  lemma TrimAfterSpace(w: string, x: string)
    requires AllSpace(w)
    ensures Trim(w + x) == Trim(x)
  {
    var t := Trim(x);
    var a, b :| Core(x, a, b) && t == x[a..b];
    CoreAfterSpace(w, x, a, b);
    TrimUnique(w + x, |w| + a, |w| + b);
  }

  /** Helper for `TrimAfterSpace`: a core of `x` is a core of `w + x`. */
  lemma CoreAfterSpace(w: string, x: string, a: int, b: int)
    requires AllSpace(w) && Core(x, a, b)
    ensures Core(w + x, |w| + a, |w| + b)
    ensures (w + x)[|w| + a..|w| + b] == x[a..b]
    ensures a < b ==> (w + x)[|w| + a] == x[a] && (w + x)[|w| + b - 1] == x[b - 1]
  {
    var s := w + x;
    assert s[..|w| + a] == w + x[..a];
    AllSpaceConcat(w, x[..a]);
    assert s[|w| + b..] == x[b..];
  }

  /** Selecting a line the scanner reports as a heading yields its label,
      trimmed: the scenario name the command uses is the test item's label
      without surrounding whitespace. */
  lemma HeadingLineName(line: string)
    requires MatchHeading(line).Some?
    ensures GetScenarioName(Some(line)) == Ok(Trim(MatchHeading(line).value))
  {
    ReportedIsHeading(line);
    var i, j :| HeadingAt(line, i, j) && MatchHeading(line).value == line[j..];
    HeadingMarkerIsFirst(line, i, j);
    var ws := line[..i] + line[i + |Marker|..j];
    TrimAfterSpace(ws, line[j..]);
  }

  /** Helper for `HeadingLineName`: a heading line contains `Scenario`, and
      its `Scenario:` is the first marker, after whitespace only. */
  lemma HeadingMarkerIsFirst(line: string, i: int, j: int)
    requires HeadingAt(line, i, j)
    ensures Includes(line, "Scenario")
    ensures FindMarker(line, 0) == Some(i)
    ensures AllSpace(line[..i] + line[i + |Marker|..j])
    ensures RemoveFirstMarker(line) == line[..i] + line[i + |Marker|..j] + line[j..]
  {
    assert line[i..i + 8] == line[i..i + |Marker|][..8];
    assert OccursAt(line, "Scenario", i);
    assert MarkerAt(line, i);
    forall p | 0 <= p < i ensures !MarkerAt(line, p) {
      assert line[..i][p] == line[p];
      MarkerStartsWithS(line, p);
    }
    assert line[i + |Marker|..] == line[i + |Marker|..j] + line[j..];
  }

  // ---------------------------------------------------------------------------
  // executeCucumberRunnerCommand
  // ---------------------------------------------------------------------------

  /** A terminal, reduced to its name, the texts sent to it in order, and
      whether it has been brought to the foreground. */
  datatype Terminal = Terminal(name: string, sent: seq<string>, shown: bool)

  /** `getActiveTerminal`: the active terminal, or a fresh one. */
  function ActiveTerminal(active: Option<Terminal>): (t: Terminal)
    ensures active.Some? ==> t == active.value
    ensures active.None? ==> t.name == TerminalName && t.sent == [] && !t.shown
  {
    match active
    case Some(t) => t
    case None => Terminal(TerminalName, [], false)
  }

  /** `executableCommand`: the command alone for cucumber-js, otherwise the
      script and the command (it is computed but only sent for cucumber-js). */
  function ExecutableCommand(script: Option<string>, command: string, tool: Option<string>): (c: string)
  {
    if tool == Some(CucumberJs) then command else TemplateText(script) + " " + command
  }

  /** `executeCucumberRunnerCommand`: exactly one text is sent. For the tool
      cucumber-js it is `command` unchanged and the terminal is shown; for
      every other tool (or none) it is `clear`. */
  function ExecuteCucumberRunnerCommand(active: Option<Terminal>, script: Option<string>, command: string, tool: Option<string>): (t: Terminal)
    ensures t.name == ActiveTerminal(active).name
    ensures |t.sent| == |ActiveTerminal(active).sent| + 1
    ensures t.sent[..|t.sent| - 1] == ActiveTerminal(active).sent
    ensures tool == Some(CucumberJs) ==> t.sent[|t.sent| - 1] == command && t.shown
    ensures tool != Some(CucumberJs) ==> t.sent[|t.sent| - 1] == Clear && t.shown == ActiveTerminal(active).shown
  {
    var terminal := ActiveTerminal(active);
    var executable := ExecutableCommand(script, command, tool);
    if tool == Some(CucumberJs) then terminal.(shown := true, sent := terminal.sent + [executable])
    else terminal.(sent := terminal.sent + [Clear])
  }

  /** The script-prefixed command is never what reaches the terminal. */
  lemma ComposedCommandNeverSent(active: Option<Terminal>, script: Option<string>, command: string, tool: Option<string>)
    ensures var t := ExecuteCucumberRunnerCommand(active, script, command, tool);
            t.sent[|t.sent| - 1] != TemplateText(script) + " " + command
  {
    var composed := TemplateText(script) + " " + command;
    assert composed[|TemplateText(script)|] == ' ';
    if tool != Some(CucumberJs) {
      assert ' ' !in Clear;
    } else {
      assert |composed| > |command|;
    }
  }
}
