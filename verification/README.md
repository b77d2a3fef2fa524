# Test Runner for Cucumber — a Dafny model of its decision logic

This project models the parts of the VS Code extension "Test Runner for
Cucumber" that decide something, as pure Dafny functions with proved
contracts:

- **The scenario-heading scanner** (`parseScenario`). The feature file's
  text is split on `'\n'`. Every line accepted by
  `/^\s*(Scenario:)\s*(.+)$/` is reported with its 0-based line number and
  the captured label.
- **cucumber-js command synthesis**. The configured `script` is treated as
  space-separated slots, and fixed positions are overwritten. The feature
  command writes slot 4; the scenario command writes slots 4 and 5. Around
  these sit:
  - the two `createCommandTo…` builders, which decide between a command,
    `""`/`undefined` and an error;
  - `getScenarioName`, which classifies the selected line and strips markers
    and whitespace;
  - the routing in `executeCucumberRunnerCommand`, which decides what reaches
    the terminal.
- **Test-tree child materialisation** (`TestFile.updateFromContents`). The
  scanner's reports become the file item's children, with ids `lineNo + 1`.
  `TestCase.getLabel` is modelled alongside.

The editor state is an explicit input: the active file's path, the selected
line, the configuration and the active terminal. The terminal is a record of
the texts sent to it. The test controller is a map from item to child list,
plus the `testData` association.

The model follows JavaScript's behaviour where the code relies on it:

- `split` gives one piece more than there are separators.
- Assigning past the end of an array leaves holes, and `join` renders holes
  as empty strings.
- A template literal renders `undefined` as the word `undefined`.
- `typeof x == undefined` is always false.
- `&&` binds tighter than `||`.
- `\s` is the ECMAScript whitespace and line-terminator set, and `.` excludes
  the four line terminators.
- A missing configuration field is `undefined`, and reading a property
  through `undefined` throws a `TypeError`.

Files:

- `js.dfy` (`Js`): `Option`, `Result` and the exceptions, plus template-literal
  rendering.
- `js_text.dfy` (`JsText`): the string library the code uses. This covers
  whitespace classes, the two `replace` trims, `includes`, `split`/`join`,
  sparse slot assignment, and `Number.prototype.toString` for line numbers.
- `scenario_parser.dfy` (`ScenarioParser`): the heading pattern, stated both
  declaratively and as the regular-expression engine runs it, and the scan.
- `command_synthesis.dfy` (`CommandSynthesis`): the builders,
  `getScenarioName` and terminal dispatch.
- `test_tree.dfy` (`TestTree`): `updateFromContents` and `getLabel`.

## Model

| member | source | states |
|---|---|---|
| Js.TemplateText | src/utils.ts:196 | a template literal renders a present value as itself and `undefined` as the nine letters `undefined` |
| JsText.SpaceRun | src/parser.ts:5 | where a greedy leading `\s*` stops: everything before it is whitespace and the next character is not |
| JsText.SpacePrefixWithinRun | src/parser.ts:5 | any whitespace prefix is no longer than the greedy run, so the greedy `\s*` is maximal |
| JsText.Split | src/parser.ts:12 | `split` on one character yields one more piece than there are separators, no piece contains the separator, and joining the pieces gives the text back |
| JsText.JoinShape | src/utils.ts:197 | a `join` begins with its first piece, and when no piece holds the separator it holds exactly one separator fewer than there are pieces |
| JsText.SplitJoin | src/utils.ts:195-197 | splitting a join of separator-free pieces gives exactly those pieces back |
| JsText.SetSlot | src/utils.ts:196 | `a[i] = v` makes the array `max(n, i + 1)` long, puts `v` at `i`, and leaves every other slot as it was, with holes past the old end reading as empty strings |
| JsText.Includes | src/utils.ts:120 | `includes` holds exactly when the pattern occurs at some position |
| JsText.IndexOf | src/utils.ts:120 | the search finds the leftmost occurrence at or after the given position, or reports none exists |
| JsText.TrailingSpaceRun | src/utils.ts:124 | the longest whitespace suffix: all of it is whitespace and the character before it is not |
| JsText.TrimStart | src/utils.ts:123 | removing the leading whitespace run keeps a suffix of the text, cuts only whitespace, and leaves no whitespace at the front |
| JsText.TrimEnd | src/utils.ts:124 | removing the trailing whitespace run keeps a prefix of the text, cuts only whitespace, and leaves no whitespace at the end |
| JsText.Trim | src/utils.ts:123-124 | the two replacements leave a slice of the line with only whitespace cut from both ends, and no whitespace at either end of the result |
| JsText.TrimUnique | src/utils.ts:123-124 | any slice obtained by cutting whitespace from both ends that has no whitespace at its ends is the trimmed result |
| JsText.DecimalString | src/testTree.ts:75 | `toString` of a line number is a non-empty string of digits with no leading zero |
| JsText.DecimalRoundTrip | src/testTree.ts:75 | the numeral reads back as the number |
| JsText.DecimalStringInjective | src/testTree.ts:75 | different numbers give different numerals |
| ScenarioParser.Backtrack | src/parser.ts:5 | the greedy `\s*` gives back one character at a time: the first position found is the largest that lets `(.+)$` match, and none means no position works |
| ScenarioParser.MatchLabel | src/parser.ts:5 | after `Scenario:`, the label starts at the largest position where whitespace precedes and a terminator-free non-empty rest follows, or nowhere |
| ScenarioParser.MatchHeading | src/parser.ts:5-17 | a captured label is a non-empty suffix of the line that contains no line terminator |
| ScenarioParser.ReportedIsHeading | src/parser.ts:5-20 | a line the pattern accepts splits as whitespace, `Scenario:`, whitespace and the label running to the end of the line |
| ScenarioParser.HeadingIsReported | src/parser.ts:5-20 | every such split is accepted, and the captured label is no longer than the split's label: trailing whitespace stays and leading whitespace goes, except that when only whitespace follows `Scenario:` the label keeps the last whitespace character, since `(.+)` needs one |
| ScenarioParser.WhitespaceOnlyLabel | src/parser.ts:5 | when only whitespace (without line terminators) follows `Scenario:`, the line is still accepted and the label is its last whitespace character |
| ScenarioParser.MatchIffHeading | src/parser.ts:5-20 | the pattern accepts a line if and only if the line has such a split |
| ScenarioParser.OutlineNeverReported | src/parser.ts:5 | a line whose first non-blank text is `Scenario Outline:` is never accepted |
| ScenarioParser.CarriageReturnLineNotReported | src/parser.ts:5-12 | a line still ending in `'\r'`, as CRLF text leaves it after the split on `'\n'`, is never accepted |
| ScenarioParser.Parse | src/parser.ts:7-31 | `parseScenario` reports, over the text's `'\n'`-separated lines, exactly the accepted lines in strictly increasing order with their captured labels, and at most one per line |
| ScenarioParser.ScanLines | src/parser.ts:14-22 | the reports name lines in range in strictly increasing order, each an accepted line with its captured label, and every accepted line is among them |
| ScenarioParser.ParseReportsHeadingLines | src/parser.ts:12-22 | over the text's `'\n'`-separated lines, the reported line numbers are in range and strictly increasing, and a line is reported exactly when it is a heading line |
| ScenarioParser.NoMarkerNoReports | src/parser.ts:5-21 | text in which `Scenario:` never occurs yields no reports |
| ScenarioParser.ReportsUnique | src/parser.ts:14-22 | given each line's match outcome, at most one report sequence satisfies the scan's contract |
| ScenarioParser.ScanIsDetermined | src/parser.ts:7-31 | any sequence satisfying the scan's contract is the scan, so the reports depend on the text alone |
| CommandSynthesis.FeatureSlots | src/utils.ts:195-197 | the feature command's slots are the script's space-separated slots, grown to at least five, with slot 4 the quoted path and every other slot kept or empty |
| CommandSynthesis.ScenarioSlots | src/utils.ts:211-214 | the scenario command's slots grow to at least six, with slot 4 the quoted name argument, slot 5 the quoted path, and every other slot kept or empty |
| CommandSynthesis.FeatureExecutable | src/utils.ts:191-198 | without a script it is a `TypeError`; otherwise the command is the joined feature slots and contains the quoted path |
| CommandSynthesis.ScenarioExecutable | src/utils.ts:206-215 | without a script it is a `TypeError`; otherwise the command is the joined scenario slots and contains both the quoted name argument and the quoted path |
| CommandSynthesis.NameArgument | src/utils.ts:151 | the name argument is ` --name ` followed by the scenario name in double quotes |
| CommandSynthesis.NameArgumentInjective | src/utils.ts:151 | different scenario names give different name arguments |
| CommandSynthesis.FeatureCommandSlots | src/utils.ts:191-198 | when the path holds no space, re-splitting the joined feature command recovers the slot contents: at least five slots, slot 4 the quoted path, the rest the script's |
| CommandSynthesis.FeatureCommandWithoutActiveFile | src/utils.ts:196 | with no active file, slot 4 is the quoted word `undefined` |
| CommandSynthesis.TakesScenarioBranch | src/utils.ts:149 | the branch is taken for language typescript whatever the tool; otherwise only for tool cucumber-js with language javascript; for any other tool, exactly when the language is typescript |
| CommandSynthesis.CommandToExecuteScenario | src/utils.ts:140-163 | decision table: no configuration gives `""`; failing the branch condition (tool cucumber-js with language javascript, or else language typescript, since `&&` binds first) throws the error; passing it without a script is a `TypeError`; otherwise cucumber-js gets the scenario executable (with ` --name "<name>"` in slot 4) and any other tool `""` |
| CommandSynthesis.ScenarioIgnoresToolArgument | src/utils.ts:144-156 | the `tool` argument never changes the result: its `typeof` test is always false and it is otherwise only shown in the message |
| CommandSynthesis.TypeScriptSkipsToolCheck | src/utils.ts:149-153 | a typescript configuration with a tool other than cucumber-js gets `""`, not an error |
| CommandSynthesis.CommandToExecuteFeature | src/utils.ts:169-184 | decision table: no configuration or script is a `TypeError`; it throws the error exactly when there is no active file and the tool is not cucumber-js; cucumber-js gets the feature executable, even without an active file; any other tool with an active file gets `undefined` |
| CommandSynthesis.FindMarker | src/utils.ts:122 | the search for `Scenario:` or `Scenario Outline:` finds the leftmost position where either occurs, or none exists |
| CommandSynthesis.RemoveFirstMarker | src/utils.ts:122 | with no `Scenario:` or `Scenario Outline:` the line comes back unchanged; otherwise the marker occurring at the leftmost marker position is cut out and nothing else, so the line gets shorter |
| CommandSynthesis.GetScenarioName | src/utils.ts:114-133 | a name is returned exactly when the line is present and contains `Scenario` or `@`; the `Scenario` test comes first and cuts the first marker before trimming; an `@` line is only trimmed; otherwise it throws the error; no returned name has whitespace at either end |
| CommandSynthesis.TrimAfterSpace | src/utils.ts:123-124 | whitespace in front of a text does not change its trimmed form |
| CommandSynthesis.HeadingLineName | src/utils.ts:120-124 | selecting a line the scanner reports gives that report's label, trimmed |
| CommandSynthesis.ActiveTerminal | src/utils.ts:106-108 | the active terminal is used when there is one; otherwise a new terminal named `Cucumber Runner` with nothing sent and not shown |
| CommandSynthesis.ExecuteCucumberRunnerCommand | src/utils.ts:89-101 | exactly one text is appended to the active (or a new `Cucumber Runner`) terminal: `command` unchanged with the terminal shown for the exact tool `cucumber-js`, and `clear` for every other tool |
| CommandSynthesis.ComposedCommandNeverSent | src/utils.ts:92-100 | the script-prefixed command is never the text sent |
| TestTree.GetLabel | src/testTree.ts:112-114 | the label starts with the script, ends with the expected value, and is five characters longer than the four fields together |
| TestTree.LabelIsJoin | src/testTree.ts:112-114 | the label is script, tool, scenario command, `=` and expected value joined by single spaces |
| TestTree.LabelFields | src/testTree.ts:112-114 | when no field holds a space, splitting the label on spaces recovers the fields |
| TestTree.ScenarioItems | src/testTree.ts:72-78 | one item per report, in report order: its id is `toString` of the line number plus one (digits, no leading zero, reading back as that number), its label is the captured label, and its uri is the file's |
| TestTree.ReplaceChildren | src/testTree.ts:53-58 | the file item's child list is replaced and every other item's list is kept |
| TestTree.Associate | src/testTree.ts:76 | each new item is associated with the new test case, and every other association is kept |
| TestTree.UpdateFromContents | src/testTree.ts:48-94 | the file is resolved and the generation counter advances by one. The file item's children become one item per scanner report, in line order, with id `(lineNo + 1).toString()` and the captured label. Each is associated with the command's script, tool and scenario command, with `tbc` placeholders. No other item gains an association, and every other item keeps its children and test case |
| TestTree.ScenarioIdsDistinct | src/testTree.ts:75 | the ids of one file's children are pairwise distinct |
| TestTree.UpdateReplacesChildren | src/testTree.ts:49-56 | updating twice from the same text gives the same children as once (replaced, not appended), and the counter advances by two |

## Left out

- `src/extension.ts`: command registration, output channels, timers and pop-ups are host plumbing.
- `src/command.ts` and `src/executeCommand.ts`: terminal and process plumbing. Their "one command at a time" guard can never trigger, so no single-flight state is modelled.
- `getCucumberRunnerObject` and `getProjectRoot` (src/utils.ts:15-67) read the file system and parse JSON. The configuration is an input here instead. Each of its fields is optional, because a missing settings file yields an empty object.
- Configuration: a field that the settings JSON gives a non-string value (an array, a number) is not modelled. Such a value can pass the loose `==` at src/utils.ts:149 and still miss the `Map.get` lookup at src/utils.ts:152; the model takes every field to be a string or absent.
- `getCucumberRunnerScript` and `getCucumberRunnerTool` are field accessors; the model reads the fields directly.
- `getContentFromFilesystem` and `TestFile.updateFromDisk` are asynchronous file reads; the text is an input to `UpdateFromContents`.
- `TestCase.run` and `execTest` are a random timer delay and an empty body.
- Error pop-ups (`showErrorMessage`) and `console.log` output are not modelled; only the thrown `Error` and its message are.
- The `ancestors` stack and `ascend` of `updateFromContents` are not modelled separately. With the heading callback commented out, the stack only ever holds the file item, and `ascend(0)` assigns its children once, so the model does one direct replacement.
- Test items are values identified by id, label and uri, not objects with identity. Garbage collection through the `WeakMap` is not modelled.
- The `thisGeneration` value is computed but unused, so only the counter's advance is modelled.
- JsText.DecimalString: line numbers are unbounded naturals. The exponent form `toString` uses from 1e21 on is not modelled, since no text has that many lines.
- JavaScript strings are UTF-16 code units, while Dafny's `char` is a Unicode scalar value. Surrogate pairs are not modelled; no part of the pattern or the slot logic distinguishes them.
- The `vscode.Range` of each item and the `error` field of a file item are not modelled.
