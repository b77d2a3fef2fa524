/** The test-explorer side of `src/testTree.ts`: turning a feature file's
    text into the scenario items under its file item. The test controller is
    reduced to what `updateFromContents` touches: each item's list of
    children, the `testData` association from an item to its test case, and
    the module-wide generation counter. */
module TestTree {
  import opened Js
  import opened JsText
  import opened ScenarioParser

  /** `ScenarioCommand`: the configuration snapshot each test case keeps. */
  datatype ScenarioCommand = ScenarioCommand(tool: string, script: string, scenarioCommand: string)

  /** `TestCase`, with its constructor's five fields. */
  datatype TestCase = TestCase(script: string, tool: string, scenarioCommand: string, expected: string, lineNo: string)

  /** A test item as `createTestItem` makes it: id, label and the file's uri. */
  datatype TestItem = TestItem(id: string, title: string, uri: Option<string>)

  /** `TestFile`: whether its items have been resolved. */
  datatype TestFile = TestFile(didResolve: bool)

  /** The test controller's children lists, the `testData` map and `generationCounter`. */
  datatype Explorer = Explorer(children: map<TestItem, seq<TestItem>>, testData: map<TestItem, TestCase>, generationCounter: nat)

  datatype Update = Update(explorer: Explorer, file: TestFile)

  /** The placeholder `expected` and `lineNo` every scenario's test case gets. */
  const Pending: string := "tbc"

  /** `TestCase.getLabel`: the five fields in order, separated by single
      spaces, with `=` before the expected value. */
  function GetLabel(t: TestCase): (text: string)
    ensures |text| == |t.script| + |t.tool| + |t.scenarioCommand| + |t.expected| + 5
    ensures text[..|t.script|] == t.script
    ensures text[|text| - |t.expected|..] == t.expected
  {
    t.script + " " + t.tool + " " + t.scenarioCommand + " = " + t.expected
  }

  /** The label is the field list joined on single spaces. */
  lemma LabelIsJoin(t: TestCase)
    ensures GetLabel(t) == Join([t.script, t.tool, t.scenarioCommand, "=", t.expected], ' ')
  {
    var fields := [t.script, t.tool, t.scenarioCommand, "=", t.expected];
    assert fields[1..][1..][1..][1..] == [t.expected];
    assert Join(fields[1..][1..][1..], ' ') == "=" + " " + t.expected;
    assert Join(fields[1..][1..], ' ') == t.scenarioCommand + " " + "=" + " " + t.expected;
    assert Join(fields[1..], ' ') == t.tool + " " + t.scenarioCommand + " " + "=" + " " + t.expected;
  }

  /** When no field holds a space, the label splits back into its fields. */
  lemma LabelFields(t: TestCase)
    requires ' ' !in t.script && ' ' !in t.tool && ' ' !in t.scenarioCommand && ' ' !in t.expected
    ensures Split(GetLabel(t), ' ') == [t.script, t.tool, t.scenarioCommand, "=", t.expected]
  {
    var fields := [t.script, t.tool, t.scenarioCommand, "=", t.expected];
    forall k | 0 <= k < |fields| ensures ' ' !in fields[k] {
    }
    LabelIsJoin(t);
    SplitJoin(fields, ' ');
  }

  /** The test case each scenario item is associated with. */
  function CaseFor(command: ScenarioCommand): (c: TestCase)
  {
    TestCase(command.script, command.tool, command.scenarioCommand, Pending, Pending)
  }

  /** The items the `OnScenario` callback creates, in report order: the id
      is `toString` of the heading's 1-based line number (and so reads back
      as it), the label is the
      captured label, and the uri is the file's. */
  function ScenarioItems(reports: seq<Heading>, uri: Option<string>): (kids: seq<TestItem>)
    ensures |kids| == |reports|
    ensures forall n :: 0 <= n < |kids| ==>
              && kids[n].id == DecimalString(reports[n].lineNo + 1)
              && AllDigits(kids[n].id)
              && DecimalValue(kids[n].id) == reports[n].lineNo + 1
              && kids[n].title == reports[n].text
              && kids[n].uri == uri
  {
    var kids := seq(|reports|, n requires 0 <= n < |reports| => TestItem(DecimalString(reports[n].lineNo + 1), reports[n].text, uri));
    forall n | 0 <= n < |kids| ensures DecimalValue(kids[n].id) == reports[n].lineNo + 1 {
      DecimalRoundTrip(reports[n].lineNo + 1);
    }
    kids
  }

  /** The file item's children list replaced by `kids`; every other item's
      list is left as it was. */
  function ReplaceChildren(children: map<TestItem, seq<TestItem>>, item: TestItem, kids: seq<TestItem>): (r: map<TestItem, seq<TestItem>>)
    ensures r.Keys == children.Keys + {item}
    ensures r[item] == kids
    ensures forall other :: other in children && other != item ==> r[other] == children[other]
  {
    children[item := kids]
  }

  /** `testData.set(item, data)` for every new item: each of `kids` is
      associated with `data`, and every other association is kept. */
  function Associate(testData: map<TestItem, TestCase>, kids: seq<TestItem>, data: TestCase): (r: map<TestItem, TestCase>)
    ensures forall c :: c in kids ==> c in r && r[c] == data
    ensures forall c :: c in testData && c !in kids ==> c in r && r[c] == testData[c]
    ensures r.Keys == testData.Keys + set c | c in kids
  {
    testData + map c | c in kids :: data
  }

  /** `TestFile.updateFromContents`. The generation counter moves on by one,
      the file is marked resolved, and the file item's children are replaced
      wholesale by one item per reported heading, in line order: its id is
      `toString` of the heading's 1-based line number and its label is the captured
      label. Each new item is associated with the command's script, tool and
      scenario command; no other item gains an association, and every other
      item keeps its children and test case. */
  function UpdateFromContents(explorer: Explorer, file: TestFile, content: string, item: TestItem, command: ScenarioCommand): (u: Update)
    ensures u.file.didResolve
    ensures u.explorer.generationCounter == explorer.generationCounter + 1
    ensures u.explorer.children.Keys == explorer.children.Keys + {item}
    ensures forall other :: other in explorer.children && other != item ==>
              u.explorer.children[other] == explorer.children[other]
    ensures var reports := Parse(content);
            var kids := u.explorer.children[item];
            && |kids| == |reports|
            && forall n :: 0 <= n < |kids| ==>
                 && kids[n].id == DecimalString(reports[n].lineNo + 1)
                 && AllDigits(kids[n].id)
                 && DecimalValue(kids[n].id) == reports[n].lineNo + 1
                 && kids[n].title == reports[n].text
                 && kids[n].uri == item.uri
    ensures forall c :: c in u.explorer.children[item] ==> c in u.explorer.testData && u.explorer.testData[c] == CaseFor(command)
    ensures forall c :: c in explorer.testData && c !in u.explorer.children[item] ==>
              c in u.explorer.testData && u.explorer.testData[c] == explorer.testData[c]
    ensures u.explorer.testData.Keys == explorer.testData.Keys + set c | c in u.explorer.children[item]
  {
    var kids := ScenarioItems(Parse(content), item.uri);
    Update(
      Explorer(ReplaceChildren(explorer.children, item, kids), Associate(explorer.testData, kids, CaseFor(command)), explorer.generationCounter + 1),
      file.(didResolve := true))
  }

  /** The new children of a file item have pairwise distinct ids. */
  lemma ScenarioIdsDistinct(explorer: Explorer, file: TestFile, content: string, item: TestItem, command: ScenarioCommand)
    ensures var kids := UpdateFromContents(explorer, file, content, item, command).explorer.children[item];
            forall n, m :: 0 <= n < m < |kids| ==> kids[n].id != kids[m].id
  {
    var reports := Parse(content);
    var kids := UpdateFromContents(explorer, file, content, item, command).explorer.children[item];
    forall n, m | 0 <= n < m < |kids| ensures kids[n].id != kids[m].id {
      assert reports[n].lineNo < reports[m].lineNo;
      DecimalRoundTrip(reports[n].lineNo + 1);
      DecimalRoundTrip(reports[m].lineNo + 1);
    }
  }

  /** Updating twice from the same text leaves the same children as updating
      once: children are replaced, never appended. */
  lemma UpdateReplacesChildren(explorer: Explorer, file: TestFile, content: string, item: TestItem, command: ScenarioCommand)
    ensures var once := UpdateFromContents(explorer, file, content, item, command);
            var twice := UpdateFromContents(once.explorer, once.file, content, item, command);
            && twice.explorer.children == once.explorer.children
            && twice.explorer.generationCounter == explorer.generationCounter + 2
  {
    var kids := ScenarioItems(Parse(content), item.uri);
    var once := ReplaceChildren(explorer.children, item, kids);
    assert ReplaceChildren(once, item, kids) == once;
  }
}
