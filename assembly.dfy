/**
 * The table side of the pipeline: the required-column check of
 * `load_and_validate_data`, and the way `process_controls` turns its
 * result lists into output columns (assignments, deletions and a rename
 * on the data frame). A data frame is modelled by its columns, in order,
 * each with a name and one value per row.
 */
module Assembly {
  import opened Wrappers
  import opened JsonValue
  import opened Retry
  import opened Processor

  // ---------------------------------------------------------------------
  // The required-column check
  // ---------------------------------------------------------------------

  const RequiredColumns: seq<string> := [
    "Risk", "Risk Description", "Control", "Control Description",
    "Automation", "Detective/ Preventive", "Operation Frequency"
  ]

  /** `[col for col in required if col not in columns]`. */
  function Absent(required: seq<string>, columns: seq<string>): (r: seq<string>)
    ensures forall c :: c in r <==> c in required && c !in columns
    ensures |r| <= |required|
  {
    if required == [] then []
    else if required[0] in columns then Absent(required[1..], columns)
    else [required[0]] + Absent(required[1..], columns)
  }

  /** The columns `load_and_validate_data` reports as missing; loading goes on only when there are none. */
  function MissingRequired(columns: seq<string>): seq<string> {
    Absent(RequiredColumns, columns)
  }

  /** Loading goes on exactly when every required column is present, and the error names exactly the absent ones. */
  lemma RequiredCheck(columns: seq<string>)
    ensures MissingRequired(columns) == [] <==> forall c :: c in RequiredColumns ==> c in columns
    ensures forall c :: c in MissingRequired(columns) <==> c in RequiredColumns && c !in columns
  {
    if MissingRequired(columns) != [] {
      assert MissingRequired(columns)[0] in MissingRequired(columns);
    }
  }

  /** No required column is reported more often than it is listed. */
  lemma {:induction false} AbsentSubsequence(required: seq<string>, columns: seq<string>)
    ensures multiset(Absent(required, columns)) <= multiset(required)
  {
    if required != [] {
      AbsentSubsequence(required[1..], columns);
      assert required == [required[0]] + required[1..];
    }
  }

  // ---------------------------------------------------------------------
  // Columns
  // ---------------------------------------------------------------------

  datatype Column = Column(name: string, values: seq<Json>)

  /** `name in df.columns`. */
  predicate HasName(columns: seq<Column>, name: string) {
    exists i :: 0 <= i < |columns| && columns[i].name == name
  }

  /**
   * `df[name] = values`: an existing column keeps its place and takes the
   * new values; a new one is added at the end.
   */
  function Assign(columns: seq<Column>, name: string, values: seq<Json>): seq<Column> {
    if HasName(columns, name) then
      seq(|columns|, i requires 0 <= i < |columns| =>
        if columns[i].name == name then Column(name, values) else columns[i])
    else columns + [Column(name, values)]
  }

  /** `del df[name]`, guarded by `if name in df.columns`. */
  function Drop(columns: seq<Column>, name: string): seq<Column> {
    if columns == [] then []
    else if columns[0].name == name then Drop(columns[1..], name)
    else [columns[0]] + Drop(columns[1..], name)
  }

  /** `df.rename(columns={from: to})`: every column named `from` is renamed in place. */
  function Rename(columns: seq<Column>, from: string, to: string): (r: seq<Column>)
    ensures |r| == |columns|
  {
    seq(|columns|, i requires 0 <= i < |columns| =>
      if columns[i].name == from then Column(to, columns[i].values) else columns[i])
  }

  /** After `df[name] = values` the column is there with those values. */
  lemma AssignHas(columns: seq<Column>, name: string, values: seq<Json>)
    ensures Column(name, values) in Assign(columns, name, values)
  {
    var r := Assign(columns, name, values);
    if HasName(columns, name) {
      var i :| 0 <= i < |columns| && columns[i].name == name;
      assert r[i] == Column(name, values);
    } else {
      assert r[|columns|] == Column(name, values);
    }
  }

  /** `df[name] = values` leaves every column of another name where it is. */
  lemma AssignKeeps(columns: seq<Column>, name: string, values: seq<Json>, c: Column)
    requires c in columns && c.name != name
    ensures c in Assign(columns, name, values)
  {
    var r := Assign(columns, name, values);
    var j :| 0 <= j < |columns| && columns[j] == c;
    assert r[j] == c;
  }

  /** `df[name] = values` adds no column but the assigned one. */
  lemma AssignFrom(columns: seq<Column>, name: string, values: seq<Json>, c: Column)
    requires c in Assign(columns, name, values)
    ensures c in columns || c == Column(name, values)
  {
    var r := Assign(columns, name, values);
    var j :| 0 <= j < |r| && r[j] == c;
    if HasName(columns, name) {
      if columns[j].name != name {
        assert columns[j] == c;
      }
    } else if j < |columns| {
      assert columns[j] == c;
    }
  }

  /** After `del df[name]`, exactly the other columns are left. */
  lemma {:induction false} DropMembers(columns: seq<Column>, name: string, c: Column)
    ensures c in Drop(columns, name) <==> c in columns && c.name != name
  {
    if columns != [] {
      DropMembers(columns[1..], name, c);
      assert columns == [columns[0]] + columns[1..];
    }
  }

  lemma {:induction false} DropAppend(a: seq<Column>, b: seq<Column>, name: string)
    ensures Drop(a + b, name) == Drop(a, name) + Drop(b, name)
  {
    if a == [] {
      assert a + b == b;
    } else {
      assert (a + b)[0] == a[0];
      assert (a + b)[1..] == a[1..] + b;
      DropAppend(a[1..], b, name);
      if a[0].name != name {
        assert [a[0]] + (Drop(a[1..], name) + Drop(b, name)) == ([a[0]] + Drop(a[1..], name)) + Drop(b, name);
      }
    }
  }

  /** A last column of another name survives `del`, still last. */
  lemma DropAfter(columns: seq<Column>, c: Column, name: string)
    requires c.name != name
    ensures Drop(columns + [c], name) == Drop(columns, name) + [c]
  {
    DropAppend(columns, [c], name);
    assert [c][1..] == [];
  }

  /** Trailing columns none of which has the name survive `del` unchanged. */
  lemma DropKeepsTail(front: seq<Column>, tail: seq<Column>, name: string)
    requires !HasName(tail, name)
    ensures Drop(front + tail, name) == Drop(front, name) + tail
  {
    DropAppend(front, tail, name);
    DropAbsent(tail, name);
  }

  lemma {:induction false} DropAbsent(columns: seq<Column>, name: string)
    requires !HasName(columns, name)
    ensures Drop(columns, name) == columns
  {
    if columns != [] {
      assert columns[0].name != name;
      assert forall i :: 0 <= i < |columns[1..]| ==> columns[1..][i] == columns[i + 1];
      DropAbsent(columns[1..], name);
      assert columns == [columns[0]] + columns[1..];
    }
  }

  lemma RenameAbsent(columns: seq<Column>, from: string, to: string)
    requires !HasName(columns, from)
    ensures Rename(columns, from, to) == columns
  {
  }

  // ---------------------------------------------------------------------
  // The output columns of `process_controls`
  // ---------------------------------------------------------------------

  const PresentMissingName := "Present & Missing"
  const SuggestionsName := "Suggestions"
  const SourceName := "Source"
  const SystemExplanationName := "System/data dependencies: Explanation"
  const DocumentedHeader := "Has the control been formally documented? (When, Why, Who, What, Where and How)"

  /** The fourteen analysis columns, in the order they are assigned, each with the result list it holds. */
  const AnalysisColumns: seq<(string, nat)> := [
    ("Control objective: Is the control designed able to mitigate the risk ?", ObjectiveAnsIdx),
    ("Control objective: Explanation", ObjectiveExpIdx),
    ("Is the control execution appropriate for the risk being addressed?", ExecAnsIdx),
    ("Execution appropriateness: Explanation", ExecExpIdx),
    ("Is the control type adequate for the risk it addresses", TypeAnsIdx),
    ("Type adequacy: Explanation", TypeExpIdx),
    ("Is the control frequency appropriate for the associated risk?", FreqAnsIdx),
    ("Frequency appropriateness: Explanation", FreqExpIdx),
    ("System/data dependencies: Are the systems/data sources used reliable and secure?", SysdepAnsIdx),
    ("Adaptability - Is the control adaptable to new risks or process changes?", AdaptabilityAnsIdx),
    ("Adaptability: Explanation", AdaptabilityExpIdx),
    ("Overall Rating", OverallAnsIdx),
    ("Overall Rating: Explanation", OverallExpIdx),
    ("Potential Evidences Expected Based on Control Description", EvidenceIdx)
  ]

  /** The result lists that become columns: all but the present, missing and system-explanation lists. */
  predicate ShownList(k: nat) {
    2 <= k < ListCount && k != SysdepExpIdx
  }

  /** The names the assembly deletes, assigns or renames, besides the analysis columns. */
  predicate Special(n: string) {
    n == PresentMissingName || n == SuggestionsName || n == SystemExplanationName
    || n == "Present" || n == "Missing" || n == SourceName || n == DocumentedHeader
  }

  /** A table of analysis columns: distinct names, none of them special, each holding a shown list. */
  predicate GoodTable(t: seq<(string, nat)>) {
    && (forall i :: 0 <= i < |t| ==> ShownList(t[i].1) && !Special(t[i].0))
    && DistinctNames(t)
  }

  /** Every column of the table holds one of the result lists. */
  predicate Indexed(t: seq<(string, nat)>) {
    forall i :: 0 <= i < |t| ==> t[i].1 < ListCount
  }

  predicate DistinctNames(t: seq<(string, nat)>) {
    forall i, j :: 0 <= i < j < |t| ==> t[i].0 != t[j].0
  }

  predicate InTable(t: seq<(string, nat)>, n: string) {
    exists i :: 0 <= i < |t| && t[i].0 == n
  }

  /** The analysis columns of table `t` assigned one after the other. */
  function AssignAll(columns: seq<Column>, lists: seq<seq<Json>>, t: seq<(string, nat)>): seq<Column>
    requires |lists| == ListCount && Indexed(t)
    decreases |t|
  {
    if t == [] then columns
    else Assign(AssignAll(columns, lists, t[..|t| - 1]), t[|t| - 1].0, lists[t[|t| - 1].1])
  }

  /** The columns of table `t`, as they are added when none of them existed. */
  function TableCells(lists: seq<seq<Json>>, t: seq<(string, nat)>): (r: seq<Column>)
    requires |lists| == ListCount && Indexed(t)
    ensures |r| == |t|
  {
    seq(|t|, i requires 0 <= i < |t| => Column(t[i].0, lists[t[i].1]))
  }

  /** Lines 613-624: the pair column, the deleted flags, the suggestions and the deleted source. */
  function BeforeAnalysis(columns: seq<Column>, lists: seq<seq<Json>>): seq<Column>
    requires |lists| == ListCount
  {
    var withPair := Assign(columns, PresentMissingName, lists[PresentMissingIdx]);
    var noFlags := Drop(Drop(withPair, "Present"), "Missing");
    Drop(Assign(noFlags, SuggestionsName, lists[SuggestionIdx]), SourceName)
  }

  /** Lines 613-649 in order, with the analysis columns of table `t`. */
  function AssembledWith(columns: seq<Column>, lists: seq<seq<Json>>, t: seq<(string, nat)>): seq<Column>
    requires |lists| == ListCount && GoodTable(t)
  {
    var analysed := AssignAll(BeforeAnalysis(columns, lists), lists, t);
    Rename(Drop(analysed, SystemExplanationName), PresentMissingName, DocumentedHeader)
  }

  /** The output columns of `process_controls`, with its fourteen analysis columns. */
  function Assembled(columns: seq<Column>, lists: seq<seq<Json>>): seq<Column>
    requires |lists| == ListCount
  {
    AnalysisTableGood();
    AssembledWith(columns, lists, AnalysisColumns)
  }

  /** The input columns that survive the deletions. */
  function Kept(columns: seq<Column>): seq<Column> {
    Drop(Drop(Drop(Drop(columns, "Present"), "Missing"), SourceName), SystemExplanationName)
  }

  // ---------------------------------------------------------------------
  // What the assembly promises
  // ---------------------------------------------------------------------

  /** The fourteen analysis columns have distinct, ordinary names and hold shown lists. */
  lemma AnalysisTableGood()
    ensures |AnalysisColumns| == 14 && GoodTable(AnalysisColumns)
  {
    AnalysisTableOrdinary();
    AnalysisTableDistinct();
  }

  lemma AnalysisTableOrdinary()
    ensures forall i :: 0 <= i < |AnalysisColumns| ==> ShownList(AnalysisColumns[i].1) && !Special(AnalysisColumns[i].0)
  {
  }

  lemma AnalysisTableDistinct()
    ensures forall i, j :: 0 <= i < j < |AnalysisColumns| ==> AnalysisColumns[i].0 != AnalysisColumns[j].0
  {
  }

  /** Assigning columns that did not exist appends them in table order. */
  lemma {:induction false} AssignAllFresh(columns: seq<Column>, lists: seq<seq<Json>>, t: seq<(string, nat)>)
    requires |lists| == ListCount && Indexed(t) && DistinctNames(t)
    requires forall i :: 0 <= i < |columns| ==> !InTable(t, columns[i].name)
    ensures AssignAll(columns, lists, t) == columns + TableCells(lists, t)
    decreases |t|
  {
    if t != [] {
      var m := |t| - 1;
      var front := t[..m];
      assert forall i :: 0 <= i < m ==> front[i] == t[i];
      AssignAllFresh(columns, lists, front);
      var prefix := columns + TableCells(lists, front);
      forall i | 0 <= i < |prefix| ensures prefix[i].name != t[m].0 {
        if i < |columns| {
          assert !InTable(t, columns[i].name);
        } else {
          assert prefix[i].name == t[i - |columns|].0;
        }
      }
      AssignNew(prefix, t[m].0, lists[t[m].1]);
      TableCellsLast(lists, t);
    }
  }

  /** `df[name] = values` for a name no column has appends the column. */
  lemma AssignNew(columns: seq<Column>, name: string, values: seq<Json>)
    requires forall i :: 0 <= i < |columns| ==> columns[i].name != name
    ensures Assign(columns, name, values) == columns + [Column(name, values)]
  {
  }

  lemma TableCellsLast(lists: seq<seq<Json>>, t: seq<(string, nat)>)
    requires |lists| == ListCount && Indexed(t) && t != []
    ensures Indexed(t[..|t| - 1])
    ensures TableCells(lists, t) == TableCells(lists, t[..|t| - 1]) + [Column(t[|t| - 1].0, lists[t[|t| - 1].1])]
  {
    var front := t[..|t| - 1];
    assert forall i :: 0 <= i < |front| ==> front[i] == t[i];
  }

  /** An assigned analysis column holds its list after all the later assignments too. */
  lemma {:induction false} AssignAllHas(columns: seq<Column>, lists: seq<seq<Json>>, t: seq<(string, nat)>, k: nat)
    requires |lists| == ListCount && Indexed(t) && DistinctNames(t) && k < |t|
    ensures Column(t[k].0, lists[t[k].1]) in AssignAll(columns, lists, t)
    decreases |t|
  {
    var m := |t| - 1;
    var front := t[..m];
    if k == m {
      AssignHas(AssignAll(columns, lists, front), t[m].0, lists[t[m].1]);
    } else {
      assert front[k] == t[k];
      AssignAllHas(columns, lists, front, k);
      AssignKeeps(AssignAll(columns, lists, front), t[m].0, lists[t[m].1], Column(t[k].0, lists[t[k].1]));
    }
  }

  /** An assignment from table `t` leaves a column whose name is not in the table where it is. */
  lemma {:induction false} AssignAllKeeps(columns: seq<Column>, lists: seq<seq<Json>>, t: seq<(string, nat)>, c: Column)
    requires |lists| == ListCount && Indexed(t) && c in columns && !InTable(t, c.name)
    ensures c in AssignAll(columns, lists, t)
    decreases |t|
  {
    if t != [] {
      var m := |t| - 1;
      var front := t[..m];
      assert forall i :: 0 <= i < m ==> front[i] == t[i];
      AssignAllKeeps(columns, lists, front, c);
      AssignKeeps(AssignAll(columns, lists, front), t[m].0, lists[t[m].1], c);
    }
  }

  /** Every column after the assignments was there before, or is one of the table's columns. */
  lemma {:induction false} AssignAllFrom(columns: seq<Column>, lists: seq<seq<Json>>, t: seq<(string, nat)>, c: Column)
    requires |lists| == ListCount && Indexed(t) && c in AssignAll(columns, lists, t)
    ensures c in columns || exists i :: 0 <= i < |t| && c == Column(t[i].0, lists[t[i].1])
    decreases |t|
  {
    if t != [] {
      var m := |t| - 1;
      var front := t[..m];
      AssignFrom(AssignAll(columns, lists, front), t[m].0, lists[t[m].1], c);
      if c != Column(t[m].0, lists[t[m].1]) {
        AssignAllFrom(columns, lists, front, c);
        if c !in columns {
          var i :| 0 <= i < m && c == Column(front[i].0, lists[front[i].1]);
          assert front[i] == t[i];
        }
      }
    }
  }

  /** Before the analysis columns: the pair column and the suggestions are in, each with its list. */
  lemma BeforeAnalysisHas(columns: seq<Column>, lists: seq<seq<Json>>)
    requires |lists| == ListCount
    ensures Column(PresentMissingName, lists[PresentMissingIdx]) in BeforeAnalysis(columns, lists)
    ensures Column(SuggestionsName, lists[SuggestionIdx]) in BeforeAnalysis(columns, lists)
  {
    var pair := Column(PresentMissingName, lists[PresentMissingIdx]);
    var sugg := Column(SuggestionsName, lists[SuggestionIdx]);
    var withPair := Assign(columns, PresentMissingName, lists[PresentMissingIdx]);
    AssignHas(columns, PresentMissingName, lists[PresentMissingIdx]);
    DropMembers(withPair, "Present", pair);
    DropMembers(Drop(withPair, "Present"), "Missing", pair);
    var noFlags := Drop(Drop(withPair, "Present"), "Missing");
    AssignKeeps(noFlags, SuggestionsName, lists[SuggestionIdx], pair);
    AssignHas(noFlags, SuggestionsName, lists[SuggestionIdx]);
    var withSuggestions := Assign(noFlags, SuggestionsName, lists[SuggestionIdx]);
    DropMembers(withSuggestions, SourceName, pair);
    DropMembers(withSuggestions, SourceName, sugg);
  }

  /** Before the analysis columns, every column is a surviving input column, the pair column or the suggestions. */
  lemma BeforeAnalysisFrom(columns: seq<Column>, lists: seq<seq<Json>>, c: Column)
    requires |lists| == ListCount && c in BeforeAnalysis(columns, lists)
    ensures || (c in columns && c.name != "Present" && c.name != "Missing" && c.name != SourceName)
            || c == Column(PresentMissingName, lists[PresentMissingIdx])
            || c == Column(SuggestionsName, lists[SuggestionIdx])
  {
    var withPair := Assign(columns, PresentMissingName, lists[PresentMissingIdx]);
    var noFlags := Drop(Drop(withPair, "Present"), "Missing");
    var withSuggestions := Assign(noFlags, SuggestionsName, lists[SuggestionIdx]);
    DropMembers(withSuggestions, SourceName, c);
    AssignFrom(noFlags, SuggestionsName, lists[SuggestionIdx], c);
    if c in noFlags {
      DropMembers(Drop(withPair, "Present"), "Missing", c);
      DropMembers(withPair, "Present", c);
      AssignFrom(columns, PresentMissingName, lists[PresentMissingIdx], c);
    }
  }

  /** Every output column comes from a column before the explanation is deleted and the pair renamed. */
  lemma OutputFrom(columns: seq<Column>, lists: seq<seq<Json>>, t: seq<(string, nat)>, c: Column) returns (e: Column)
    requires |lists| == ListCount && GoodTable(t) && c in AssembledWith(columns, lists, t)
    ensures e in AssignAll(BeforeAnalysis(columns, lists), lists, t) && e.name != SystemExplanationName
    ensures e.values == c.values && c.name == if e.name == PresentMissingName then DocumentedHeader else e.name
  {
    var analysed := AssignAll(BeforeAnalysis(columns, lists), lists, t);
    var noExplanation := Drop(analysed, SystemExplanationName);
    var out := Rename(noExplanation, PresentMissingName, DocumentedHeader);
    var m :| 0 <= m < |out| && out[m] == c;
    e := noExplanation[m];
    DropMembers(analysed, SystemExplanationName, e);
  }

  /**
   * On a table whose columns do not already carry the written names, the
   * output is the surviving input columns, then the documented-header
   * column, the suggestions and the analysis columns in order, whatever
   * the rows hold.
   */
  lemma FreshAssembly(columns: seq<Column>, lists: seq<seq<Json>>, t: seq<(string, nat)>)
    requires |lists| == ListCount && GoodTable(t)
    requires forall c :: c in columns ==>
      c.name != PresentMissingName && c.name != SuggestionsName && !InTable(t, c.name)
    ensures AssembledWith(columns, lists, t) ==
      Kept(columns) + [Column(DocumentedHeader, lists[PresentMissingIdx]), Column(SuggestionsName, lists[SuggestionIdx])]
      + TableCells(lists, t)
  {
    var pair := Column(PresentMissingName, lists[PresentMissingIdx]);
    var sugg := Column(SuggestionsName, lists[SuggestionIdx]);
    var kept := Kept(columns);
    var cells := TableCells(lists, t);
    FreshAnalysed(columns, lists, t);
    forall i | 0 <= i < |kept| ensures kept[i].name != PresentMissingName {
      KeptFrom(columns, kept[i]);
    }
    WrittenNamesDistinct();
    RenameMiddle(kept, pair, sugg, cells, DocumentedHeader);
  }

  /** The deletions and assignments of an assembly on fresh columns, before the renaming. */
  lemma FreshAnalysed(columns: seq<Column>, lists: seq<seq<Json>>, t: seq<(string, nat)>)
    requires |lists| == ListCount && GoodTable(t)
    requires forall c :: c in columns ==>
      c.name != PresentMissingName && c.name != SuggestionsName && !InTable(t, c.name)
    ensures Drop(AssignAll(BeforeAnalysis(columns, lists), lists, t), SystemExplanationName) ==
      Kept(columns) + [Column(PresentMissingName, lists[PresentMissingIdx]), Column(SuggestionsName, lists[SuggestionIdx])]
      + TableCells(lists, t)
  {
    var pair := Column(PresentMissingName, lists[PresentMissingIdx]);
    var sugg := Column(SuggestionsName, lists[SuggestionIdx]);
    var front := Drop(Drop(Drop(columns, "Present"), "Missing"), SourceName);
    FreshPrefix(columns, lists);
    FreshStems(columns, lists, t);
    AssignAllFresh(front + [pair, sugg], lists, t);
    FreshTail(Kept(columns), front, pair, sugg, TableCells(lists, t));
  }

  /** Renaming the one column named `pair.name`, which sits between `kept` and `cells`. */
  lemma RenameMiddle(kept: seq<Column>, pair: Column, sugg: Column, cells: seq<Column>, to: string)
    requires forall i :: 0 <= i < |kept| ==> kept[i].name != pair.name
    requires forall i :: 0 <= i < |cells| ==> cells[i].name != pair.name
    requires sugg.name != pair.name
    ensures Rename(kept + [pair, sugg] + cells, pair.name, to) == kept + [Column(to, pair.values), sugg] + cells
  {
    var whole := kept + [pair, sugg] + cells;
    var expected := kept + [Column(to, pair.values), sugg] + cells;
    forall i | 0 <= i < |whole| ensures Rename(whole, pair.name, to)[i] == expected[i] {
      if i < |kept| {
        assert whole[i] == kept[i];
      } else if i >= |kept| + 2 {
        assert whole[i] == cells[i - |kept| - 2];
      }
    }
  }


  /** The columns in front of the analysis columns carry no name of the table. */
  lemma FreshStems(columns: seq<Column>, lists: seq<seq<Json>>, t: seq<(string, nat)>)
    requires |lists| == ListCount && GoodTable(t)
    requires forall c :: c in columns ==> !InTable(t, c.name)
    ensures forall i :: 0 <= i < |BeforeAnalysis(columns, lists)| ==> !InTable(t, BeforeAnalysis(columns, lists)[i].name)
  {
    var before := BeforeAnalysis(columns, lists);
    forall i | 0 <= i < |before| ensures !InTable(t, before[i].name) {
      BeforeAnalysisFrom(columns, lists, before[i]);
    }
  }

  /** Deleting the system explanation after the fresh assignments leaves the kept columns in front. */
  lemma FreshTail(kept: seq<Column>, front: seq<Column>, pair: Column, sugg: Column, cells: seq<Column>)
    requires kept == Drop(front, SystemExplanationName)
    requires pair.name == PresentMissingName && sugg.name == SuggestionsName
    requires forall i :: 0 <= i < |cells| ==> cells[i].name != SystemExplanationName
    ensures Drop(front + [pair, sugg] + cells, SystemExplanationName) == kept + [pair, sugg] + cells
  {
    DropKeepsTail(front + [pair, sugg], cells, SystemExplanationName);
    DropKeepsTail(front, [pair, sugg], SystemExplanationName);
  }


  /** The steps before the analysis columns, on a table without the pair and suggestion columns. */
  lemma FreshPrefix(columns: seq<Column>, lists: seq<seq<Json>>)
    requires |lists| == ListCount
    requires forall c :: c in columns ==> c.name != PresentMissingName && c.name != SuggestionsName
    ensures BeforeAnalysis(columns, lists) == Drop(Drop(Drop(columns, "Present"), "Missing"), SourceName)
      + [Column(PresentMissingName, lists[PresentMissingIdx]), Column(SuggestionsName, lists[SuggestionIdx])]
  {
    var flagless := Drop(Drop(columns, "Present"), "Missing");
    PairAfterFlags(columns, lists[PresentMissingIdx]);
    forall i | 0 <= i < |flagless| ensures flagless[i].name != SuggestionsName {
      DropMembers(Drop(columns, "Present"), "Missing", flagless[i]);
      DropMembers(columns, "Present", flagless[i]);
    }
    WrittenNamesDistinct();
    SuggestionsAfterSource(flagless, Column(PresentMissingName, lists[PresentMissingIdx]), SuggestionsName, lists[SuggestionIdx], SourceName);
  }

  lemma WrittenNamesDistinct()
    ensures PresentMissingName != SuggestionsName && PresentMissingName != SourceName && SuggestionsName != SourceName
  {
    assert PresentMissingName[0] != SuggestionsName[0] && PresentMissingName[0] != SourceName[0];
    assert SuggestionsName[1] != SourceName[1];
  }

  /** The new pair column survives the deletion of the two flag columns, at the end. */
  lemma PairAfterFlags(columns: seq<Column>, values: seq<Json>)
    requires forall c :: c in columns ==> c.name != PresentMissingName
    ensures Drop(Drop(Assign(columns, PresentMissingName, values), "Present"), "Missing")
      == Drop(Drop(columns, "Present"), "Missing") + [Column(PresentMissingName, values)]
  {
    var pair := Column(PresentMissingName, values);
    AssignNew(columns, PresentMissingName, values);
    DropAfter(columns, pair, "Present");
    DropAfter(Drop(columns, "Present"), pair, "Missing");
  }


  /**
   * A new column assigned after `pair` goes after it, and both survive the
   * deletion of a column of a third name.
   */
  lemma SuggestionsAfterSource(flagless: seq<Column>, pair: Column, name: string, values: seq<Json>, dropped: string)
    requires forall i :: 0 <= i < |flagless| ==> flagless[i].name != name
    requires pair.name != name && pair.name != dropped && name != dropped
    ensures Drop(Assign(flagless + [pair], name, values), dropped)
      == Drop(flagless, dropped) + [pair, Column(name, values)]
  {
    var added := Column(name, values);
    AssignNew(flagless + [pair], name, values);
    DropAfter(flagless + [pair], added, dropped);
    DropAfter(flagless, pair, dropped);
  }




  /** The surviving input columns are input columns with none of the deleted names. */
  lemma KeptFrom(columns: seq<Column>, c: Column)
    requires c in Kept(columns)
    ensures c in columns && c.name != "Present" && c.name != "Missing" && c.name != SourceName && c.name != SystemExplanationName
  {
    var a := Drop(columns, "Present");
    var b := Drop(a, "Missing");
    var d := Drop(b, SourceName);
    DropMembers(d, SystemExplanationName, c);
    DropMembers(b, SourceName, c);
    DropMembers(a, "Missing", c);
    DropMembers(columns, "Present", c);
  }

  /** Whatever the input, the deleted names and the renamed one are gone from the output. */
  lemma RemovedNamesGone(columns: seq<Column>, lists: seq<seq<Json>>, t: seq<(string, nat)>, c: Column)
    requires |lists| == ListCount && GoodTable(t) && c in AssembledWith(columns, lists, t)
    ensures c.name != "Present" && c.name != "Missing" && c.name != SourceName
    ensures c.name != SystemExplanationName && c.name != PresentMissingName
  {
    var e := OutputFrom(columns, lists, t, c);
    AssignAllFrom(BeforeAnalysis(columns, lists), lists, t, e);
    if e in BeforeAnalysis(columns, lists) {
      BeforeAnalysisFrom(columns, lists, e);
    }
  }

  /** Whatever the input, every written column is in the output with its own result list. */
  lemma WrittenColumnsPresent(columns: seq<Column>, lists: seq<seq<Json>>, t: seq<(string, nat)>)
    requires |lists| == ListCount && GoodTable(t)
    ensures Column(DocumentedHeader, lists[PresentMissingIdx]) in AssembledWith(columns, lists, t)
    ensures Column(SuggestionsName, lists[SuggestionIdx]) in AssembledWith(columns, lists, t)
    ensures forall k :: 0 <= k < |t| ==> Column(t[k].0, lists[t[k].1]) in AssembledWith(columns, lists, t)
  {
    var pair := Column(PresentMissingName, lists[PresentMissingIdx]);
    var sugg := Column(SuggestionsName, lists[SuggestionIdx]);
    var noSource := BeforeAnalysis(columns, lists);
    BeforeAnalysisHas(columns, lists);
    var analysed := AssignAll(noSource, lists, t);
    AssignAllKeeps(noSource, lists, t, pair);
    AssignAllKeeps(noSource, lists, t, sugg);
    var noExplanation := Drop(analysed, SystemExplanationName);
    var out := Rename(noExplanation, PresentMissingName, DocumentedHeader);
    DropMembers(analysed, SystemExplanationName, pair);
    var i :| 0 <= i < |noExplanation| && noExplanation[i] == pair;
    assert out[i] == Column(DocumentedHeader, lists[PresentMissingIdx]);
    DropMembers(analysed, SystemExplanationName, sugg);
    var j :| 0 <= j < |noExplanation| && noExplanation[j] == sugg;
    assert out[j] == sugg;
    forall k | 0 <= k < |t| ensures Column(t[k].0, lists[t[k].1]) in out {
      var c := Column(t[k].0, lists[t[k].1]);
      AssignAllHas(noSource, lists, t, k);
      DropMembers(analysed, SystemExplanationName, c);
      var m :| 0 <= m < |noExplanation| && noExplanation[m] == c;
      assert out[m] == c;
    }
  }

  /**
   * Whatever the input, every output column holds either the values of an
   * input column or one of the shown result lists: the present, missing
   * and system-explanation lists are never written out.
   */
  lemma OutputOrigin(columns: seq<Column>, lists: seq<seq<Json>>, t: seq<(string, nat)>, c: Column)
    requires |lists| == ListCount && GoodTable(t) && c in AssembledWith(columns, lists, t)
    ensures (exists d :: d in columns && d.values == c.values) || exists k: nat :: ShownList(k) && c.values == lists[k]
  {
    var e := OutputFrom(columns, lists, t, c);
    AssignAllFrom(BeforeAnalysis(columns, lists), lists, t, e);
    if e in BeforeAnalysis(columns, lists) {
      BeforeAnalysisFrom(columns, lists, e);
      if e !in columns {
        assert ShownList(PresentMissingIdx) && ShownList(SuggestionIdx);
      }
    } else {
      var i :| 0 <= i < |t| && e == Column(t[i].0, lists[t[i].1]);
      assert ShownList(t[i].1);
    }
  }

  // ---------------------------------------------------------------------
  // The data frame
  // ---------------------------------------------------------------------

  class Frame {
    var columns: seq<Column>
    var rows: nat

    /** Every column has one value per row. */
    ghost predicate Valid()
      reads this
    {
      forall c :: c in columns ==> |c.values| == rows
    }

    constructor (rows: nat, columns: seq<Column>)
      requires forall c :: c in columns ==> |c.values| == rows
      ensures this.rows == rows && this.columns == columns && Valid()
    {
      this.rows := rows;
      this.columns := columns;
    }

    /** `df[name] = values`. */
    method SetColumn(name: string, values: seq<Json>)
      requires Valid() && |values| == rows
      modifies this
      ensures columns == Assign(old(columns), name, values) && rows == old(rows)
      ensures Valid()
    {
      forall c | c in Assign(columns, name, values) ensures |c.values| == rows {
        AssignFrom(columns, name, values, c);
      }
      columns := Assign(columns, name, values);
    }

    /** `if name in df.columns: del df[name]`. */
    method DeleteColumn(name: string)
      requires Valid()
      modifies this
      ensures columns == Drop(old(columns), name) && rows == old(rows)
      ensures Valid()
    {
      if HasName(columns, name) {
        forall c | c in Drop(columns, name) ensures |c.values| == rows {
          DropMembers(columns, name, c);
        }
        columns := Drop(columns, name);
      } else {
        DropAbsent(columns, name);
      }
    }

    /** `if from in df.columns: df.rename(columns={from: to}, inplace=True)`. */
    method RenameColumn(from: string, to: string)
      requires Valid()
      modifies this
      ensures columns == Rename(old(columns), from, to) && rows == old(rows)
      ensures Valid()
    {
      if HasName(columns, from) {
        columns := Rename(columns, from, to);
        assert forall c :: c in columns ==> exists i :: 0 <= i < |columns| && columns[i] == c;
      } else {
        RenameAbsent(columns, from, to);
      }
    }

    /**
     * Lines 627-640: the fourteen assignments, one per entry of the table,
     * in its order.
     */
    method AssignAnalysis(lists: seq<seq<Json>>, t: seq<(string, nat)>)
      requires Valid() && |lists| == ListCount && forall k :: 0 <= k < ListCount ==> |lists[k]| == rows
      requires Indexed(t)
      modifies this
      ensures columns == AssignAll(old(columns), lists, t) && rows == old(rows)
      ensures Valid()
    {
      ghost var start := columns;
      var i := 0;
      while i < |t|
        invariant i <= |t| && Valid() && rows == old(rows)
        invariant columns == AssignAll(start, lists, t[..i])
      {
        assert t[..i + 1][..i] == t[..i];
        SetColumn(t[i].0, lists[t[i].1]);
        i := i + 1;
      }
      assert t[..|t|] == t;
    }

    /** Lines 613-649: the result lists become the output columns. */
    method AssembleOutput(lists: seq<seq<Json>>)
      requires Valid() && |lists| == ListCount && forall k :: 0 <= k < ListCount ==> |lists[k]| == rows
      modifies this
      ensures columns == Assembled(old(columns), lists) && rows == old(rows)
      ensures Valid()
    {
      SetColumn(PresentMissingName, lists[PresentMissingIdx]);
      DeleteColumn("Present");
      DeleteColumn("Missing");
      SetColumn(SuggestionsName, lists[SuggestionIdx]);
      DeleteColumn(SourceName);
      AnalysisTableGood();
      AssignAnalysis(lists, AnalysisColumns);
      DeleteColumn(SystemExplanationName);
      RenameColumn(PresentMissingName, DocumentedHeader);
    }
  }

  /**
   * `process_controls`: the analysis of every row, then the column
   * assembly on the same data frame.
   */
  method ProcessControls(cfg: RetryConfig, frame: Frame, records: seq<seq<seq<Attempt>>>, parse: string -> Option<Json>)
    requires frame.Valid() && frame.rows == |records|
    requires forall i :: 0 <= i < |records| ==> Fits(cfg, records[i])
    modifies frame
    ensures frame.columns == Assembled(old(frame.columns), Table(cfg, records, parse))
    ensures frame.Valid() && frame.rows == |records|
  {
    var results := AnalyseRecords(cfg, records, parse);
    frame.AssembleOutput(results.lists);
  }
}
