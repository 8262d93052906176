/**
 * `process_controls`: nine calls per record, their shaped answers appended
 * to nineteen parallel result lists, and the padding with "Processing
 * error" when a record raises part-way.
 */
module Processor {
  import opened Wrappers
  import opened JsonValue
  import opened Catalog
  import opened Retry

  /** The nineteen result lists, in the order of the padding loop (which is also the order they are appended in). */
  const PresentIdx: nat := 0
  const MissingIdx: nat := 1
  const SuggestionIdx: nat := 2
  const PresentMissingIdx: nat := 3
  const ObjectiveAnsIdx: nat := 4
  const ObjectiveExpIdx: nat := 5
  const ExecAnsIdx: nat := 6
  const ExecExpIdx: nat := 7
  const TypeAnsIdx: nat := 8
  const TypeExpIdx: nat := 9
  const FreqAnsIdx: nat := 10
  const FreqExpIdx: nat := 11
  const SysdepAnsIdx: nat := 12
  const SysdepExpIdx: nat := 13
  const AdaptabilityAnsIdx: nat := 14
  const AdaptabilityExpIdx: nat := 15
  const OverallAnsIdx: nat := 16
  const OverallExpIdx: nat := 17
  const EvidenceIdx: nat := 18
  const ListCount := 19

  /** The nine analysis steps of a record. */
  const StageCount := 9

  /** Step `s` appends to lists `StageStart(s)` up to `StageStart(s + 1)`: four lists, then two per step, then one. */
  function StageStart(s: nat): nat
    requires s <= StageCount
  {
    if s == 0 then 0 else if s == StageCount then ListCount else 2 * s + 2
  }

  const ProcessingError := "Processing error"

  /** The "Present & Missing" cell. */
  function PresentMissing(pres: string, miss: string): string {
    "Present:\n" + pres + "\n\nMissing:\n" + miss
  }

  /** Steps 2 to 8, each answered by two cells. */
  datatype PairStep = Asked(q: Question) | SystemDependency

  function PairStepOf(s: nat): PairStep
    requires 1 <= s <= 7
  {
    if s == 1 then Asked(ControlObjective)
    else if s == 2 then Asked(ExecutionAppropriateness)
    else if s == 3 then Asked(TypeAdequacy)
    else if s == 4 then Asked(FrequencyAppropriateness)
    else if s == 5 then SystemDependency
    else if s == 6 then Asked(Adaptability)
    else Asked(OverallRating)
  }

  function AskPair(p: PairStep, reply: Option<string>, parse: string -> Option<Json>): Shaped<(Json, Json)> {
    match p
    case Asked(q) => AskAnswer(q, reply, parse)
    case SystemDependency => AskSystemDependency(reply, parse)
  }

  function Pair(r: Shaped<(Json, Json)>): Shaped<seq<Json>> {
    match r
    case Raised => Raised
    case Returned((a, e)) => Returned([a, e])
  }

  function CompletenessCells(r: Shaped<(string, string, string)>): Shaped<seq<Json>> {
    match r
    case Raised => Raised
    case Returned((pres, miss, sugg)) =>
      Returned([JString(pres), JString(miss), JString(sugg), JString(PresentMissing(pres, miss))])
  }

  /** The cells step `s` appends, given its reply, or the exception it raises. */
  function StageCells(s: nat, reply: Option<string>, parse: string -> Option<Json>): Shaped<seq<Json>>
    requires s < StageCount
  {
    if s == 0 then CompletenessCells(AskCompleteness(reply, parse))
    else if s < 8 then Pair(AskPair(PairStepOf(s), reply, parse))
    else Returned([JString(AskExpectedEvidence(reply))])
  }

  function Padding(n: nat): (r: seq<Json>)
    ensures |r| == n && forall k :: 0 <= k < n ==> r[k] == JString(ProcessingError)
  {
    seq(n, _ => JString(ProcessingError))
  }

  /** The outcome of each of the nine steps; a returned step has as many cells as it has lists. */
  predicate WellSized(o: seq<Shaped<seq<Json>>>) {
    |o| == StageCount
    && forall s :: 0 <= s < StageCount && o[s].Returned? ==> |o[s].value| == StageStart(s + 1) - StageStart(s)
  }

  function Outcomes(replies: seq<Option<string>>, parse: string -> Option<Json>): (o: seq<Shaped<seq<Json>>>)
    requires |replies| == StageCount
    ensures WellSized(o)
  {
    seq(StageCount, s requires 0 <= s < StageCount => StageCells(s, replies[s], parse))
  }

  /** Step `s` of the outcomes is what step `s` makes of its own reply. */
  lemma OutcomeAt(replies: seq<Option<string>>, parse: string -> Option<Json>, s: nat)
    requires |replies| == StageCount && s < StageCount
    ensures Outcomes(replies, parse)[s] == StageCells(s, replies[s], parse)
  {
  }

  /** What each of the record's steps makes of the reply its own call returned. */
  lemma StageOutcomes(cfg: RetryConfig, services: seq<seq<Attempt>>, parse: string -> Option<Json>)
    requires Fits(cfg, services)
    ensures Outcomes(Replies(cfg, services), parse)[0]
      == CompletenessCells(AskCompleteness(CallSpec(cfg, services[0]).result, parse))
    ensures forall s :: 1 <= s < 8 ==>
      Outcomes(Replies(cfg, services), parse)[s] == Pair(AskPair(PairStepOf(s), CallSpec(cfg, services[s]).result, parse))
    ensures Outcomes(Replies(cfg, services), parse)[8]
      == Returned([JString(AskExpectedEvidence(CallSpec(cfg, services[8]).result))])
  {
    var replies := Replies(cfg, services);
    OutcomeAt(replies, parse, 0);
    OutcomeAt(replies, parse, 8);
    forall s | 1 <= s < 8
      ensures Outcomes(replies, parse)[s] == Pair(AskPair(PairStepOf(s), replies[s], parse))
    {
      OutcomeAt(replies, parse, s);
    }
  }

  /**
   * The cells a record contributes to lists `StageStart(s)` onwards: the
   * real cells step by step, and "Processing error" from the first step
   * that raises.
   */
  function CellsFrom(o: seq<Shaped<seq<Json>>>, s: nat): (cells: seq<Json>)
    requires WellSized(o) && s <= StageCount
    ensures |cells| == ListCount - StageStart(s)
    decreases StageCount - s
  {
    if s == StageCount then []
    else
      match o[s]
      case Raised => Padding(ListCount - StageStart(s))
      case Returned(c) => c + CellsFrom(o, s + 1)
  }

  /** The nineteen cells of one record, one per result list. */
  function RecordCells(replies: seq<Option<string>>, parse: string -> Option<Json>): (cells: seq<Json>)
    requires |replies| == StageCount
    ensures |cells| == ListCount
  {
    CellsFrom(Outcomes(replies, parse), 0)
  }

  /** One attempt stream per call of the record, each long enough for the retry budget. */
  predicate Fits(cfg: RetryConfig, services: seq<seq<Attempt>>) {
    |services| == StageCount && forall i :: 0 <= i < |services| ==> |services[i]| >= cfg.maxRetries
  }

  /** What `make_llm_call_with_retry` returns for each of the record's nine calls. */
  function Replies(cfg: RetryConfig, services: seq<seq<Attempt>>): (r: seq<Option<string>>)
    requires Fits(cfg, services)
    ensures |r| == StageCount
    ensures forall i :: 0 <= i < StageCount ==> r[i] == CallSpec(cfg, services[i]).result
  {
    seq(StageCount, i requires 0 <= i < StageCount => CallSpec(cfg, services[i]).result)
  }

  /** Every list after appending cell `k` to list `k`, for the first `|cells|` lists. */
  function Extend(lists: seq<seq<Json>>, cells: seq<Json>): (r: seq<seq<Json>>)
    requires |cells| <= |lists|
    ensures |r| == |lists|
  {
    seq(|lists|, k requires 0 <= k < |lists| => if k < |cells| then lists[k] + [cells[k]] else lists[k])
  }

  /** The padding loop: `if len(lst) <= idx: lst.append("Processing error")`, list by list. */
  function Padded(lists: seq<seq<Json>>, idx: nat): (r: seq<seq<Json>>)
    ensures |r| == |lists|
  {
    seq(|lists|, k requires 0 <= k < |lists| =>
      if |lists[k]| <= idx then lists[k] + [JString(ProcessingError)] else lists[k])
  }

  /** The result lists after the records so far: list `k` holds cell `k` of every record, in input order. */
  function Table(cfg: RetryConfig, records: seq<seq<seq<Attempt>>>, parse: string -> Option<Json>): (r: seq<seq<Json>>)
    requires forall i :: 0 <= i < |records| ==> Fits(cfg, records[i])
    ensures |r| == ListCount
    ensures forall k :: 0 <= k < ListCount ==> |r[k]| == |records|
  {
    seq(ListCount, k requires 0 <= k < ListCount =>
      seq(|records|, i requires 0 <= i < |records| => RecordCells(Replies(cfg, records[i]), parse)[k]))
  }

  // ---------------------------------------------------------------------
  // The padding invariant
  // ---------------------------------------------------------------------

  /** The first step from `s` on that raises, or `StageCount` when none does. */
  function FirstRaise(o: seq<Shaped<seq<Json>>>, s: nat): (r: nat)
    requires |o| == StageCount && s <= StageCount
    ensures s <= r <= StageCount
    ensures forall t :: s <= t < r ==> o[t].Returned?
    ensures r < StageCount ==> o[r].Raised?
    decreases StageCount - s
  {
    if s == StageCount then StageCount
    else if o[s].Raised? then s
    else FirstRaise(o, s + 1)
  }

  /** From the first raising step on, every cell is "Processing error". */
  lemma {:induction false} CellsFromPadding(o: seq<Shaped<seq<Json>>>, s: nat, k: nat)
    requires WellSized(o) && s <= StageCount
    requires StageStart(FirstRaise(o, s)) - StageStart(s) <= k < ListCount - StageStart(s)
    ensures CellsFrom(o, s)[k] == JString(ProcessingError)
    decreases StageCount - s
  {
    if o[s].Returned? {
      var c := o[s].value;
      var m := s + 1;
      assert CellsFrom(o, s) == c + CellsFrom(o, m);
      CellsFromPadding(o, m, k - |c|);
    }
  }

  /** The cells of the steps before `s`, when none of them raised. */
  function Before(o: seq<Shaped<seq<Json>>>, s: nat): (cells: seq<Json>)
    requires WellSized(o) && s <= FirstRaise(o, 0)
    ensures |cells| == StageStart(s)
  {
    if s == 0 then [] else Before(o, s - 1) + o[s - 1].value
  }

  /** Up to the first raising step, a record's cells are those of the steps so far, then the rest. */
  lemma {:induction false} CellsFromSplit(o: seq<Shaped<seq<Json>>>, s: nat)
    requires WellSized(o) && s <= FirstRaise(o, 0)
    ensures Before(o, s) + CellsFrom(o, s) == CellsFrom(o, 0)
  {
    if s > 0 {
      var p := s - 1;
      CellsFromSplit(o, p);
      ReturnedStep(o, p);
      assert Before(o, s) == Before(o, p) + o[p].value;
      AppendAssoc(Before(o, p), o[p].value, CellsFrom(o, s));
    }
  }

  /** A step that returned contributes its cells ahead of the later steps'. */
  lemma ReturnedStep(o: seq<Shaped<seq<Json>>>, p: nat)
    requires WellSized(o) && p < StageCount && o[p].Returned?
    ensures CellsFrom(o, p) == o[p].value + CellsFrom(o, p + 1)
  {
  }

  lemma AppendAssoc(a: seq<Json>, b: seq<Json>, c: seq<Json>)
    ensures (a + b) + c == a + (b + c)
  {
  }

  /** The middle part of a concatenation, sliced back out. */
  lemma SliceMiddle(a: seq<Json>, b: seq<Json>, c: seq<Json>)
    ensures (a + (b + c))[|a|..|a| + |b|] == b
  {
    assert forall k :: 0 <= k < |b| ==> (a + (b + c))[|a| + k] == b[k];
  }

  /** Before the first raising step, step `t` contributes its own cells. */
  lemma CellsFromSlice(o: seq<Shaped<seq<Json>>>, t: nat)
    requires WellSized(o) && t < FirstRaise(o, 0)
    ensures CellsFrom(o, 0)[StageStart(t)..StageStart(t + 1)] == o[t].value
  {
    CellsFromSplit(o, t);
    assert CellsFrom(o, t) == o[t].value + CellsFrom(o, t + 1);
    SliceMiddle(Before(o, t), o[t].value, CellsFrom(o, t + 1));
  }

  /**
   * A record whose first raising step is `f` keeps the real cells of the
   * steps before `f` and has "Processing error" in every list from step `f`
   * on; a record that never raises has no padding at all.
   */
  lemma RecordPadding(o: seq<Shaped<seq<Json>>>)
    requires WellSized(o)
    ensures forall t :: 0 <= t < FirstRaise(o, 0) ==> CellsFrom(o, 0)[StageStart(t)..StageStart(t + 1)] == o[t].value
    ensures forall k :: StageStart(FirstRaise(o, 0)) <= k < ListCount ==> CellsFrom(o, 0)[k] == JString(ProcessingError)
  {
    forall t | 0 <= t < FirstRaise(o, 0) ensures CellsFrom(o, 0)[StageStart(t)..StageStart(t + 1)] == o[t].value {
      CellsFromSlice(o, t);
    }
    forall k | StageStart(FirstRaise(o, 0)) <= k < ListCount ensures CellsFrom(o, 0)[k] == JString(ProcessingError) {
      CellsFromPadding(o, 0, k);
    }
  }

  /** The expected-evidence step never raises: its list is padded only when an earlier step raised. */
  lemma EvidenceNeverRaises(replies: seq<Option<string>>, parse: string -> Option<Json>)
    requires |replies| == StageCount
    ensures FirstRaise(Outcomes(replies, parse), 0) != 8
    ensures FirstRaise(Outcomes(replies, parse), 0) == StageCount ==>
      RecordCells(replies, parse)[EvidenceIdx] == JString(AskExpectedEvidence(replies[8]))
    ensures FirstRaise(Outcomes(replies, parse), 0) < StageCount ==>
      RecordCells(replies, parse)[EvidenceIdx] == JString(ProcessingError)
  {
    var o := Outcomes(replies, parse);
    OutcomeAt(replies, parse, 8);
    RecordPadding(o);
    if FirstRaise(o, 0) == StageCount {
      assert CellsFrom(o, 0)[StageStart(8)..StageStart(9)] == o[8].value;
    }
  }

  /** A record whose completeness step raises is "Processing error" in all nineteen lists. */
  lemma FirstStepRaiseFillsAll(replies: seq<Option<string>>, parse: string -> Option<Json>)
    requires |replies| == StageCount
    requires AskCompleteness(replies[0], parse).Raised?
    ensures RecordCells(replies, parse) == Padding(ListCount)
  {
    OutcomeAt(replies, parse, 0);
  }

  /** The "Present & Missing" cell is built from the present and missing cells of the same record. */
  lemma PresentMissingCell(replies: seq<Option<string>>, parse: string -> Option<Json>)
    requires |replies| == StageCount
    requires AskCompleteness(replies[0], parse).Returned?
    ensures RecordCells(replies, parse)[PresentIdx] == JString(AskCompleteness(replies[0], parse).value.0)
    ensures RecordCells(replies, parse)[MissingIdx] == JString(AskCompleteness(replies[0], parse).value.1)
    ensures RecordCells(replies, parse)[PresentMissingIdx] == JString(PresentMissing(
      AskCompleteness(replies[0], parse).value.0, AskCompleteness(replies[0], parse).value.1))
  {
    var o := Outcomes(replies, parse);
    OutcomeAt(replies, parse, 0);
    assert CellsFrom(o, 0) == o[0].value + CellsFrom(o, 1);
  }

  /** Padding a record's lists when cells `0 .. |cells|` have been appended fills exactly the others. */
  lemma PadExtend(base: seq<seq<Json>>, cells: seq<Json>, idx: nat)
    requires |base| == ListCount && |cells| <= ListCount
    requires forall k :: 0 <= k < ListCount ==> |base[k]| == idx
    ensures Padded(Extend(base, cells), idx) == Extend(base, cells + Padding(ListCount - |cells|))
  {
    var l := Padded(Extend(base, cells), idx);
    var r := Extend(base, cells + Padding(ListCount - |cells|));
    forall k | 0 <= k < ListCount ensures l[k] == r[k] {
      if k >= |cells| {
        assert (cells + Padding(ListCount - |cells|))[k] == JString(ProcessingError);
      } else {
        assert (cells + Padding(ListCount - |cells|))[k] == cells[k];
      }
    }
  }

  /** Appending one cell to each of the lists adds one entry to each. */
  lemma ExtendLengths(base: seq<seq<Json>>, cells: seq<Json>, idx: nat)
    requires |base| == |cells| && forall k :: 0 <= k < |base| ==> |base[k]| == idx
    ensures forall k :: 0 <= k < |base| ==> |Extend(base, cells)[k]| == idx + 1
  {
  }

  /** Processing one more record extends the table by that record's cells. */
  lemma TableStep(cfg: RetryConfig, records: seq<seq<seq<Attempt>>>, parse: string -> Option<Json>, i: nat)
    requires i < |records| && forall j :: 0 <= j < |records| ==> Fits(cfg, records[j])
    ensures Extend(Table(cfg, records[..i], parse), RecordCells(Replies(cfg, records[i]), parse))
      == Table(cfg, records[..i + 1], parse)
  {
    var cells := RecordCells(Replies(cfg, records[i]), parse);
    var t := Table(cfg, records[..i], parse);
    var u := Table(cfg, records[..i + 1], parse);
    forall k, j | 0 <= k < ListCount && 0 <= j < i ensures u[k][j] == t[k][j] {
      assert records[..i][j] == records[j] == records[..i + 1][j];
    }
    assert records[..i + 1][i] == records[i];
    ExtendByLastColumn(t, u, cells, i);
  }

  /** Lists that grow by one entry each, the entries of `cells`, keep their earlier entries. */
  lemma ExtendByLastColumn(t: seq<seq<Json>>, u: seq<seq<Json>>, cells: seq<Json>, n: nat)
    requires |t| == |u| == |cells|
    requires forall k :: 0 <= k < |t| ==> |t[k]| == n && |u[k]| == n + 1 && u[k][n] == cells[k]
    requires forall k, j :: 0 <= k < |t| && 0 <= j < n ==> u[k][j] == t[k][j]
    ensures Extend(t, cells) == u
  {
    forall k | 0 <= k < |t| ensures Extend(t, cells)[k] == u[k] {
      assert Extend(t, cells)[k] == t[k] + [cells[k]];
    }
  }

  class ResultLists {
    /** present_list, missing_list, ..., potential_evidence_list, in the order of the padding loop. */
    var lists: seq<seq<Json>>

    /** Every list has one entry per record processed so far. */
    ghost predicate Even(idx: nat)
      reads this
    {
      |lists| == ListCount && forall k :: 0 <= k < ListCount ==> |lists[k]| == idx
    }

    /**
     * Record `idx` is under way from step `s`: the first `|cells|` lists
     * have their entry for it, and `cells` are the record's first cells.
     */
    ghost predicate Partial(base: seq<seq<Json>>, o: seq<Shaped<seq<Json>>>, cells: seq<Json>, s: nat)
      reads this
    {
      && |base| == ListCount && WellSized(o) && s <= StageCount && |cells| == StageStart(s)
      && lists == Extend(base, cells)
      && cells + CellsFrom(o, s) == CellsFrom(o, 0)
    }

    constructor ()
      ensures lists == seq(ListCount, _ => [])
      ensures Even(0)
    {
      lists := seq(ListCount, _ => []);
    }

    /** `lst.append(v)` on list `k`, which is the next list of the record. */
    method Append(k: nat, v: Json, ghost base: seq<seq<Json>>, ghost cells: seq<Json>) returns (ghost cells': seq<Json>)
      requires k == |cells| < |base| && lists == Extend(base, cells)
      modifies this
      ensures cells' == cells + [v] && lists == Extend(base, cells')
    {
      lists := lists[k := lists[k] + [v]];
      cells' := cells + [v];
      assert forall j :: 0 <= j < |lists| ==> lists[j] == Extend(base, cells')[j];
    }

    /** The `except` block: pad every list that has no entry for record `idx` yet. */
    method PadRecord(idx: nat)
      modifies this
      ensures lists == Padded(old(lists), idx)
    {
      ghost var start := lists;
      var k := 0;
      while k < |lists|
        invariant |lists| == |start| && k <= |lists|
        invariant forall j :: 0 <= j < k ==> lists[j] == Padded(start, idx)[j]
        invariant forall j :: k <= j < |lists| ==> lists[j] == start[j]
      {
        if |lists[k]| <= idx {
          lists := lists[k := lists[k] + [JString(ProcessingError)]];
        }
        k := k + 1;
      }
    }

    /** A step raised: run the `except` block, which completes the record with padding. */
    method Raise(idx: nat, ghost base: seq<seq<Json>>, ghost o: seq<Shaped<seq<Json>>>, ghost cells: seq<Json>, ghost s: nat)
      requires Partial(base, o, cells, s) && s < StageCount && o[s].Raised?
      requires forall k :: 0 <= k < ListCount ==> |base[k]| == idx
      modifies this
      ensures lists == Extend(base, CellsFrom(o, 0))
    {
      PadRecord(idx);
      PadExtend(base, cells, idx);
    }

    /** Step 1: `ask_llm`, then the four appends. */
    method CompletenessStep(idx: nat, cfg: RetryConfig, service: seq<Attempt>, parse: string -> Option<Json>,
                            ghost base: seq<seq<Json>>, ghost o: seq<Shaped<seq<Json>>>, ghost cells: seq<Json>)
      returns (raised: bool, ghost cells': seq<Json>)
      requires Partial(base, o, cells, 0) && |service| >= cfg.maxRetries
      requires forall k :: 0 <= k < ListCount ==> |base[k]| == idx
      requires o[0] == CompletenessCells(AskCompleteness(CallSpec(cfg, service).result, parse))
      modifies this
      ensures raised ==> lists == Extend(base, CellsFrom(o, 0))
      ensures !raised ==> Partial(base, o, cells', 1)
    {
      var reply, attempts, waits := MakeLlmCallWithRetry(cfg, service);
      assert reply == CallSpec(cfg, service).result;
      match AskCompleteness(reply, parse) {
        case Raised =>
          Raise(idx, base, o, cells, 0);
          return true, cells;
        case Returned((pres, miss, sugg)) =>
          cells' := CompletenessAppends(JString(pres), JString(miss), JString(sugg), JString(PresentMissing(pres, miss)), base, o, cells);
          return false, cells';
      }
    }

    /** The four appends of step 1: present, missing, suggestions and the pair cell. */
    method CompletenessAppends(pres: Json, miss: Json, sugg: Json, pair: Json,
                               ghost base: seq<seq<Json>>, ghost o: seq<Shaped<seq<Json>>>, ghost cells: seq<Json>)
      returns (ghost cells': seq<Json>)
      requires Partial(base, o, cells, 0) && o[0] == Returned([pres, miss, sugg, pair])
      modifies this
      ensures Partial(base, o, cells', 1)
    {
      assert cells == [];
      assert CellsFrom(o, 0) == [pres, miss, sugg, pair] + CellsFrom(o, 1);
      cells' := Append(PresentIdx, pres, base, cells);
      cells' := Append(MissingIdx, miss, base, cells');
      cells' := Append(SuggestionIdx, sugg, base, cells');
      cells' := Append(PresentMissingIdx, pair, base, cells');
      assert cells' == [pres, miss, sugg, pair];
    }


    /** Steps 2 to 8: one `ask_*` call answered by two cells, then the two appends. */
    method PairStepRun(idx: nat, s: nat, cfg: RetryConfig, service: seq<Attempt>, parse: string -> Option<Json>,
                       ghost base: seq<seq<Json>>, ghost o: seq<Shaped<seq<Json>>>, ghost cells: seq<Json>)
      returns (raised: bool, ghost cells': seq<Json>)
      requires 1 <= s < 8 && Partial(base, o, cells, s) && |service| >= cfg.maxRetries
      requires forall k :: 0 <= k < ListCount ==> |base[k]| == idx
      requires o[s] == Pair(AskPair(PairStepOf(s), CallSpec(cfg, service).result, parse))
      modifies this
      ensures raised ==> lists == Extend(base, CellsFrom(o, 0))
      ensures !raised ==> Partial(base, o, cells', s + 1)
    {
      var reply, attempts, waits := MakeLlmCallWithRetry(cfg, service);
      match AskPair(PairStepOf(s), reply, parse) {
        case Raised =>
          Raise(idx, base, o, cells, s);
          return true, cells;
        case Returned((ans, exp)) =>
          assert (cells + [ans, exp]) + CellsFrom(o, s + 1) == cells + CellsFrom(o, s);
          cells' := Append(StageStart(s), ans, base, cells);
          cells' := Append(StageStart(s) + 1, exp, base, cells');
          return false, cells';
      }
    }

    /** Step 9: `ask_expected_evidence`, which cannot raise, then the last append. */
    method EvidenceStep(cfg: RetryConfig, service: seq<Attempt>, ghost parse: string -> Option<Json>, ghost base: seq<seq<Json>>,
                        ghost o: seq<Shaped<seq<Json>>>, ghost cells: seq<Json>)
      requires Partial(base, o, cells, 8) && |service| >= cfg.maxRetries
      requires o[8] == Returned([JString(AskExpectedEvidence(CallSpec(cfg, service).result))])
      modifies this
      ensures lists == Extend(base, CellsFrom(o, 0))
    {
      var reply, attempts, waits := MakeLlmCallWithRetry(cfg, service);
      var evidence := AskExpectedEvidence(reply);
      ghost var done := Append(EvidenceIdx, JString(evidence), base, cells);
      assert done == CellsFrom(o, 0);
    }

    /** Steps 2 to 5: control objective, execution, type and frequency. */
    method DesignSteps(idx: nat, cfg: RetryConfig, services: seq<seq<Attempt>>, parse: string -> Option<Json>,
                       ghost base: seq<seq<Json>>, ghost o: seq<Shaped<seq<Json>>>, ghost cells: seq<Json>)
      returns (raised: bool, ghost cells': seq<Json>)
      requires Partial(base, o, cells, 1) && Fits(cfg, services)
      requires forall s :: 1 <= s < 8 ==> o[s] == Pair(AskPair(PairStepOf(s), CallSpec(cfg, services[s]).result, parse))
      requires forall k :: 0 <= k < ListCount ==> |base[k]| == idx
      modifies this
      ensures raised ==> lists == Extend(base, CellsFrom(o, 0))
      ensures !raised ==> Partial(base, o, cells', 5)
    {
      raised, cells' := PairStepRun(idx, 1, cfg, services[1], parse, base, o, cells);
      if !raised {
        raised, cells' := PairStepRun(idx, 2, cfg, services[2], parse, base, o, cells');
      }
      if !raised {
        raised, cells' := PairStepRun(idx, 3, cfg, services[3], parse, base, o, cells');
      }
      if !raised {
        raised, cells' := PairStepRun(idx, 4, cfg, services[4], parse, base, o, cells');
      }
    }

    /** Steps 6 to 8: system dependency, adaptability and the overall rating. */
    method ContextSteps(idx: nat, cfg: RetryConfig, services: seq<seq<Attempt>>, parse: string -> Option<Json>,
                        ghost base: seq<seq<Json>>, ghost o: seq<Shaped<seq<Json>>>, ghost cells: seq<Json>)
      returns (raised: bool, ghost cells': seq<Json>)
      requires Partial(base, o, cells, 5) && Fits(cfg, services)
      requires forall s :: 1 <= s < 8 ==> o[s] == Pair(AskPair(PairStepOf(s), CallSpec(cfg, services[s]).result, parse))
      requires forall k :: 0 <= k < ListCount ==> |base[k]| == idx
      modifies this
      ensures raised ==> lists == Extend(base, CellsFrom(o, 0))
      ensures !raised ==> Partial(base, o, cells', 8)
    {
      raised, cells' := PairStepRun(idx, 5, cfg, services[5], parse, base, o, cells);
      if !raised {
        raised, cells' := PairStepRun(idx, 6, cfg, services[6], parse, base, o, cells');
      }
      if !raised {
        raised, cells' := PairStepRun(idx, 7, cfg, services[7], parse, base, o, cells');
      }
    }

    /**
     * The `try` block for record `idx`, step by step; a step that raises
     * runs the `except` block and ends the record.
     */
    method ProcessRecord(idx: nat, cfg: RetryConfig, services: seq<seq<Attempt>>, parse: string -> Option<Json>)
      requires Fits(cfg, services) && Even(idx)
      modifies this
      ensures lists == Extend(old(lists), RecordCells(Replies(cfg, services), parse))
      ensures Even(idx + 1)
    {
      ghost var base := lists;
      ghost var o := Outcomes(Replies(cfg, services), parse);
      StageOutcomes(cfg, services, parse);
      assert forall j :: 0 <= j < |lists| ==> lists[j] == Extend(base, [])[j];
      RecordSteps(idx, cfg, services, parse, base, o);
      ExtendLengths(base, CellsFrom(o, 0), idx);
    }

    /** The steps of record `idx` from the first on, until one raises or all have run. */
    method RecordSteps(idx: nat, cfg: RetryConfig, services: seq<seq<Attempt>>, parse: string -> Option<Json>,
                       ghost base: seq<seq<Json>>, ghost o: seq<Shaped<seq<Json>>>)
      requires Partial(base, o, [], 0) && Fits(cfg, services)
      requires forall k :: 0 <= k < ListCount ==> |base[k]| == idx
      requires o[0] == CompletenessCells(AskCompleteness(CallSpec(cfg, services[0]).result, parse))
      requires forall s :: 1 <= s < 8 ==> o[s] == Pair(AskPair(PairStepOf(s), CallSpec(cfg, services[s]).result, parse))
      requires o[8] == Returned([JString(AskExpectedEvidence(CallSpec(cfg, services[8]).result))])
      modifies this
      ensures lists == Extend(base, CellsFrom(o, 0))
    {
      var raised, cells := CompletenessStep(idx, cfg, services[0], parse, base, o, []);
      if !raised {
        raised, cells := DesignSteps(idx, cfg, services, parse, base, o, cells);
      }
      if !raised {
        raised, cells := ContextSteps(idx, cfg, services, parse, base, o, cells);
      }
      if !raised {
        EvidenceStep(cfg, services[8], parse, base, o, cells);
      }
    }
  }

  /** The record loop of `process_controls`: one `ProcessRecord` per row, in order. */
  method AnalyseRecords(cfg: RetryConfig, records: seq<seq<seq<Attempt>>>, parse: string -> Option<Json>)
    returns (results: ResultLists)
    requires forall i :: 0 <= i < |records| ==> Fits(cfg, records[i])
    ensures fresh(results)
    ensures results.lists == Table(cfg, records, parse)
  {
    results := new ResultLists();
    var idx := 0;
    while idx < |records|
      invariant idx <= |records|
      invariant results.lists == Table(cfg, records[..idx], parse)
      invariant results.Even(idx)
    {
      results.ProcessRecord(idx, cfg, records[idx], parse);
      TableStep(cfg, records, parse, idx);
      idx := idx + 1;
    }
    assert records[..|records|] == records;
  }
}
