/**
 * What the nine `ask_*` functions do with the reply once the call returns:
 * the two guards (`if not raw_response`, `if not data`), their failure
 * markers, the `.get(key, "LLM error")` defaults and the bullet lists of
 * the completeness check.
 */
module Catalog {
  import opened Wrappers
  import Text
  import opened JsonValue
  import opened Extraction

  /** The text every failed answer carries. */
  const LlmError := "LLM error"

  /**
   * The value an `ask_*` function returns, or the exception it lets
   * through: `.get` and `.items` on a loaded value that is not a dict
   * raise, and only the record-level handler catches that.
   */
  datatype Shaped<T> = Returned(value: T) | Raised

  /** The six questions answered by an answer and an explanation. */
  datatype Question =
    | ControlObjective           // ask_control_objective
    | ExecutionAppropriateness   // ask_execution_appropriateness
    | TypeAdequacy               // ask_type_adequacy
    | FrequencyAppropriateness   // ask_frequency_appropriateness
    | Adaptability               // ask_adaptability
    | OverallRating              // ask_overall_rating

  /** The key the answer is read from; the explanation is always under "explanation". */
  function AnswerKey(q: Question): string {
    if q == OverallRating then "rating" else "answer"
  }

  /**
   * The loaded value when it gets past both guards: the reply is present
   * and non-empty, it parses, and the parsed value is truthy.
   */
  function Loaded(reply: Option<string>, parse: string -> Option<Json>): (r: Option<Json>)
    ensures r.Some? ==> Truthy(r.value)
  {
    if reply.None? || reply.value == "" then None
    else
      match ExtractJson(reply.value, parse)
      case None => None
      case Some(d) => if Truthy(d) then Some(d) else None
  }

  /** `data.get(key, "LLM error")`. */
  function Field(d: Json, key: string): Json
    requires d.JObject?
  {
    Get(d.entries, key, JString(LlmError))
  }

  /** The answer and explanation of one of the six questions. */
  function AskAnswer(q: Question, reply: Option<string>, parse: string -> Option<Json>): Shaped<(Json, Json)> {
    match Loaded(reply, parse)
    case None => Returned((JString(LlmError), JString(LlmError)))
    case Some(d) =>
      if d.JObject? then Returned((Field(d, AnswerKey(q)), Field(d, "explanation"))) else Raised
  }

  /** `ask_system_dependency`: the systems named, and an explanation that is always empty. */
  function AskSystemDependency(reply: Option<string>, parse: string -> Option<Json>): Shaped<(Json, Json)> {
    match Loaded(reply, parse)
    case None => Returned((JString(LlmError), JString("")))
    case Some(d) => if d.JObject? then Returned((Field(d, "systems"), JString(""))) else Raised
  }

  /** One `f"• {k}: {v}"` line. */
  function BulletLine(entry: (string, Json)): string {
    "• " + entry.0 + ": " + Str(entry.1)
  }

  function BulletLines(entries: seq<(string, Json)>): (r: seq<string>)
    ensures |r| == |entries|
    ensures forall i :: 0 <= i < |entries| ==> r[i] == BulletLine(entries[i])
  {
    seq(|entries|, i requires 0 <= i < |entries| => BulletLine(entries[i]))
  }

  /** `"\n".join(...)` over the items of a dict. */
  function Bullets(entries: seq<(string, Json)>): string {
    Text.Join("\n", BulletLines(entries))
  }

  /** Present, missing and suggested elements of the completeness check. */
  function AskCompleteness(reply: Option<string>, parse: string -> Option<Json>): Shaped<(string, string, string)> {
    match Loaded(reply, parse)
    case None => Returned(("", LlmError, ""))
    case Some(d) =>
      if !d.JObject? then Raised
      else
        var present := Get(d.entries, "present", JObject([]));
        var missing := Get(d.entries, "missing", JObject([]));
        var suggestions := Get(d.entries, "suggestions", JObject([]));
        if present.JObject? && missing.JObject? && suggestions.JObject? then
          Returned((Bullets(present.entries), Bullets(missing.entries), Bullets(suggestions.entries)))
        else Raised
  }

  /** `ask_expected_evidence`: the reply, stripped, or the error text. */
  function AskExpectedEvidence(reply: Option<string>): string {
    if reply.Some? && reply.value != "" then Text.Strip(reply.value) else LlmError
  }

  // ---------------------------------------------------------------------
  // What the shaping promises
  // ---------------------------------------------------------------------

  /** No usable data: the call failed, replied with nothing, did not parse, or parsed to a falsy value. */
  predicate NoData(reply: Option<string>, parse: string -> Option<Json>) {
    || reply.None? || reply.value == ""
    || ExtractJson(reply.value, parse).None?
    || !Truthy(ExtractJson(reply.value, parse).value)
  }

  /** Entry `i` is the first one with this key: the one `dict.get` finds. */
  predicate FirstWith(entries: seq<(string, Json)>, key: string, i: int) {
    0 <= i < |entries| && entries[i].0 == key && KeyAbsent(entries[..i], key)
  }

  /** The guards pass exactly when there is data, and then hand on the parsed value. */
  lemma LoadedIff(reply: Option<string>, parse: string -> Option<Json>)
    ensures Loaded(reply, parse).None? <==> NoData(reply, parse)
    ensures !NoData(reply, parse) ==> Loaded(reply, parse) == ExtractJson(reply.value, parse)
  {
  }

  /** Without data, every operation returns its own failure marker and nothing raises. */
  lemma NoDataGivesMarkers(reply: Option<string>, parse: string -> Option<Json>)
    requires NoData(reply, parse)
    ensures AskCompleteness(reply, parse) == Returned(("", LlmError, ""))
    ensures AskSystemDependency(reply, parse) == Returned((JString(LlmError), JString("")))
    ensures forall q :: AskAnswer(q, reply, parse) == Returned((JString(LlmError), JString(LlmError)))
  {
    LoadedIff(reply, parse);
  }

  /** A parsed value that is not a dict raises in every operation that reads fields, unless it is falsy. */
  lemma RaisedIff(q: Question, reply: Option<string>, parse: string -> Option<Json>)
    ensures AskAnswer(q, reply, parse).Raised? <==> !NoData(reply, parse) && !ExtractJson(reply.value, parse).value.JObject?
    ensures AskSystemDependency(reply, parse).Raised? <==> AskAnswer(q, reply, parse).Raised?
    ensures AskAnswer(q, reply, parse).Raised? ==> AskCompleteness(reply, parse).Raised?
  {
    LoadedIff(reply, parse);
  }

  /**
   * With a dict, the answer and the explanation are read independently: an
   * absent key gives "LLM error", a present one its first value.
   */
  lemma AnswerFields(q: Question, reply: Option<string>, parse: string -> Option<Json>, entries: seq<(string, Json)>)
    requires reply.Some? && reply.value != "" && entries != []
    requires ExtractJson(reply.value, parse) == Some(JObject(entries))
    ensures AskAnswer(q, reply, parse).Returned?
    ensures KeyAbsent(entries, AnswerKey(q)) ==> AskAnswer(q, reply, parse).value.0 == JString(LlmError)
    ensures KeyAbsent(entries, "explanation") ==> AskAnswer(q, reply, parse).value.1 == JString(LlmError)
    ensures forall i :: FirstWith(entries, AnswerKey(q), i) ==> AskAnswer(q, reply, parse).value.0 == entries[i].1
    ensures forall i :: FirstWith(entries, "explanation", i) ==> AskAnswer(q, reply, parse).value.1 == entries[i].1
  {
    LoadedIff(reply, parse);
    forall i | FirstWith(entries, AnswerKey(q), i)
      ensures forall j :: 0 <= j < i ==> entries[j].0 != AnswerKey(q)
    {
      assert forall j :: 0 <= j < i ==> entries[..i][j] == entries[j];
    }
    forall i | FirstWith(entries, "explanation", i)
      ensures forall j :: 0 <= j < i ==> entries[j].0 != "explanation"
    {
      assert forall j :: 0 <= j < i ==> entries[..i][j] == entries[j];
    }
  }

  /** The system-dependency explanation is always empty, whatever the reply. */
  lemma SystemDependencyExplanationEmpty(reply: Option<string>, parse: string -> Option<Json>)
    ensures AskSystemDependency(reply, parse).Returned? ==> AskSystemDependency(reply, parse).value.1 == JString("")
    ensures AskSystemDependency(reply, parse).Returned? ==>
      AskSystemDependency(reply, parse).value.0 == JString(LlmError)
      || (!NoData(reply, parse) && ExtractJson(reply.value, parse).value.JObject?
          && !KeyAbsent(ExtractJson(reply.value, parse).value.entries, "systems"))
  {
    LoadedIff(reply, parse);
  }

  /** A completeness section the reply leaves out is an empty bullet list, not an error. */
  lemma CompletenessSectionDefaults(reply: Option<string>, parse: string -> Option<Json>, entries: seq<(string, Json)>)
    requires reply.Some? && reply.value != "" && entries != []
    requires ExtractJson(reply.value, parse) == Some(JObject(entries))
    requires KeyAbsent(entries, "present") && KeyAbsent(entries, "missing") && KeyAbsent(entries, "suggestions")
    ensures AskCompleteness(reply, parse) == Returned(("", "", ""))
  {
    LoadedIff(reply, parse);
    assert Bullets([]) == "";
  }

  /**
   * A bullet list is one line per entry: splitting it at newlines gives the
   * bullet lines back when no key and no value holds a newline.
   */
  lemma BulletsLines(entries: seq<(string, Json)>)
    requires entries != []
    requires forall i :: 0 <= i < |entries| ==> '\n' !in entries[i].0 && '\n' !in Str(entries[i].1)
    ensures Text.Split(Bullets(entries), '\n') == BulletLines(entries)
    ensures |Text.Split(Bullets(entries), '\n')| == |entries|
  {
    var lines := BulletLines(entries);
    forall k | 0 <= k < |lines| ensures '\n' !in lines[k] {
      assert lines[k] == "• " + entries[k].0 + ": " + Str(entries[k].1);
    }
    Text.SplitJoin(lines, '\n');
  }

  /** Every bullet line starts with the bullet and holds a colon: the report rewrites each of them. */
  lemma BulletLineShape(entry: (string, Json))
    ensures BulletLine(entry)[0] == '•'
    ensures ':' in BulletLine(entry)
  {
    var line := BulletLine(entry);
    assert line[|entry.0| + 2] == ':';
  }

  /**
   * The evidence list of a successful call is the reply as the call
   * returned it: the call has already stripped it.
   */
  lemma EvidenceOfCallReply(content: string)
    requires Text.Strip(content) != ""
    ensures AskExpectedEvidence(Some(Text.Strip(content))) == Text.Strip(content)
  {
    Text.StripIdempotent(content);
  }

  /** The evidence is "LLM error" exactly when the call gave nothing. */
  lemma EvidenceError(reply: Option<string>)
    requires reply.None? || reply.value == Text.Strip(reply.value)
    ensures AskExpectedEvidence(reply) == LlmError <==> reply.None? || reply.value == "" || reply.value == LlmError
  {
  }
}
