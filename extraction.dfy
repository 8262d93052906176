/**
 * `extract_json_from_response`: drop a leading "json" tag, cut out the
 * text the greedy pattern `\{.*\}` (dot matching newlines) finds, and hand
 * it to the JSON parser, whose failure is a `None`.
 */
module Extraction {
  import opened Wrappers
  import Text
  import opened JsonValue

  /** The reply after the case-insensitive "json" tag is dropped (four characters, then `strip()`). */
  function Unprefixed(raw: string): string {
    if "json" <= Text.Lower(raw) then Text.Strip(raw[4..]) else raw
  }

  /** Some `{` comes before some `}`: the pattern has a match. */
  predicate HasBraceSpan(s: string) {
    exists i, j :: 0 <= i < j < |s| && s[i] == '{' && s[j] == '}'
  }

  /**
   * What `match.group(0) if match else raw_response` selects: the leftmost
   * match starts at the first `{` and, the star being greedy, ends at the
   * last `}`.
   */
  function Candidate(s: string): string {
    match (Text.IndexOf(s, '{'), Text.LastIndexOf(s, '}'))
    case (Some(i), Some(j)) => if i < j then s[i..j + 1] else s
    case _ => s
  }

  /**
   * The parsed reply. `parse` stands for `json.loads`; `None` is any
   * exception it raises, which the function turns into `None` as well.
   */
  function ExtractJson(raw: string, parse: string -> Option<Json>): Option<Json> {
    parse(Candidate(Unprefixed(raw)))
  }

  /** The pattern matches exactly when the first `{` precedes the last `}`. */
  lemma BraceSpanIff(s: string)
    ensures HasBraceSpan(s) <==>
      (Text.IndexOf(s, '{').Some? && Text.LastIndexOf(s, '}').Some?
       && Text.IndexOf(s, '{').value < Text.LastIndexOf(s, '}').value)
  {
    if HasBraceSpan(s) {
      var i, j :| 0 <= i < j < |s| && s[i] == '{' && s[j] == '}';
      var first := Text.IndexOf(s, '{');
      var last := Text.LastIndexOf(s, '}');
      assert first.Some?;
      assert last.Some?;
    }
  }

  /**
   * With a match, the candidate is the span from the first `{` to the last
   * `}`, both included.
   */
  lemma CandidateSpan(s: string) returns (i: nat, j: nat)
    requires HasBraceSpan(s)
    ensures i < j < |s| && Candidate(s) == s[i..j + 1]
    ensures s[i] == '{' && '{' !in s[..i]
    ensures s[j] == '}' && '}' !in s[j + 1..]
  {
    BraceSpanIff(s);
    i, j := Text.IndexOf(s, '{').value, Text.LastIndexOf(s, '}').value;
  }

  /** Without a match, the whole text goes to the parser. */
  lemma CandidateWithoutSpan(s: string)
    requires !HasBraceSpan(s)
    ensures Candidate(s) == s
  {
    BraceSpanIff(s);
  }

  /** A text that already begins with `{` and ends with `}` is its own candidate. */
  lemma BracedTextUnchanged(s: string)
    requires |s| >= 2 && s[0] == '{' && s[|s| - 1] == '}'
    ensures Candidate(s) == s
  {
    assert HasBraceSpan(s) by {
      assert 0 < |s| - 1;
    }
    var i, j := CandidateSpan(s);
    assert s[0..|s|] == s;
  }

  /** Selecting the candidate twice changes nothing. */
  lemma CandidateIdempotent(s: string)
    ensures Candidate(Candidate(s)) == Candidate(s)
  {
    if HasBraceSpan(s) {
      var i, j := CandidateSpan(s);
      var c := s[i..j + 1];
      assert c[0] == s[i] && c[|c| - 1] == s[j];
      BracedTextUnchanged(c);
    } else {
      CandidateWithoutSpan(s);
    }
  }

  /** A reply tagged "json" in any letter case loses the tag and the blanks after it. */
  lemma TaggedReplyUnprefixed(tag: string, rest: string)
    requires |tag| == 4 && Text.Lower(tag) == "json"
    ensures Unprefixed(tag + rest) == Text.Strip(rest)
  {
    var raw := tag + rest;
    Text.LowerSlice(raw, 0, 4);
    assert raw[..4] == tag;
    assert Text.Lower(raw)[..4] == "json";
    assert raw[4..] == rest;
  }

  /** A reply that opens with `{` is never treated as tagged. */
  lemma BraceFirstNotTagged(raw: string)
    requires |raw| > 0 && raw[0] == '{'
    ensures Unprefixed(raw) == raw
  {
    assert Text.Lower(raw)[0] == '{';
  }

  /**
   * `extract_json_from_response` parses exactly the brace span of the
   * untagged reply (from its first `{` to its last `}`), or the whole
   * untagged reply when there is none.
   */
  lemma ExtractJsonParses(raw: string, parse: string -> Option<Json>)
    ensures !HasBraceSpan(Unprefixed(raw)) ==> ExtractJson(raw, parse) == parse(Unprefixed(raw))
    ensures HasBraceSpan(Unprefixed(raw)) ==>
      exists i, j :: 0 <= i < j < |Unprefixed(raw)|
        && Unprefixed(raw)[i] == '{' && '{' !in Unprefixed(raw)[..i]
        && Unprefixed(raw)[j] == '}' && '}' !in Unprefixed(raw)[j + 1..]
        && ExtractJson(raw, parse) == parse(Unprefixed(raw)[i..j + 1])
  {
    var u := Unprefixed(raw);
    if HasBraceSpan(u) {
      var i, j := CandidateSpan(u);
      assert ExtractJson(raw, parse) == parse(u[i..j + 1]);
    } else {
      CandidateWithoutSpan(u);
    }
  }
}
