/**
 * The decisions of the demo launcher: the interpreter version gate, the
 * API-key check with its masking, and the classification of the answer
 * to the confirmation prompt.
 */
module Demo {
  import opened Wrappers
  import Text

  // ---------------------------------------------------------------------
  // Version gate
  // ---------------------------------------------------------------------

  /** Python's `<` on tuples of integers: the first difference decides, and a proper prefix is smaller. */
  function TupleLess(a: seq<int>, b: seq<int>): bool
    decreases |a|
  {
    if b == [] then false
    else if a == [] then true
    else if a[0] != b[0] then a[0] < b[0]
    else TupleLess(a[1..], b[1..])
  }

  /** The version the demo requires. */
  const MinimumVersion := [3, 8]

  /** `sys.version_info < (3, 8)` fails exactly the versions before 3.8, whatever follows the minor number. */
  lemma VersionGate(version: seq<int>)
    requires |version| >= 2
    ensures TupleLess(version, MinimumVersion) <==> version[0] < 3 || (version[0] == 3 && version[1] < 8)
  {
    var tail := version[1..];
    if version[0] == 3 {
      assert MinimumVersion[1..] == [8];
      assert TupleLess(version, MinimumVersion) == TupleLess(tail, [8]);
      assert tail[0] == version[1];
      if version[1] == 8 {
        assert [8][1..] == [];
        assert TupleLess(tail, [8]) == TupleLess(tail[1..], []);
      }
    }
  }

  /** The tuple order is a strict order: never `a < a`. */
  lemma {:induction false} TupleLessIrreflexive(a: seq<int>)
    ensures !TupleLess(a, a)
    decreases |a|
  {
    if a != [] {
      TupleLessIrreflexive(a[1..]);
    }
  }

  /** The tuple order is transitive. */
  lemma {:induction false} TupleLessTransitive(a: seq<int>, b: seq<int>, c: seq<int>)
    requires TupleLess(a, b) && TupleLess(b, c)
    ensures TupleLess(a, c)
    decreases |a|
  {
    if a != [] && a[0] == b[0] && b[0] == c[0] {
      TupleLessTransitive(a[1..], b[1..], c[1..]);
    }
  }

  /**
   * The gate is upward closed: the minimum version itself passes, and so
   * does every version later than one that passes.
   */
  lemma NewerVersionPasses(older: seq<int>, newer: seq<int>)
    requires !TupleLess(older, MinimumVersion) && TupleLess(older, newer)
    ensures !TupleLess(newer, MinimumVersion)
    ensures !TupleLess(MinimumVersion, MinimumVersion)
  {
    TupleLessIrreflexive(MinimumVersion);
    if TupleLess(newer, MinimumVersion) {
      TupleLessTransitive(older, newer, MinimumVersion);
    }
  }

  // ---------------------------------------------------------------------
  // The API key
  // ---------------------------------------------------------------------

  /** Line 75: the first seven and the last four characters of a long key, a placeholder for a short one. */
  function MaskKey(key: string): string {
    if |key| > 11 then key[..7] + "..." + key[|key| - 4..] else "***"
  }

  /** A long key shows its first seven and last four characters around three dots: fourteen in all. */
  lemma MaskShape(key: string)
    requires |key| > 11
    ensures |MaskKey(key)| == 14
    ensures MaskKey(key)[..7] == key[..7] && MaskKey(key)[7..10] == "..." && MaskKey(key)[10..] == key[|key| - 4..]
  {
  }

  /** The masked key depends only on the characters it shows: the middle of a long key never leaks. */
  lemma MaskHidesMiddle(k1: string, k2: string)
    requires |k1| > 11 && |k2| > 11
    requires k1[..7] == k2[..7] && k1[|k1| - 4..] == k2[|k2| - 4..]
    ensures MaskKey(k1) == MaskKey(k2)
  {
  }

  /** Every key of at most eleven characters is shown the same way. */
  lemma ShortKeysLookAlike(k1: string, k2: string)
    requires |k1| <= 11 && |k2| <= 11
    ensures MaskKey(k1) == MaskKey(k2) == "***"
  {
  }

  /** Where the key came from: the environment (shown masked), the prompt, or nowhere. */
  datatype KeySource = FromEnvironment(key: string, shown: string) | Entered(key: string) | Skipped

  /**
   * Lines 61-76: a set, non-empty `OPENAI_API_KEY` is used and shown
   * masked; otherwise the answer to the prompt, stripped, is used unless
   * it is empty. `entered` stands for that answer.
   */
  function ObtainKey(env: Option<string>, entered: string): KeySource {
    if env.None? || env.value == "" then
      var key := Text.Strip(entered);
      if key != "" then Entered(key) else Skipped
    else FromEnvironment(env.value, MaskKey(env.value))
  }

  /**
   * No key is obtained exactly when the environment has none and the
   * answer is blank; an obtained key is never empty.
   */
  lemma ObtainKeyEmpty(env: Option<string>, entered: string)
    ensures ObtainKey(env, entered).Skipped? <==> (env.None? || env.value == "") && Text.Strip(entered) == ""
    ensures !ObtainKey(env, entered).Skipped? ==> ObtainKey(env, entered).key != ""
    ensures ObtainKey(env, entered).Entered? ==> ObtainKey(env, entered).key == Text.Strip(ObtainKey(env, entered).key)
  {
    if ObtainKey(env, entered).Entered? {
      Text.StripIdempotent(entered);
    }
  }

  // ---------------------------------------------------------------------
  // The set-up
  // ---------------------------------------------------------------------

  /** What `setup_demo` ends with: ready, with a key, or the first check that failed. */
  datatype SetupResult = Ready(key: string) | VersionTooOld | PackagesMissing(names: seq<string>) | NoApiKey | NoSampleFile

  /**
   * Lines 29-92: the checks in order. `missing` is the list of required
   * packages whose import failed, and `sampleReady` whether the sample
   * file exists or could be created.
   */
  function SetupDemo(version: seq<int>, missing: seq<string>, env: Option<string>, entered: string, sampleReady: bool): SetupResult {
    if TupleLess(version, MinimumVersion) then VersionTooOld
    else if missing != [] then PackagesMissing(missing)
    else
      match ObtainKey(env, entered)
      case Skipped => NoApiKey
      case _ => if sampleReady then Ready(ObtainKey(env, entered).key) else NoSampleFile
  }

  /**
   * The set-up succeeds exactly when the version is at least 3.8, every
   * package imports, a non-empty key is found or entered, and the sample
   * file is there; the key is the one from the environment when it has one.
   */
  lemma SetupReady(version: seq<int>, missing: seq<string>, env: Option<string>, entered: string, sampleReady: bool)
    requires |version| >= 2
    ensures SetupDemo(version, missing, env, entered, sampleReady).Ready? <==>
      && !(version[0] < 3 || (version[0] == 3 && version[1] < 8))
      && missing == []
      && !((env.None? || env.value == "") && Text.Strip(entered) == "")
      && sampleReady
    ensures SetupDemo(version, missing, env, entered, sampleReady).Ready? ==>
      SetupDemo(version, missing, env, entered, sampleReady).key != ""
      && SetupDemo(version, missing, env, entered, sampleReady).key ==
         if env.Some? && env.value != "" then env.value else Text.Strip(entered)
  {
    VersionGate(version);
    ObtainKeyEmpty(env, entered);
  }

  /** Lines 66-73: with no key in the environment, a blank answer fails the set-up. */
  lemma EmptyKeyRejected(version: seq<int>, env: Option<string>, entered: string, sampleReady: bool)
    requires !TupleLess(version, MinimumVersion)
    requires env.None? || env.value == ""
    requires Text.Strip(entered) == ""
    ensures SetupDemo(version, [], env, entered, sampleReady) == NoApiKey
  {
  }

  // ---------------------------------------------------------------------
  // The confirmation prompt
  // ---------------------------------------------------------------------

  /** What one answer to "Proceed with AI analysis? (y/n)" leads to. */
  datatype Decision = Proceed | Cancel | Reprompt

  /** Lines 178-185: the answer is lower-cased and stripped, then looked up. */
  function ConfirmAnswer(response: string): Decision {
    var r := Text.Strip(Text.Lower(response));
    if r == "y" || r == "yes" then Proceed
    else if r == "n" || r == "no" then Cancel
    else Reprompt
  }

  /** Lower-casing twice is lower-casing once. */
  lemma LowerIdempotent(s: string)
    ensures Text.Lower(Text.Lower(s)) == Text.Lower(s)
  {
  }

  /** The answer is read without regard to letter case. */
  lemma ConfirmIgnoresCase(response: string)
    ensures ConfirmAnswer(Text.Lower(response)) == ConfirmAnswer(response)
  {
    LowerIdempotent(response);
  }

  /** Leading blanks make no difference to the answer. */
  lemma {:induction false} ConfirmIgnoresLeadingBlanks(pad: string, response: string)
    requires forall i :: 0 <= i < |pad| ==> Text.IsSpace(pad[i])
    ensures ConfirmAnswer(pad + response) == ConfirmAnswer(response)
    decreases |pad|
  {
    if pad != [] {
      ConfirmIgnoresLeadingBlanks(pad[1..], response);
      var s := pad + response;
      assert Text.Lower(s)[0] == pad[0];
      assert Text.Lower(s)[1..] == Text.Lower(pad[1..] + response);
    } else {
      assert pad + response == response;
    }
  }

  /** A shouted, padded yes proceeds. */
  lemma ShoutedYesProceeds()
    ensures ConfirmAnswer("  YES ") == Proceed
  {
    assert Text.Lower("  YES ") == "  yes ";
    assert Text.Strip("  yes ") == "yes";
  }

  /**
   * An answer that reads `y` or `yes` once lower-cased and stripped
   * proceeds, one that reads `n` or `no` cancels, and every other answer
   * asks again.
   */
  lemma ConfirmDecisive(response: string)
    ensures ConfirmAnswer(response) == Proceed <==> Text.Strip(Text.Lower(response)) in ["y", "yes"]
    ensures ConfirmAnswer(response) == Cancel <==> Text.Strip(Text.Lower(response)) in ["n", "no"]
    ensures ConfirmAnswer(response) != Reprompt <==> Text.Strip(Text.Lower(response)) in ["y", "yes", "n", "no"]
    ensures ConfirmAnswer("yes") == Proceed && ConfirmAnswer("no") == Cancel
  {
    assert Text.Lower("yes") == "yes";
    assert Text.Lower("no") == "no";
  }
}
