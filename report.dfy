/**
 * The text rules of `save_results_to_excel`: the rewriting of the
 * "Present & Missing" cells into marked-up lines, the choice of a red
 * font, and the automatic column width.
 */
module Report {
  import opened Wrappers
  import Text
  import opened JsonValue
  import Processor
  import Assembly

  const PresentHeading := "Present:"
  const MissingHeading := "Missing:"

  /** The two fonts a rewritten cell can get: bold, or bold in red (`FF0000`). */
  datatype Font = Bold | BoldRed

  /** `cell.value or ""` for a cell of the pair column. */
  function CellText(value: Option<string>): string {
    if value.Some? then value.value else ""
  }

  /** Python's `line[n:]`: what follows the first `n` characters, if any. */
  function From(line: string, n: nat): string {
    if |line| <= n then "" else line[n..]
  }

  /** The stripped line starts with one of the two section headings. */
  predicate Heading(line: string) {
    PresentHeading <= Text.Strip(line) || MissingHeading <= Text.Strip(line)
  }

  /** A bullet line that holds a colon: its element name gets marked. */
  predicate ColonBullet(line: string) {
    && !Heading(line)
    && |Text.Strip(line)| > 0 && Text.Strip(line)[0] == '•'
    && ':' in line
  }

  /**
   * One line marked up: a heading is made bold, a bullet with a colon has
   * its element name (the stripped text before the first colon) made bold
   * or, when `red`, wrapped in red markers; any other line is kept.
   */
  function MarkLine(line: string, red: bool): string {
    var s := Text.Strip(line);
    if PresentHeading <= s then "**Present:**" + From(line, |PresentHeading|)
    else if MissingHeading <= s then "**Missing:**" + From(line, |MissingHeading|)
    else if |s| > 0 && s[0] == '•' then
      match Text.IndexOf(line, ':')
      case None => line
      case Some(k) =>
        var elem := Text.Strip(line[..k]);
        if red then "[RED]" + elem + ":[/RED]" + line[k + 1..] else "**" + elem + ":**" + line[k + 1..]
    else line
  }

  /**
   * `any("Missing" in l for l in new_lines[-2:])`: the last or the
   * last-but-one emitted line mentions "Missing".
   */
  predicate AfterMissing(emitted: seq<string>) {
    || (|emitted| >= 1 && Text.Contains(emitted[|emitted| - 1], "Missing"))
    || (|emitted| >= 2 && Text.Contains(emitted[|emitted| - 2], "Missing"))
  }

  /** The rewrite of one line, once the lines before it have been emitted. */
  function RewriteLine(line: string, emitted: seq<string>): string {
    MarkLine(line, AfterMissing(emitted))
  }

  /**
   * The lines of an online rewrite: each line is rewritten by `step` in
   * view of the lines already emitted before it.
   */
  function Emitted(step: (string, seq<string>) -> string, lines: seq<string>): (r: seq<string>)
    ensures |r| == |lines|
    decreases |lines|
  {
    if lines == [] then []
    else
      var emitted := Emitted(step, lines[..|lines| - 1]);
      emitted + [step(lines[|lines| - 1], emitted)]
  }

  /** The rewritten lines of a cell, emitted one after the other. */
  function Rewritten(lines: seq<string>): seq<string> {
    Emitted(RewriteLine, lines)
  }

  /** The rewritten lines of a cell value split at its newlines. */
  function CellLines(value: Option<string>): seq<string> {
    Rewritten(Text.Split(CellText(value), '\n'))
  }

  /** Some line carries the red marker. */
  predicate HasRedMarker(lines: seq<string>) {
    exists l :: l in lines && Text.Contains(l, "[RED]")
  }

  /** A cell and its font after the rewrite, given the value it held before. */
  predicate FormattedCell(before: Option<string>, after: Option<string>, font: Font) {
    && after == Some(Text.Join("\n", CellLines(before)))
    && (font == BoldRed <==> HasRedMarker(CellLines(before)))
  }

  /**
   * Lines 710-740: one cell of the pair column is rewritten line by line,
   * each decision reading the lines already emitted, and is red exactly
   * when some emitted line carries the red marker.
   */
  method FormatPresentMissingCell(value: Option<string>) returns (text: string, font: Font)
    ensures FormattedCell(value, Some(text), font)
  {
    var lines := Text.Split(CellText(value), '\n');
    var newLines: seq<string> := [];
    var i := 0;
    while i < |lines|
      invariant i <= |lines|
      invariant newLines == Rewritten(lines[..i])
    {
      assert lines[..i + 1][..i] == lines[..i];
      newLines := newLines + [RewriteLine(lines[i], newLines)];
      i := i + 1;
    }
    assert lines[..|lines|] == lines;
    text := Text.Join("\n", newLines);
    if exists l :: l in newLines && Text.Contains(l, "[RED]") {
      font := BoldRed;
    } else {
      font := Bold;
    }
  }

  /**
   * Lines 702-706: the column is the first whose header in the third row
   * is the documented-header name; 1-based, as `enumerate(ws[3], 1)` counts.
   */
  method FindColumn(headers: seq<Option<string>>, name: string) returns (found: Option<nat>)
    ensures found.None? ==> forall i :: 0 <= i < |headers| ==> headers[i] != Some(name)
    ensures found.Some? ==> 1 <= found.value <= |headers| && headers[found.value - 1] == Some(name)
    ensures found.Some? ==> forall i :: 0 <= i < found.value - 1 ==> headers[i] != Some(name)
  {
    found := None;
    var i := 0;
    while i < |headers|
      invariant i <= |headers|
      invariant forall j :: 0 <= j < i ==> headers[j] != Some(name)
    {
      if headers[i] == Some(name) {
        found := Some(i + 1);
        return;
      }
      i := i + 1;
    }
  }

  // ---------------------------------------------------------------------
  // The sheet layout and the header lookup
  // ---------------------------------------------------------------------

  /** A worksheet as far as the header lookups read it: its rows, top first, each cell's text or nothing. */
  type Sheet = seq<seq<Option<string>>>

  /** A row nothing was written to, as `ws[r]` shows it: `width` empty cells. */
  function EmptyRow(width: nat): seq<Option<string>> {
    seq(width, _ => None)
  }

  /** The header cells `to_excel` writes, one per column name. */
  function HeaderCells(header: seq<string>): (r: seq<Option<string>>)
    ensures |r| == |header| && forall i :: 0 <= i < |header| ==> r[i] == Some(header[i])
  {
    seq(|header|, i requires 0 <= i < |header| => Some(header[i]))
  }

  /** Line 664: `startrow=2` leaves two rows empty above the header. */
  const StartRow := 2

  /**
   * What line 664 writes, as far as the header rows go: two empty rows and
   * then the header (the data rows below it are not read by the lookups).
   */
  function WrittenSheet(header: seq<string>): Sheet {
    seq(StartRow, _ => EmptyRow(|header|)) + [HeaderCells(header)]
  }

  /** `ws.insert_rows(at, amount)`: `amount` empty rows before row `at`, the rows from `at` on moved down. */
  function InsertRows(sheet: Sheet, at: nat, amount: nat, width: nat): Sheet
    requires 1 <= at <= |sheet| + 1
  {
    sheet[..at - 1] + seq(amount, _ => EmptyRow(width)) + sheet[at - 1..]
  }

  /** `ws[r]`, counting rows from 1. */
  function SheetRow(sheet: Sheet, r: nat): seq<Option<string>>
    requires 1 <= r <= |sheet|
  {
    sheet[r - 1]
  }

  /** The sheet as lines 664-670 leave it: written, then two rows inserted at the top. */
  function LaidOut(header: seq<string>): Sheet {
    InsertRows(WrittenSheet(header), 1, 2, |header|)
  }

  /** The row lines 684 and 701 scan for column names. */
  const ScannedRow := 3

  /** The row the header ends up in: below the two rows of `startrow` and the two inserted ones. */
  const HeaderRow := StartRow + 3

  /** After the insertion, the header is in row 5 and the scanned row 3 is empty. */
  lemma HeaderRowMoved(header: seq<string>)
    ensures |LaidOut(header)| == HeaderRow
    ensures SheetRow(LaidOut(header), HeaderRow) == HeaderCells(header)
    ensures SheetRow(LaidOut(header), ScannedRow) == EmptyRow(|header|)
  {
    var w := WrittenSheet(header);
    assert LaidOut(header) == seq(2, _ => EmptyRow(|header|)) + w;
  }

  /**
   * Lines 699-705 as written: the documented-header column is looked for
   * in row 3 of the laid-out sheet, and is not found, whatever the header.
   */
  method LocatePairColumn(header: seq<string>) returns (found: Option<nat>)
    ensures found == None
  {
    HeaderRowMoved(header);
    found := FindColumn(SheetRow(LaidOut(header), ScannedRow), Assembly.DocumentedHeader);
  }

  /**
   * The lookup in the row that holds the header: it finds the first column
   * with the documented-header name, and finds none exactly when there is none.
   */
  method LocatePairColumnInHeaderRow(header: seq<string>) returns (found: Option<nat>)
    ensures found.None? <==> Assembly.DocumentedHeader !in header
    ensures found.Some? ==> 1 <= found.value <= |header| && header[found.value - 1] == Assembly.DocumentedHeader
    ensures found.Some? ==> Assembly.DocumentedHeader !in header[..found.value - 1]
  {
    HeaderRowMoved(header);
    found := FindColumn(SheetRow(LaidOut(header), HeaderRow), Assembly.DocumentedHeader);
    if found.None? {
      assert forall i :: 0 <= i < |header| ==> header[i] != Assembly.DocumentedHeader;
    } else {
      assert forall i :: 0 <= i < found.value - 1 ==> header[..found.value - 1][i] == header[i];
    }
  }

  /** The header `to_excel` writes for a frame: its column names, in order. */
  function HeaderOf(columns: seq<Assembly.Column>): (r: seq<string>)
    ensures |r| == |columns| && forall i :: 0 <= i < |columns| ==> r[i] == columns[i].name
  {
    seq(|columns|, i requires 0 <= i < |columns| => columns[i].name)
  }

  /** The assembled frame always has the documented-header column, so the lookup in the header row finds it. */
  lemma AssembledHeaderNamed(columns: seq<Assembly.Column>, lists: seq<seq<Json>>)
    requires |lists| == Processor.ListCount
    ensures Assembly.DocumentedHeader in HeaderOf(Assembly.Assembled(columns, lists))
  {
    Assembly.AnalysisTableGood();
    Assembly.WrittenColumnsPresent(columns, lists, Assembly.AnalysisColumns);
    var out := Assembly.Assembled(columns, lists);
    var c := Assembly.Column(Assembly.DocumentedHeader, lists[Processor.PresentMissingIdx]);
    assert c in out;
    var i :| 0 <= i < |out| && out[i] == c;
    assert HeaderOf(out)[i] == Assembly.DocumentedHeader;
  }

  // ---------------------------------------------------------------------
  // What the rewriting promises
  // ---------------------------------------------------------------------

  /** The rewrite is made online: the first `k` emitted lines depend only on the first `k` lines. */
  lemma {:induction false} EmittedPrefix(step: (string, seq<string>) -> string, lines: seq<string>, k: nat)
    requires k <= |lines|
    ensures Emitted(step, lines[..k]) == Emitted(step, lines)[..k]
    decreases |lines|
  {
    if k < |lines| {
      var front := lines[..|lines| - 1];
      assert front[..k] == lines[..k];
      EmittedPrefix(step, front, k);
    } else {
      assert lines[..k] == lines;
    }
  }

  /** Line `i` is rewritten in view of the `i` lines emitted before it. */
  lemma EmittedAt(step: (string, seq<string>) -> string, lines: seq<string>, i: nat)
    requires i < |lines|
    ensures Emitted(step, lines)[i] == step(lines[i], Emitted(step, lines)[..i])
  {
    var upto := lines[..i + 1];
    assert upto[..i] == lines[..i] && upto[i] == lines[i];
    var front := Emitted(step, lines[..i]);
    assert Emitted(step, upto) == front + [step(lines[i], front)];
    EmittedPrefix(step, lines, i + 1);
    EmittedPrefix(step, lines, i);
    LastOfAppend(front, step(lines[i], front), Emitted(step, lines)[..i + 1]);
  }

  lemma LastOfAppend(front: seq<string>, x: string, whole: seq<string>)
    requires whole == front + [x]
    ensures whole[|front|] == x
  {
  }

  lemma RewrittenAt(lines: seq<string>, i: nat)
    requires i < |lines|
    ensures Rewritten(lines)[i] == MarkLine(lines[i], AfterMissing(Rewritten(lines)[..i]))
  {
    EmittedAt(RewriteLine, lines, i);
  }

  /**
   * A character of a marked-up line comes from the line, from the bold
   * markup, from a heading, or, on a red bullet only, from the red markers.
   */
  lemma MarkLineChars(line: string, red: bool, c: char)
    requires c in MarkLine(line, red)
    ensures || c in line || c in "*:"
            || (Heading(line) && c in "PresntMig")
            || (red && ColonBullet(line) && c in "[RED]/")
  {
    var s := Text.Strip(line);
    if PresentHeading <= s {
      FromChars(line, |PresentHeading|, "**Present:**", c);
    } else if MissingHeading <= s {
      FromChars(line, |MissingHeading|, "**Missing:**", c);
    } else if |s| > 0 && s[0] == '•' {
      match Text.IndexOf(line, ':')
      case None =>
      case Some(k) => BulletChars(line, k, red, c);
    }
  }

  /** A character of a heading's markup followed by the rest of the line. */
  lemma FromChars(line: string, n: nat, markup: string, c: char)
    requires c in markup + From(line, n)
    ensures c in markup || c in line
  {
    if c !in markup {
      assert c in From(line, n);
    }
  }

  /** A character of a marked-up bullet whose first colon is at `k`. */
  lemma BulletChars(line: string, k: nat, red: bool, c: char)
    requires k < |line|
    requires red ==> c in "[RED]" + Text.Strip(line[..k]) + ":[/RED]" + line[k + 1..]
    requires !red ==> c in "**" + Text.Strip(line[..k]) + ":**" + line[k + 1..]
    ensures c in line || c in "*:" || (red && c in "[RED]/")
  {
    var i, j := Text.StripSlice(line[..k]);
    if c in Text.Strip(line[..k]) {
      assert c in line[..k];
    } else if c in line[k + 1..] {
      assert c in line;
    }
  }

  /** A line with no newline is rewritten into a line with no newline. */
  lemma {:induction false} RewrittenNoNewline(lines: seq<string>)
    requires forall k :: 0 <= k < |lines| ==> '\n' !in lines[k]
    ensures forall k :: 0 <= k < |lines| ==> '\n' !in Rewritten(lines)[k]
    decreases |lines|
  {
    if lines != [] {
      var m := |lines| - 1;
      RewrittenNoNewline(lines[..m]);
      var emitted := Rewritten(lines[..m]);
      if '\n' in RewriteLine(lines[m], emitted) {
        MarkLineChars(lines[m], AfterMissing(emitted), '\n');
        assert false;
      }
    }
  }

  /**
   * The rewritten cell has one line per line of the original: splitting
   * the new text at its newlines gives exactly the rewritten lines, as many
   * as the value had.
   */
  lemma LineCountPreserved(value: Option<string>)
    ensures Text.Split(Text.Join("\n", CellLines(value)), '\n') == CellLines(value)
    ensures |CellLines(value)| == |Text.Split(CellText(value), '\n')|
  {
    var lines := Text.Split(CellText(value), '\n');
    RewrittenNoNewline(lines);
    Text.SplitJoin(Rewritten(lines), '\n');
  }

  /**
   * For a line free of `[`, the marked-up line carries the red marker
   * exactly when the line is a bullet with a colon marked red.
   */
  lemma MarkLineRed(line: string, red: bool)
    requires '[' !in line
    ensures Text.Contains(MarkLine(line, red), "[RED]") <==> red && ColonBullet(line)
  {
    var r := MarkLine(line, red);
    if red && ColonBullet(line) {
      var k := Text.IndexOf(line, ':').value;
      assert r == "[RED]" + Text.Strip(line[..k]) + ":[/RED]" + line[k + 1..];
      assert "[RED]" <= r;
    } else if '[' in r {
      MarkLineChars(line, red, '[');
      assert false;
    } else {
      Text.MissingChar(r, "[RED]", '[');
    }
  }

  /** On a line free of `[`, rewritten line `i` is red exactly when it is a bullet after a "Missing" line. */
  lemma RedAt(lines: seq<string>, i: nat)
    requires i < |lines| && '[' !in lines[i]
    ensures Text.Contains(Rewritten(lines)[i], "[RED]") <==> ColonBullet(lines[i]) && AfterMissing(Rewritten(lines)[..i])
  {
    RewrittenAt(lines, i);
    MarkLineRed(lines[i], AfterMissing(Rewritten(lines)[..i]));
  }

  /**
   * On cells free of `[`, a cell is coloured red exactly when some bullet
   * with a colon follows, within its two preceding emitted lines, a line
   * mentioning "Missing".
   */
  lemma RedIff(lines: seq<string>)
    requires forall k :: 0 <= k < |lines| ==> '[' !in lines[k]
    ensures HasRedMarker(Rewritten(lines)) <==>
      exists i :: 0 <= i < |lines| && ColonBullet(lines[i]) && AfterMissing(Rewritten(lines)[..i])
  {
    if HasRedMarker(Rewritten(lines)) {
      var i := RedLine(lines);
    }
    if exists i :: 0 <= i < |lines| && ColonBullet(lines[i]) && AfterMissing(Rewritten(lines)[..i]) {
      var i :| 0 <= i < |lines| && ColonBullet(lines[i]) && AfterMissing(Rewritten(lines)[..i]);
      RedFromBullet(lines, i);
    }
  }

  /** A red marker in the rewritten cell comes from a bullet after a "Missing" line. */
  lemma RedLine(lines: seq<string>) returns (i: nat)
    requires forall k :: 0 <= k < |lines| ==> '[' !in lines[k]
    requires HasRedMarker(Rewritten(lines))
    ensures i < |lines| && ColonBullet(lines[i]) && AfterMissing(Rewritten(lines)[..i])
  {
    var r := Rewritten(lines);
    var l :| l in r && Text.Contains(l, "[RED]");
    i :| 0 <= i < |r| && r[i] == l;
    RedAt(lines, i);
  }

  /** A bullet after a "Missing" line puts a red marker in the rewritten cell. */
  lemma RedFromBullet(lines: seq<string>, i: nat)
    requires i < |lines| && '[' !in lines[i]
    requires ColonBullet(lines[i]) && AfterMissing(Rewritten(lines)[..i])
    ensures HasRedMarker(Rewritten(lines))
  {
    RedAt(lines, i);
    assert Rewritten(lines)[i] in Rewritten(lines);
  }

  // ---------------------------------------------------------------------
  // The section a bullet belongs to
  // ---------------------------------------------------------------------

  /** The lines of a pair cell: `"Present:\n" + pres + "\n\nMissing:\n" + miss` split at its newlines. */
  predicate PairCellLines(lines: seq<string>, ps: seq<string>, ms: seq<string>) {
    && lines == [PresentHeading] + ps + ["", MissingHeading] + ms
    && (forall k :: 0 <= k < |ps| ==> !Heading(ps[k]))
    && (forall k :: 0 <= k < |ms| ==> !Heading(ms[k]))
  }

  /** The nearest heading among the lines before is the missing one. */
  function InMissingSection(before: seq<string>): bool
    decreases |before|
  {
    if before == [] then false
    else
      var l := before[|before| - 1];
      if PresentHeading <= Text.Strip(l) then false
      else if MissingHeading <= Text.Strip(l) then true
      else InMissingSection(before[..|before| - 1])
  }

  /**
   * The intended rewrite: a bullet is coloured red when it lies in the
   * missing section, however many bullets come before it there.
   */
  function SectionRewritten(lines: seq<string>): (r: seq<string>)
    ensures |r| == |lines|
  {
    seq(|lines|, i requires 0 <= i < |lines| => MarkLine(lines[i], InMissingSection(lines[..i])))
  }

  lemma {:induction false} NoHeadingTail(a: seq<string>, b: seq<string>)
    requires forall k :: 0 <= k < |b| ==> !Heading(b[k])
    ensures InMissingSection(a + b) == InMissingSection(a)
    decreases |b|
  {
    if b != [] {
      var m := |b| - 1;
      assert (a + b)[..|a + b| - 1] == a + b[..m];
      assert (a + b)[|a + b| - 1] == b[m];
      NoHeadingTail(a, b[..m]);
    } else {
      assert a + b == a;
    }
  }

  lemma HeadingsStrip()
    ensures Text.Strip(PresentHeading) == PresentHeading
    ensures Text.Strip(MissingHeading) == MissingHeading
    ensures Text.Strip("") == ""
  {
  }

  /** A red bullet starts with the red marker, a bold one with the bold markup. */
  lemma MarkedBullet(line: string, red: bool)
    requires ColonBullet(line)
    ensures red ==> "[RED]" <= MarkLine(line, red)
    ensures !red ==> "**" <= MarkLine(line, red)
  {
  }

  /** Before a line of the present section, the nearest heading is the present one. */
  lemma PresentSectionOpen(lines: seq<string>, ps: seq<string>, ms: seq<string>, j: nat)
    requires PairCellLines(lines, ps, ms) && j < |ps|
    ensures !InMissingSection(lines[..1 + j]) && lines[1 + j] == ps[j]
  {
    HeadingsStrip();
    assert lines[..1 + j] == [PresentHeading] + ps[..j];
    NoHeadingTail([PresentHeading], ps[..j]);
  }

  /** Before a line of the missing section, the nearest heading is the missing one. */
  lemma MissingSectionOpen(lines: seq<string>, ps: seq<string>, ms: seq<string>, j: nat)
    requires PairCellLines(lines, ps, ms) && j < |ms|
    ensures InMissingSection(lines[..|ps| + 3 + j]) && lines[|ps| + 3 + j] == ms[j]
  {
    HeadingsStrip();
    var head := [PresentHeading] + ps + ["", MissingHeading];
    assert head[|head| - 1] == MissingHeading;
    assert InMissingSection(head);
    assert lines[..|ps| + 3 + j] == head + ms[..j];
    NoHeadingTail(head, ms[..j]);
  }

  /** A bullet in the missing section is coloured red. */
  lemma RedInSection(lines: seq<string>, k: nat, line: string)
    requires k < |lines| && lines[k] == line && ColonBullet(line) && InMissingSection(lines[..k])
    ensures "[RED]" <= SectionRewritten(lines)[k]
  {
    MarkedBullet(line, true);
  }

  /** A bullet outside the missing section is made bold. */
  lemma BoldInSection(lines: seq<string>, k: nat, line: string)
    requires k < |lines| && lines[k] == line && ColonBullet(line) && !InMissingSection(lines[..k])
    ensures "**" <= SectionRewritten(lines)[k]
  {
    MarkedBullet(line, false);
  }

  lemma PresentBulletBold(lines: seq<string>, ps: seq<string>, ms: seq<string>, j: nat)
    requires PairCellLines(lines, ps, ms) && j < |ps| && ColonBullet(ps[j])
    ensures "**" <= SectionRewritten(lines)[1 + j]
  {
    PresentSectionOpen(lines, ps, ms, j);
    BoldInSection(lines, 1 + j, ps[j]);
  }

  lemma MissingBulletRed(lines: seq<string>, ps: seq<string>, ms: seq<string>, j: nat)
    requires PairCellLines(lines, ps, ms) && j < |ms| && ColonBullet(ms[j])
    ensures "[RED]" <= SectionRewritten(lines)[|ps| + 3 + j]
  {
    MissingSectionOpen(lines, ps, ms, j);
    RedInSection(lines, |ps| + 3 + j, ms[j]);
  }

  /**
   * With the intended rewrite, every bullet of the missing section is
   * red and every bullet of the present section is bold.
   */
  lemma SectionColours(lines: seq<string>, ps: seq<string>, ms: seq<string>)
    requires PairCellLines(lines, ps, ms)
    ensures forall j :: 0 <= j < |ps| && ColonBullet(ps[j]) ==> "**" <= SectionRewritten(lines)[1 + j]
    ensures forall j :: 0 <= j < |ms| && ColonBullet(ms[j]) ==> "[RED]" <= SectionRewritten(lines)[|ps| + 3 + j]
  {
    forall j | 0 <= j < |ps| && ColonBullet(ps[j]) ensures "**" <= SectionRewritten(lines)[1 + j] {
      PresentBulletBold(lines, ps, ms, j);
    }
    forall j | 0 <= j < |ms| && ColonBullet(ms[j]) ensures "[RED]" <= SectionRewritten(lines)[|ps| + 3 + j] {
      MissingBulletRed(lines, ps, ms, j);
    }
  }

  /** A marked-up line that is no heading mentions "Missing" only if the line has an `M`. */
  lemma NoMissingLine(line: string, red: bool)
    requires !Heading(line) && 'M' !in line
    ensures !Text.Contains(MarkLine(line, red), "Missing")
  {
    if 'M' in MarkLine(line, red) {
      MarkLineChars(line, red, 'M');
      assert false;
    }
    Text.MissingChar(MarkLine(line, red), "Missing", 'M');
  }

  /**
   * As written, the colour of a bullet comes from the two lines emitted
   * before it: after two lines that are no headings and have no `M`, a
   * bullet is bold and carries no red marker, even in the missing section.
   */
  lemma BulletAfterTwoPlainLines(lines: seq<string>, n: nat)
    requires n + 2 < |lines|
    requires !Heading(lines[n]) && 'M' !in lines[n] && !Heading(lines[n + 1]) && 'M' !in lines[n + 1]
    requires ColonBullet(lines[n + 2]) && '[' !in lines[n + 2]
    ensures "**" <= Rewritten(lines)[n + 2]
    ensures !Text.Contains(Rewritten(lines)[n + 2], "[RED]")
  {
    RewrittenAt(lines, n);
    NoMissingLine(lines[n], AfterMissing(Rewritten(lines)[..n]));
    RewrittenAt(lines, n + 1);
    NoMissingLine(lines[n + 1], AfterMissing(Rewritten(lines)[..n + 1]));
    RewrittenAt(lines, n + 2);
    BulletAfterQuiet(Rewritten(lines), lines[n + 2], n);
  }

  /** A bullet emitted after two lines without "Missing" is bold and carries no red marker. */
  lemma BulletAfterQuiet(emitted: seq<string>, line: string, n: nat)
    requires n + 2 < |emitted|
    requires !Text.Contains(emitted[n], "Missing") && !Text.Contains(emitted[n + 1], "Missing")
    requires emitted[n + 2] == MarkLine(line, AfterMissing(emitted[..n + 2]))
    requires ColonBullet(line) && '[' !in line
    ensures "**" <= emitted[n + 2]
    ensures !Text.Contains(emitted[n + 2], "[RED]")
  {
    assert !AfterMissing(emitted[..n + 2]);
    MarkedBullet(line, false);
    MarkLineRed(line, false);
  }

  /**
   * So in a pair cell whose first two missing bullets do not mention
   * "Missing", the third missing bullet is bold, not red.
   */
  lemma ThirdMissingBulletBold(lines: seq<string>, ps: seq<string>, ms: seq<string>)
    requires PairCellLines(lines, ps, ms) && |ms| >= 3
    requires 'M' !in ms[0] && 'M' !in ms[1]
    requires ColonBullet(ms[2]) && '[' !in ms[2]
    ensures "**" <= Rewritten(lines)[|ps| + 5]
    ensures !Text.Contains(Rewritten(lines)[|ps| + 5], "[RED]")
  {
    var n := |ps| + 3;
    assert lines[n] == ms[0] && lines[n + 1] == ms[1] && lines[n + 2] == ms[2];
    BulletAfterTwoPlainLines(lines, n);
  }

  /** The lines of the pair cell with no present elements and missing elements `a`, `b` and `c`. */
  const ExampleCell := ["Present:", "", "", "Missing:", "• a: x", "• b: y", "• c: z"]

  /** The example's lines after the first heading, none of which is a heading. */
  lemma ExampleLines()
    ensures PairCellLines(ExampleCell, [""], ["• a: x", "• b: y", "• c: z"])
    ensures ColonBullet("• c: z") && '[' !in "• c: z"
  {
    HeadingsStrip();
    assert Text.Strip("• a: x") == "• a: x";
    assert Text.Strip("• b: y") == "• b: y";
    assert Text.Strip("• c: z") == "• c: z";
  }

  /**
   * In the pair cell with no present elements and three missing ones, the
   * third missing bullet is bold as written, and red with the section-aware
   * rewrite.
   */
  lemma ThirdMissingBulletNotRed()
    ensures !Text.Contains(Rewritten(ExampleCell)[6], "[RED]")
    ensures "[RED]" <= SectionRewritten(ExampleCell)[6]
  {
    ExampleLines();
    var ms := ["• a: x", "• b: y", "• c: z"];
    ThirdMissingBulletBold(ExampleCell, [""], ms);
    MissingBulletRed(ExampleCell, [""], ms, 2);
  }

  // ---------------------------------------------------------------------
  // Column width
  // ---------------------------------------------------------------------

  /**
   * `len(str(cell.value or ""))` for the cell a frame value was written to.
   * A list or a dict is written as its `str()` text, which is not empty
   * even for an empty one; any other falsy value leaves an empty or falsy
   * cell, which counts as no text.
   */
  function DisplayLength(value: Option<Json>): nat {
    if value.None? then 0
    else if value.value.JArray? || value.value.JObject? then |Str(value.value)|
    else if Truthy(value.value) then |Str(value.value)| else 0
  }

  /** A list or dict answer, even an empty one, is measured by its written text, brackets included. */
  lemma ContainerCellLength(v: Json)
    requires v.JArray? || v.JObject?
    ensures DisplayLength(Some(v)) == |Repr(v)| >= 2
    ensures ColumnWidth([Some(JArray([]))]) == 4
  {
    assert Repr(JArray([])) == "[" + ReprItems(JArray([]), []) + "]";
  }

  /** The longest display length among the cells of a column. */
  function MaxLength(values: seq<Option<Json>>): (m: nat)
    requires values != []
    ensures forall i :: 0 <= i < |values| ==> DisplayLength(values[i]) <= m
    ensures exists i :: 0 <= i < |values| && DisplayLength(values[i]) == m
    decreases |values|
  {
    if |values| == 1 then DisplayLength(values[0])
    else
      var rest := MaxLength(values[1..]);
      assert forall i :: 1 <= i < |values| ==> values[1..][i - 1] == values[i];
      if DisplayLength(values[0]) >= rest then DisplayLength(values[0]) else rest
  }

  /**
   * Lines 743-745: a column is as wide as its longest cell plus two, and
   * never wider than 60.
   */
  function ColumnWidth(values: seq<Option<Json>>): (w: nat)
    requires values != []
    ensures w <= 60
    ensures forall i :: 0 <= i < |values| ==> w == 60 || DisplayLength(values[i]) + 2 <= w
    ensures w == 60 || exists i :: 0 <= i < |values| && DisplayLength(values[i]) + 2 == w
    ensures (exists i :: 0 <= i < |values| && DisplayLength(values[i]) + 2 >= 60) ==> w == 60
  {
    var m := MaxLength(values);
    if m + 2 <= 60 then m + 2 else 60
  }
}
