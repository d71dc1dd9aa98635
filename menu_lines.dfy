/**
  Turning the menu-reading model's reply into menu lines. TypeScript splits
  on `\n` and keeps, untrimmed, the lines that are not blank; Python splits
  with `splitlines()` and keeps the stripped lines that are not empty. A
  failed call gives a single sentinel line.
 */
module MenuLines {
  import opened Wrappers
  import opened Seqs
  import opened Text
  import opened Collaborators

  /** The one line returned when the menu could not be read. */
  const SentinelLine: string := "Unable to extract menu items"

  /** JavaScript truthiness of `line.trim()`. */
  predicate HasText(line: string)
  {
    JsTrim(line) != []
  }

  /** Python truthiness of a string. */
  predicate NonEmpty(line: string)
  {
    line != []
  }

  /** `extractMenuItems`: `(content || '').split('\n').filter(line => line.trim())`. */
  function TsExtractItems(reply: ExtractionReply): (items: seq<string>)
  {
    match reply
    case ExtractionFailed => [SentinelLine]
    case Extracted(content) =>
      var text := if content.Some? then content.value else "";
      Filter(Split(text, "\n"), HasText)
  }

  /** Every line stripped with `strip()`. */
  function StripAll(lines: seq<string>): seq<string>
  {
    seq(|lines|, i requires 0 <= i < |lines| => PyStrip(lines[i]))
  }

  /**
    `extract_menu_items`: `[line.strip() for line in text.splitlines() if
    line.strip()]`; a failed call, or a reply without content (on which
    `splitlines` raises), gives the sentinel line.
   */
  function PyExtractItems(reply: ExtractionReply): (items: seq<string>)
  {
    match reply
    case ExtractionFailed => [SentinelLine]
    case Extracted(None) => [SentinelLine]
    case Extracted(Some(text)) => Filter(StripAll(SplitLines(text)), NonEmpty)
  }

  /**
    The TypeScript lines are exactly the non-blank pieces of the text between
    newlines, each as often as it occurs, in order and untrimmed; none holds
    a newline.
   */
  lemma TsExtractItemsSpec(text: string)
    ensures var items := TsExtractItems(Extracted(Some(text)));
      && (forall line :: line in items <==> line in Split(text, "\n") && HasText(line))
      && (forall line :: multiset(items)[line] == if HasText(line) then multiset(Split(text, "\n"))[line] else 0)
      && IsSubsequence(items, Split(text, "\n"))
      && (forall line | line in items :: '\n' !in line)
  {
    var pieces := Split(text, "\n");
    var items := TsExtractItems(Extracted(Some(text)));
    forall line ensures line in items <==> line in pieces && HasText(line) {
      FilterMembers(pieces, HasText, line);
    }
    forall line ensures multiset(items)[line] == if HasText(line) then multiset(pieces)[line] else 0 {
      FilterCounts(pieces, HasText, line);
    }
    FilterIsSubsequence(pieces, HasText);
    TsItemsHaveNoNewline(text);
  }

  /** No TypeScript line holds a newline. */
  lemma TsItemsHaveNoNewline(text: string)
    ensures forall line | line in TsExtractItems(Extracted(Some(text))) :: '\n' !in line
  {
    var pieces := Split(text, "\n");
    forall line | line in TsExtractItems(Extracted(Some(text))) ensures '\n' !in line {
      FilterMembers(pieces, HasText, line);
      var k :| 0 <= k < |pieces| && pieces[k] == line;
      SplitPiecesAvoidSep(text, "\n", k);
      if '\n' in line {
        ElementIsInfix('\n', line);
      }
    }
  }

  /** A reply without content reads as the empty text, which has no lines. */
  lemma TsAbsentContentHasNoItems()
    ensures TsExtractItems(Extracted(None)) == []
  {
    assert Find("", "\n").None?;
    assert Split("", "\n") == [""];
    assert !HasText("");
  }

  /**
    The Python lines are exactly the non-empty stripped lines of the text,
    each as often as it occurs, in order; each is stripped and holds no line
    boundary.
   */
  lemma PyExtractItemsSpec(text: string)
    ensures var items := PyExtractItems(Extracted(Some(text)));
      && (forall line :: line in items <==> line in StripAll(SplitLines(text)) && line != [])
      && (forall line :: multiset(items)[line] == if line != [] then multiset(StripAll(SplitLines(text)))[line] else 0)
      && IsSubsequence(items, StripAll(SplitLines(text)))
      && (forall line | line in items :: PyStrip(line) == line)
      && (forall line | line in items :: forall j | 0 <= j < |line| :: !IsPyLineBreak(line[j]))
  {
    var stripped := StripAll(SplitLines(text));
    forall line ensures line in PyExtractItems(Extracted(Some(text))) <==> line in stripped && line != [] {
      FilterMembers(stripped, NonEmpty, line);
    }
    forall line ensures multiset(PyExtractItems(Extracted(Some(text))))[line] == if line != [] then multiset(stripped)[line] else 0 {
      FilterCounts(stripped, NonEmpty, line);
    }
    FilterIsSubsequence(stripped, NonEmpty);
    var lines := SplitLines(text);
    PyItemsStripped(lines);
    forall k, m | 0 <= k < |lines| && 0 <= m < |lines[k]| ensures !IsPyLineBreak(lines[k][m]) {
      SplitLinesHaveNoBreaks(text, k, m);
    }
    PyItemsAvoid(lines, IsPyLineBreak);
  }

  /** Stripping twice strips nothing more. */
  lemma PyStripTwice(s: string)
    ensures PyStrip(PyStrip(s)) == PyStrip(s)
  {
    TrimTrimmed(PyStrip(s), IsPySpace);
  }

  /** Every kept line is already stripped. */
  lemma {:induction false} PyItemsStripped(lines: seq<string>)
    ensures forall line | line in Filter(StripAll(lines), NonEmpty) :: PyStrip(line) == line
  {
    var stripped := StripAll(lines);
    forall line | line in Filter(stripped, NonEmpty) ensures PyStrip(line) == line {
      FilterMembers(stripped, NonEmpty, line);
      var k :| 0 <= k < |stripped| && stripped[k] == line;
      PyStripTwice(lines[k]);
    }
  }

  /** A character that no line holds is held by no kept line. */
  lemma {:induction false} PyItemsAvoid(lines: seq<string>, bad: char -> bool)
    requires forall k, m | 0 <= k < |lines| && 0 <= m < |lines[k]| :: !bad(lines[k][m])
    ensures forall line, j | line in Filter(StripAll(lines), NonEmpty) && 0 <= j < |line| :: !bad(line[j])
  {
    var stripped := StripAll(lines);
    forall line, j | line in Filter(stripped, NonEmpty) && 0 <= j < |line| ensures !bad(line[j]) {
      FilterMembers(stripped, NonEmpty, line);
      var k :| 0 <= k < |stripped| && stripped[k] == line;
      assert line[j] in lines[k];
      var m :| 0 <= m < |lines[k]| && lines[k][m] == line[j];
    }
  }

  /** A failed call gives the sentinel line alone, in both implementations. */
  lemma FailureGivesSentinel()
    ensures TsExtractItems(ExtractionFailed) == [SentinelLine]
    ensures PyExtractItems(ExtractionFailed) == [SentinelLine]
    ensures PyExtractItems(Extracted(None)) == [SentinelLine]
  {
  }
}
