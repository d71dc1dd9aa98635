/**
  Reading the ranking model's reply. The reply is meant to be the 1-based
  number of the best candidate or the word `NONE`. The TypeScript route reads
  it with `parseInt`, which takes the longest integer prefix. The Python
  implementations read it with `int()`, which accepts only a whole-string
  integer.
 */
module Verdict {
  import opened Wrappers
  import opened Seqs
  import opened Text
  import opened Collaborators

  /** The reply that means "none of the candidates is good enough". */
  const NoneReply: string := "NONE"

  /**
    The digits `parseInt` reads once the sign is skipped: base 16 after a
    `0x`/`0X` prefix, base 10 otherwise, each as the longest run of digits
    of that base; `None` when the run is empty (`NaN`).
   */
  function JsMagnitude(u: string): (r: Option<int>)
    ensures r.Some? ==> r.value >= 0
  {
    if |u| >= 2 && u[0] == '0' && (u[1] == 'x' || u[1] == 'X') then
      var h := TakeWhile(u[2..], IsHexDigit);
      if h == [] then None else Some(HexValue(h))
    else
      var d := TakeWhile(u, IsDigit);
      if d == [] then None else Some(DecimalValue(d))
  }

  /**
    JavaScript `parseInt(s)` without a radix, with `NaN` as `None`: skip
    leading whitespace, read an optional sign, then the magnitude.
   */
  function JsParseInt(s: string): (r: Option<int>)
  {
    var t := DropWhile(s, IsJsSpace);
    var negative := t != [] && t[0] == '-';
    var u := if t != [] && (t[0] == '-' || t[0] == '+') then t[1..] else t;
    match JsMagnitude(u)
    case None => None
    case Some(m) => Some(if negative then -m else m)
  }

  /** A string starting with a digit is read by `parseInt` as its magnitude alone. */
  lemma JsParseIntUnsigned(s: string)
    requires s != [] && IsDigit(s[0])
    ensures JsParseInt(s) == JsMagnitude(s)
  {
    assert !IsJsSpace(s[0]);
    assert DropWhile(s, IsJsSpace) == s;
  }

  /** The body of a Python integer literal in base 10: digits, with single underscores between digits. */
  predicate IsPyDigits(u: string)
  {
    && u != [] && IsDigit(u[0]) && IsDigit(u[|u| - 1])
    && (forall i | 0 <= i < |u| :: IsDigit(u[i]) || u[i] == '_')
    && (forall i | 0 <= i < |u| - 1 :: !(u[i] == '_' && u[i + 1] == '_'))
  }

  /** Deleting the underscores of such a body leaves only digits. */
  lemma PyDigitsWithoutUnderscores(u: string)
    requires IsPyDigits(u)
    ensures AllDigits(RemoveAll(u, '_'))
  {
    var d := RemoveAll(u, '_');
    forall i | 0 <= i < |d| ensures IsDigit(d[i]) {
      assert d[i] in u;
    }
  }

  /**
    Python `int(s)`, with `ValueError` as `None`: surrounding whitespace is
    ignored, an optional sign, then the whole rest must be a base-10 body.
   */
  function PyParseInt(s: string): (r: Option<int>)
  {
    var t := PyStrip(s);
    var negative := t != [] && t[0] == '-';
    var u := if t != [] && (t[0] == '-' || t[0] == '+') then t[1..] else t;
    if IsPyDigits(u) then
      PyDigitsWithoutUnderscores(u);
      var m: int := DecimalValue(RemoveAll(u, '_'));
      Some(if negative then -m else m)
    else None
  }

  /** The candidate a 1-based number designates, if it is in range. */
  function Numbered(urls: seq<string>, k: int): Option<string>
  {
    if 1 <= k <= |urls| then Some(urls[k - 1]) else None
  }

  /** How TypeScript reads a trimmed reply: `NONE`, or `parseInt(choice) - 1` as an index. */
  function TsReading(urls: seq<string>, choice: string): (pick: Option<string>)
    ensures pick.Some? ==> pick.value in urls
  {
    if choice == NoneReply then None
    else
      match JsParseInt(choice)
      case None => None
      case Some(k) => Numbered(urls, k)
  }

  /**
    `getAiSelectedImage` once the ranking model has been asked about a
    non-empty list. A failed call falls back to the first URL, or to `null`
    when that URL is the empty string (`imageUrls[0] || null`). A reply is
    trimmed and read by `TsReading`; an absent content reads as `''`, which
    `parseInt` turns into `NaN`.
   */
  function TsVerdict(urls: seq<string>, reply: RankReply): (pick: Option<string>)
    ensures pick.Some? ==> pick.value in urls
  {
    match reply
    case RankFailed => if |urls| > 0 && urls[0] != "" then Some(urls[0]) else None
    case Replied(None) => None
    case Replied(Some(content)) => TsReading(urls, JsTrim(content))
  }

  /** How Python reads a stripped reply: `NONE`, or `int(choice) - 1` as an index. */
  function PyReading(urls: seq<string>, choice: string): (pick: Option<string>)
    ensures pick.Some? ==> pick.value in urls
  {
    if choice == NoneReply then None
    else
      match PyParseInt(choice)
      case None => None
      case Some(k) => Numbered(urls, k)
  }

  /**
    `get_ai_selected_image` once the ranking model has been asked about a
    non-empty list. A failed call, or a reply without content (whose
    `.strip()` raises), falls back to the first URL. Otherwise the stripped
    reply is read by `PyReading`.
   */
  function PyVerdict(urls: seq<string>, reply: RankReply): (pick: Option<string>)
    ensures pick.Some? ==> pick.value in urls
  {
    match reply
    case RankFailed => if |urls| > 0 then Some(urls[0]) else None
    case Replied(None) => if |urls| > 0 then Some(urls[0]) else None
    case Replied(Some(content)) => PyReading(urls, PyStrip(content))
  }

  /** `TakeWhile` stops exactly at the end of a run that is followed by a non-matching element. */
  lemma {:induction false} TakeWhileRun(a: string, b: string, p: char -> bool)
    requires forall i | 0 <= i < |a| :: p(a[i])
    requires b == [] || !p(b[0])
    ensures TakeWhile(a + b, p) == a
    decreases |a|
  {
    if a != [] {
      assert (a + b)[1..] == a[1..] + b;
      TakeWhileRun(a[1..], b, p);
    } else {
      assert a + b == b;
    }
  }

  /**
    The magnitude of the decimal spelling of `n` is `n`, whatever follows
    it, as long as the next character is neither a digit nor an `x` that
    would turn a lone `0` into a hexadecimal prefix.
   */
  lemma JsMagnitudeDecimal(n: nat, rest: string)
    requires rest == [] || (!IsDigit(rest[0]) && rest[0] != 'x' && rest[0] != 'X')
    ensures JsMagnitude(DecimalString(n) + rest) == Some(n)
  {
    var d := DecimalString(n);
    var s := d + rest;
    assert s[0] == d[0];
    if n >= 10 {
      assert s[0] != '0';
    } else if rest != [] {
      assert s[1] == rest[0];
    }
    TakeWhileRun(d, rest, IsDigit);
    DecimalRoundTrip(n);
  }

  /** `parseInt` reads the decimal spelling of `n` back as `n`, under the same condition on what follows. */
  lemma JsParseIntDecimal(n: nat, rest: string)
    requires rest == [] || (!IsDigit(rest[0]) && rest[0] != 'x' && rest[0] != 'X')
    ensures JsParseInt(DecimalString(n) + rest) == Some(n)
  {
    var s := DecimalString(n) + rest;
    assert s[0] == DecimalString(n)[0];
    JsParseIntUnsigned(s);
    JsMagnitudeDecimal(n, rest);
  }

  /** `int()` reads the decimal spelling of `n` back as `n`. */
  lemma PyParseIntDecimal(n: nat)
    ensures PyParseInt(DecimalString(n)) == Some(n)
  {
    PyParseIntOfDigits(DecimalString(n));
    DecimalRoundTrip(n);
  }

  /** `int()` reads a plain string of digits as its decimal value. */
  lemma PyParseIntOfDigits(d: string)
    requires d != [] && AllDigits(d)
    ensures PyParseInt(d) == Some(DecimalValue(d))
  {
    DigitsUntouched(d);
    assert d[0] != '-' && d[0] != '+' by {
      assert IsDigit(d[0]);
    }
    assert IsPyDigits(d);
  }

  /** A string of digits has no whitespace to trim and no underscore to delete. */
  lemma DigitsUntouched(d: string)
    requires d != [] && AllDigits(d)
    ensures JsTrim(d) == d && PyStrip(d) == d && RemoveAll(d, '_') == d
  {
    assert IsDigit(d[0]) && IsDigit(d[|d| - 1]);
    TrimTrimmed(d, IsJsSpace);
    TrimTrimmed(d, IsPySpace);
    forall i | 0 <= i < |d| ensures d[i] != '_' {
      assert IsDigit(d[i]);
    }
    RemoveAbsent(d, '_');
  }

  /** A bare number k selects candidate k when 1 <= k <= n and nothing otherwise, in both readings. */
  lemma NumberedReplySelects(urls: seq<string>, k: nat)
    ensures TsVerdict(urls, Replied(Some(DecimalString(k)))) == Numbered(urls, k)
    ensures PyVerdict(urls, Replied(Some(DecimalString(k)))) == Numbered(urls, k)
  {
    var d := DecimalString(k);
    DigitsUntouched(d);
    DigitsAreNotNone(d);
    TsNumberedReading(k);
    PyParseIntDecimal(k);
  }

  /** A string of digits is not the `NONE` reply. */
  lemma DigitsAreNotNone(d: string)
    requires d != [] && AllDigits(d)
    ensures d != NoneReply
  {
    assert IsDigit(d[0]);
  }

  lemma TsNumberedReading(k: nat)
    ensures JsParseInt(DecimalString(k)) == Some(k)
  {
    assert DecimalString(k) + [] == DecimalString(k);
    JsParseIntDecimal(k, []);
  }

  /** `NONE` has no surrounding JavaScript whitespace. */
  lemma NoneReplyJsTrimmed()
    ensures JsTrim(NoneReply) == NoneReply
  {
    var s := NoneReply;
    assert s[0] == 'N' && s[3] == 'E';
    assert !IsJsSpace('N') && !IsJsSpace('E');
    TrimTrimmed(s, IsJsSpace);
  }

  /** `NONE` has no surrounding Python whitespace. */
  lemma NoneReplyPyStripped()
    ensures PyStrip(NoneReply) == NoneReply
  {
    var s := NoneReply;
    assert s[0] == 'N' && s[3] == 'E';
    assert !IsPySpace('N') && !IsPySpace('E');
    TrimTrimmed(s, IsPySpace);
  }

  /** `NONE` gives no pick in both readings, even with candidates. */
  lemma NoneReplyRejects(urls: seq<string>)
    ensures TsVerdict(urls, Replied(Some(NoneReply))) == None
    ensures PyVerdict(urls, Replied(Some(NoneReply))) == None
  {
    NoneReplyJsTrimmed();
    NoneReplyPyStripped();
  }

  /** A failed call picks the first candidate (TypeScript: unless it is the empty string). */
  lemma FailedCallPicksFirst(urls: seq<string>)
    requires urls != []
    ensures PyVerdict(urls, RankFailed) == Some(urls[0])
    ensures urls[0] != "" ==> TsVerdict(urls, RankFailed) == Some(urls[0])
    ensures PyVerdict(urls, Replied(None)) == Some(urls[0])
    ensures TsVerdict(urls, Replied(None)) == None
  {
  }

  /** `parseInt("2.")` stops at the dot and reads 2. */
  lemma JsReadsNumberBeforeDot()
    ensures JsParseInt("2.") == Some(2)
  {
    assert DecimalString(2) == "2";
    assert "2." == DecimalString(2) + ".";
    JsParseIntDecimal(2, ".");
  }

  /**
    A reply such as `"2."` selects the second candidate in TypeScript,
    where `parseInt` stops at the dot.
   */
  lemma TsTrailingTextSelects(urls: seq<string>)
    requires |urls| >= 2
    ensures TsVerdict(urls, Replied(Some("2."))) == Some(urls[1])
  {
    TwoDotJsTrimmed();
    JsReadsNumberBeforeDot();
  }

  lemma TwoDotJsTrimmed()
    ensures JsTrim("2.") == "2."
  {
    var s := "2.";
    assert s[0] == '2' && s[1] == '.';
    assert !IsJsSpace('2') && !IsJsSpace('.');
    TrimTrimmed(s, IsJsSpace);
  }

  /** The same reply `"2."` selects nothing in Python, where `int("2.")` raises. */
  lemma PyTrailingTextRejects(urls: seq<string>)
    ensures PyVerdict(urls, Replied(Some("2."))) == None
  {
    TwoDotPyStripped();
    assert !IsPyDigits("2.");
  }

  lemma TwoDotPyStripped()
    ensures PyStrip("2.") == "2."
  {
    var s := "2.";
    assert s[0] == '2' && s[1] == '.';
    assert !IsPySpace('2') && !IsPySpace('.');
    TrimTrimmed(s, IsPySpace);
  }
}
