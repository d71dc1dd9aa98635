/**
  The hand-written multipart reader of the serverless Python function: take
  the boundary from the `Content-Type` header, split the body on `--` and
  the boundary, and take the bytes after the header block of the first part
  that names the `menuImage` field, without their trailing CR and LF bytes.
 */
module Multipart {
  import opened Wrappers
  import opened Seqs
  import opened Collaborators

  const CR: Byte := 13
  const LF: Byte := 10
  const Dash: Byte := 45

  /** The marker `boundary=` that precedes the boundary in the header. */
  const BoundaryKey: string := "boundary="

  /** The bytes `Content-Disposition: form-data; name="menuImage"` a part must contain. */
  const Disposition: seq<Byte> :=
    [67, 111, 110, 116, 101, 110, 116, 45] + [68, 105, 115, 112, 111, 115, 105, 116] +
    [105, 111, 110, 58, 32, 102, 111, 114] + [109, 45, 100, 97, 116, 97, 59, 32] +
    [110, 97, 109, 101, 61, 34, 109, 101] + [110, 117, 73, 109, 97, 103, 101, 34]

  /** The blank line that ends a part's headers. */
  const HeaderEnd: seq<Byte> := [CR, LF, CR, LF]

  /** The bytes `rstrip(b'\r\n')` removes. */
  predicate IsCrLf(b: Byte)
  {
    b == CR || b == LF
  }

  /** The UTF-8 encoding of one character (`str.encode()`). */
  function EncodeChar(c: char): (r: seq<Byte>)
    ensures 1 <= |r| <= 4
    ensures (c as int < 128) == (r == [c as int])
  {
    var n := c as int;
    if n < 0x80 then [n]
    else if n < 0x800 then [0xC0 + n / 0x40, 0x80 + n % 0x40]
    else if n < 0x1_0000 then [0xE0 + n / 0x1000, 0x80 + n / 0x40 % 0x40, 0x80 + n % 0x40]
    else [0xF0 + n / 0x4_0000, 0x80 + n / 0x1000 % 0x40, 0x80 + n / 0x40 % 0x40, 0x80 + n % 0x40]
  }

  /** The UTF-8 encoding of a string. */
  function Encode(s: string): (r: seq<Byte>)
    ensures |r| >= |s|
    decreases |s|
  {
    if s == [] then [] else EncodeChar(s[0]) + Encode(s[1..])
  }

  /** Every byte of an encoding of a character other than CR or LF is neither CR nor LF. */
  lemma EncodeCharAvoidsCrLf(c: char)
    requires c != '\r' && c != '\n'
    ensures forall b | b in EncodeChar(c) :: !IsCrLf(b)
  {
  }

  /** A string without CR or LF encodes to bytes without CR or LF. */
  lemma {:induction false} EncodeAvoidsCrLf(s: string)
    requires forall c | c in s :: c != '\r' && c != '\n'
    ensures forall b | b in Encode(s) :: !IsCrLf(b)
    decreases |s|
  {
    if s != [] {
      assert s[0] in s;
      assert forall c | c in s[1..] :: c in s;
      EncodeCharAvoidsCrLf(s[0]);
      EncodeAvoidsCrLf(s[1..]);
    }
  }

  /**
    `content_type.split('boundary=')[1]`, with the `IndexError` as `None`:
    the text after the first `boundary=`, up to the next one or the end.
   */
  function Boundary(contentType: string): (r: Option<string>)
    ensures r.Some? <==> IsInfix(BoundaryKey, contentType)
    ensures r.Some? ==>
      var i := Find(contentType, BoundaryKey).value;
      && i + |BoundaryKey| <= |contentType|
      && r.value == Before(contentType[i + |BoundaryKey|..], BoundaryKey)
  {
    var pieces := Split(contentType, BoundaryKey);
    match Find(contentType, BoundaryKey)
    case None => None
    case Some(i) =>
      SplitStep(contentType, BoundaryKey, i);
      Some(pieces[1])
  }

  /** The separator between parts: `f'--{boundary}'.encode()`. */
  function Separator(boundary: string): (sep: seq<Byte>)
    ensures |sep| >= 2 && sep[..2] == [Dash, Dash]
  {
    [Dash, Dash] + Encode(boundary)
  }

  /** `part[header_end + 4:].rstrip(b'\r\n')`. */
  function Payload(part: seq<Byte>, headerEnd: nat): (data: seq<Byte>)
    requires headerEnd + 4 <= |part|
    ensures |data| <= |part| - headerEnd - 4 && data == part[headerEnd + 4..headerEnd + 4 + |data|]
    ensures data == [] || !IsCrLf(data[|data| - 1])
    ensures forall i | headerEnd + 4 + |data| <= i < |part| :: IsCrLf(part[i])
  {
    DropWhileEnd(part[headerEnd + 4..], IsCrLf)
  }

  /** A part that names the `menuImage` field and has a header end. */
  predicate HasImageField(part: seq<Byte>)
  {
    IsInfix(Disposition, part) && Find(part, HeaderEnd).Some?
  }

  /** The payload of such a part: what follows its first header end. */
  function FieldPayload(part: seq<Byte>): seq<Byte>
    requires HasImageField(part)
  {
    Payload(part, Find(part, HeaderEnd).value)
  }

  /**
    The payload the loop settles on, looking from part `k` on: the first part
    that contains the disposition and a header end gives its payload.
   */
  function FirstPayload(parts: seq<seq<Byte>>, k: nat): (r: Option<seq<Byte>>)
    requires k <= |parts|
    decreases |parts| - k
  {
    if k == |parts| then None
    else if HasImageField(parts[k]) then Some(FieldPayload(parts[k]))
    else FirstPayload(parts, k + 1)
  }

  /** `FirstPayload` gives nothing exactly when no part from `k` on holds the disposition and a header end. */
  lemma {:induction false} FirstPayloadNone(parts: seq<seq<Byte>>, k: nat)
    requires k <= |parts|
    ensures FirstPayload(parts, k).None? <==> forall j | k <= j < |parts| :: !HasImageField(parts[j])
    decreases |parts| - k
  {
    if k < |parts| && !HasImageField(parts[k]) {
      FirstPayloadNone(parts, k + 1);
    }
  }

  /**
    A payload `FirstPayload` gives comes from the first part holding the
    disposition and a header end, taken after that part's first header end.
   */
  lemma {:induction false} FirstPayloadFirst(parts: seq<seq<Byte>>, k: nat)
    requires k <= |parts|
    ensures FirstPayload(parts, k).Some? ==> exists j | k <= j < |parts| ::
      && HasImageField(parts[j])
      && FirstPayload(parts, k).value == FieldPayload(parts[j])
      && forall i | k <= i < j :: !HasImageField(parts[i])
    decreases |parts| - k
  {
    if k < |parts| && !HasImageField(parts[k]) {
      FirstPayloadFirst(parts, k + 1);
      if FirstPayload(parts, k).Some? {
        var j :| k + 1 <= j < |parts| && HasImageField(parts[j])
          && FirstPayload(parts, k + 1).value == FieldPayload(parts[j])
          && forall i | k + 1 <= i < j :: !HasImageField(parts[i]);
        assert forall i | k <= i < j :: !HasImageField(parts[i]);
      }
    }
  }

  /** An empty part never holds the disposition. */
  lemma FirstPayloadSkipsEmpty(parts: seq<seq<Byte>>)
    requires |parts| >= 1 && parts[0] == []
    ensures FirstPayload(parts, 0) == FirstPayload(parts, 1)
  {
    DispositionHasNoCrLf();
  }

  /** The `for part in parts` loop of `do_POST`, which stops at the first payload. */
  method FindImageData(parts: seq<seq<Byte>>) returns (imageData: Option<seq<Byte>>)
    ensures imageData == FirstPayload(parts, 0)
  {
    imageData := None;
    var k := 0;
    while k < |parts|
      invariant 0 <= k <= |parts|
      invariant FirstPayload(parts, 0) == FirstPayload(parts, k)
    {
      var part := parts[k];
      if IsInfix(Disposition, part) {
        var headerEnd := Find(part, HeaderEnd);
        if headerEnd.Some? {
          imageData := Some(Payload(part, headerEnd.value));
          break;
        }
      }
      k := k + 1;
    }
  }

  /** The image bytes `do_POST` finds in a body, once it has a boundary. */
  function ImageData(boundary: string, body: seq<Byte>): Option<seq<Byte>>
  {
    FirstPayload(Split(body, Separator(boundary)), 0)
  }

  /**
    The first occurrence of `sep` in `mid + sep + rest` is the one after
    `mid`, when `mid` holds no `sep` and ends with a byte `sep` lacks (so no
    occurrence can straddle the two).
   */
  lemma FindAfter(mid: seq<Byte>, sep: seq<Byte>, rest: seq<Byte>)
    requires |sep| > 0 && !IsInfix(sep, mid)
    requires mid != [] && mid[|mid| - 1] !in sep
    ensures Find(mid + sep + rest, sep) == Some(|mid|)
  {
    var s := mid + sep + rest;
    assert s[|mid|..|mid| + |sep|] == sep;
    assert OccursAt(s, sep, |mid|);
    forall j: nat | j < |mid| ensures !OccursAt(s, sep, j) {
      if j + |sep| <= |mid| {
        assert mid[j..j + |sep|] == s[j..j + |sep|];
        if OccursAt(mid, sep, j) {
          OccurrenceIsInfix(sep, mid, j);
        }
      } else {
        assert s[j..j + |sep|][|mid| - 1 - j] == mid[|mid| - 1];
        assert mid[|mid| - 1] != sep[|mid| - 1 - j];
      }
    }
  }

  /**
    A body laid out as a client lays out a one-part form: the separator, the
    part, the separator again and a tail.
   */
  lemma SplitOnePart(part: seq<Byte>, sep: seq<Byte>, tail: seq<Byte>)
    requires |sep| > 0 && !IsInfix(sep, part)
    requires part != [] && part[|part| - 1] !in sep
    ensures var parts := Split(sep + part + sep + tail, sep);
      |parts| >= 2 && parts[0] == [] && parts[1] == part
  {
    var body := sep + part + sep + tail;
    assert OccursAt(body, sep, 0);
    assert Find(body, sep) == Some(0);
    assert body[|sep|..] == part + sep + tail;
    FindAfter(part, sep, tail);
    assert (part + sep + tail)[..|part|] == part;
  }

  /** The three bytes `\r\n\r` that open a blank line. */
  const BlankLineStart: seq<Byte> := [CR, LF, CR]

  /**
    A part's header block as a client writes it: one or more header lines
    joined by CR LF, with no blank line among them, so it neither starts nor
    ends with CR or LF and never holds `\r\n\r`.
   */
  predicate HeaderBlock(header: seq<Byte>)
  {
    && header != []
    && !IsCrLf(header[0])
    && !IsCrLf(header[|header| - 1])
    && !IsInfix(BlankLineStart, header)
  }

  /** A part with the header block `header`, then `data`, as a client lays it out. */
  function PartWith(header: seq<Byte>, data: seq<Byte>): seq<Byte>
  {
    [CR, LF] + header + HeaderEnd + data + [CR, LF]
  }

  /** The disposition line holds no CR and no LF. */
  lemma DispositionHasNoCrLf()
    ensures |Disposition| == 48
    ensures CR !in Disposition && LF !in Disposition
  {
  }

  /**
    The disposition line on its own is a header block naming the field; so is
    that line followed by a `Content-Type` line, as browsers send it.
   */
  lemma DispositionIsHeaderBlock(contentType: seq<Byte>)
    requires contentType != [] && CR !in contentType && LF !in contentType
    ensures HeaderBlock(Disposition) && IsInfix(Disposition, Disposition)
    ensures HeaderBlock(Disposition + [CR, LF] + contentType)
    ensures IsInfix(Disposition, Disposition + [CR, LF] + contentType)
  {
    DispositionHasNoCrLf();
    MissingElementNotInfix(BlankLineStart, Disposition, CR);
    assert OccursAt(Disposition, Disposition, 0);
    var h := Disposition + [CR, LF] + contentType;
    assert OccursAt(h, Disposition, 0);
    assert h[|h| - 1] == contentType[|contentType| - 1];
    forall k: nat | k + 3 <= |h| ensures !OccursAt(h, BlankLineStart, k) {
      if k < |Disposition| {
        assert h[k] == Disposition[k];
      } else if k == |Disposition| {
        assert h[k + 2] == contentType[0];
      } else if k == |Disposition| + 1 {
        assert h[k] == LF;
      } else {
        assert h[k] == contentType[k - |Disposition| - 2];
      }
    }
  }

  /** A header block never holds CR, LF, CR in a row. */
  lemma NoBlankLineInHeader(header: seq<Byte>, i: nat)
    requires HeaderBlock(header) && i + 2 < |header|
    ensures !(header[i] == CR && header[i + 1] == LF && header[i + 2] == CR)
  {
    assert !OccursAt(header, BlankLineStart, i);
    assert header[i..i + 3] == [header[i], header[i + 1], header[i + 2]];
  }

  /** Where the bytes of a part come from. */
  lemma PartWithBytes(header: seq<Byte>, data: seq<Byte>)
    ensures var p := PartWith(header, data);
      && |p| == |header| + |data| + 8
      && p[0] == CR && p[1] == LF
      && (forall i | 0 <= i < |header| :: p[2 + i] == header[i])
      && p[2 + |header|..6 + |header|] == HeaderEnd
  {
    var p := PartWith(header, data);
    assert p == [CR, LF] + header + (HeaderEnd + data + [CR, LF]);
  }

  /** No header end starts inside the header block, or just before it. */
  lemma NoHeaderEndBefore(header: seq<Byte>, data: seq<Byte>, k: nat)
    requires HeaderBlock(header) && k < 2 + |header|
    ensures !OccursAt(PartWith(header, data), HeaderEnd, k)
  {
    var p := PartWith(header, data);
    var h := 2 + |header|;
    PartWithBytes(header, data);
    assert p[k..k + 4] == [p[k], p[k + 1], p[k + 2], p[k + 3]];
    if k == 0 {
      assert p[2] == header[0];
    } else if 2 <= k && k + 2 < h {
      assert p[k] == header[k - 2] && p[k + 1] == header[k - 1] && p[k + 2] == header[k];
      NoBlankLineInHeader(header, k - 2);
    } else if k + 1 == h {
      assert p[k] == header[|header| - 1];
    } else if k + 2 == h && k >= 2 {
      assert p[k + 1] == header[|header| - 1];
    }
  }

  /** The first header end of such a part is the one right after its header block. */
  lemma PartWithHeaderEnd(header: seq<Byte>, data: seq<Byte>)
    requires HeaderBlock(header)
    ensures OccursAt(PartWith(header, data), header, 2)
    ensures Find(PartWith(header, data), HeaderEnd) == Some(2 + |header|)
  {
    var p := PartWith(header, data);
    var h := 2 + |header|;
    PartWithBytes(header, data);
    assert p[2..h] == header;
    assert OccursAt(p, HeaderEnd, h);
    forall k: nat | k < h ensures !OccursAt(p, HeaderEnd, k) {
      NoHeaderEndBefore(header, data, k);
    }
  }

  /** A pattern inside the header block is inside the part. */
  lemma HeaderInfixInPart(pat: seq<Byte>, header: seq<Byte>, data: seq<Byte>)
    requires IsInfix(pat, header)
    ensures IsInfix(pat, PartWith(header, data))
  {
    var i := Find(header, pat).value;
    var p := PartWith(header, data);
    assert p[2 + i..2 + i + |pat|] == header[i..i + |pat|];
    OccurrenceIsInfix(pat, p, 2 + i);
  }

  /** Dropping a tail of droppable elements gives back what precedes it, when that ends in a kept one. */
  lemma {:induction false} DropWhileEndTail(a: seq<Byte>, b: seq<Byte>, drop: Byte -> bool)
    requires a == [] || !drop(a[|a| - 1])
    requires forall x | x in b :: drop(x)
    ensures DropWhileEnd(a + b, drop) == a
    decreases |b|
  {
    if b == [] {
      assert a + b == a;
    } else {
      assert (a + b)[..|a + b| - 1] == a + b[..|b| - 1];
      assert b[|b| - 1] in b;
      DropWhileEndTail(a, b[..|b| - 1], drop);
    }
  }

  /** The payload after that header end is `data`, when `data` does not end in CR or LF. */
  lemma PartWithPayload(header: seq<Byte>, data: seq<Byte>)
    requires data == [] || !IsCrLf(data[|data| - 1])
    ensures Payload(PartWith(header, data), 2 + |header|) == data
  {
    var q := [CR, LF] + header + HeaderEnd;
    assert PartWith(header, data) == q + (data + [CR, LF]);
    assert PartWith(header, data)[|q|..] == data + [CR, LF];
    DropWhileEndTail(data, [CR, LF], IsCrLf);
  }

  /**
    In a part whose header block names the `menuImage` field, the loop finds
    the field and the header end, and the payload is `data` when it does not
    end in CR or LF.
   */
  lemma ImagePartPayload(header: seq<Byte>, data: seq<Byte>)
    requires HeaderBlock(header) && IsInfix(Disposition, header)
    requires data == [] || !IsCrLf(data[|data| - 1])
    ensures HasImageField(PartWith(header, data)) && FieldPayload(PartWith(header, data)) == data
  {
    PartWithHeaderEnd(header, data);
    PartWithPayload(header, data);
    HeaderInfixInPart(Disposition, header, data);
  }

  /** The separator of a boundary without CR or LF holds no LF. */
  lemma SeparatorAvoidsLf(boundary: string)
    requires forall c | c in boundary :: c != '\r' && c != '\n'
    ensures LF !in Separator(boundary)
  {
    EncodeAvoidsCrLf(boundary);
  }

  /**
    The image bytes round-trip: a body made of the separator, a part whose
    header block names the `menuImage` field and which holds `data`, and the
    separator again gives back `data`, when `data` does not end in CR or LF
    and the part does not contain the separator. The boundary must hold no CR
    or LF.
   */
  lemma ImageDataRoundTrip(boundary: string, header: seq<Byte>, data: seq<Byte>, tail: seq<Byte>)
    requires forall c | c in boundary :: c != '\r' && c != '\n'
    requires HeaderBlock(header) && IsInfix(Disposition, header)
    requires data == [] || !IsCrLf(data[|data| - 1])
    requires !IsInfix(Separator(boundary), PartWith(header, data))
    ensures ImageData(boundary, Separator(boundary) + PartWith(header, data) + Separator(boundary) + tail) == Some(data)
  {
    var sep := Separator(boundary);
    var part := PartWith(header, data);
    SeparatorAvoidsLf(boundary);
    assert part[|part| - 1] == LF;
    SplitOnePart(part, sep, tail);
    var parts := Split(sep + part + sep + tail, sep);
    FirstPayloadSkipsEmpty(parts);
    ImagePartPayload(header, data);
  }
}
