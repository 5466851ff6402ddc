/** Reading a captured text file and writing it back in its own encoding: UTF-8 with and without a byte
  * order mark, and UTF-16 in both byte orders (RFC 2781 sections 2.1, 2.2 and 3.2). */
module TextCodec {
  import opened ConfigPlan

  type Byte = b: int | 0 <= b < 256
  type Unit = u: int | 0 <= u < 0x10000
  type Scalar = r: int | 0 <= r < 0xD800 || 0xE000 <= r < 0x110000

  const REPLACEMENT: Scalar := 0xFFFD

  datatype Encoding = Utf8 | Utf8Marked | Utf16Little | Utf16Big

  datatype Decoded = Decoded(text: seq<Scalar>, encoding: Encoding)

  // ----- UTF-16 units -----

  predicate High(u: Unit) { 0xD800 <= u < 0xDC00 }

  predicate Low(u: Unit) { 0xDC00 <= u < 0xE000 }

  function Pair(high: Unit, low: Unit): Scalar
    requires High(high) && Low(low)
  {
    0x10000 + (high - 0xD800) * 0x400 + (low - 0xDC00)
  }

  function UnitsOf(r: Scalar): seq<Unit> {
    if r < 0x10000 then [r]
    else [0xD800 + (r - 0x10000) / 0x400, 0xDC00 + (r - 0x10000) % 0x400]
  }

  function Encode16(text: seq<Scalar>): seq<Unit> {
    if text == [] then [] else UnitsOf(text[0]) + Encode16(text[1..])
  }

  predicate StartsPair(units: seq<Unit>) {
    |units| >= 2 && High(units[0]) && Low(units[1])
  }

  /** A surrogate that is not part of a pair decodes to the replacement character. */
  function Decode16(units: seq<Unit>): seq<Scalar> {
    if units == [] then []
    else if StartsPair(units) then [Pair(units[0], units[1])] + Decode16(units[2..])
    else [if High(units[0]) || Low(units[0]) then REPLACEMENT else units[0]] + Decode16(units[1..])
  }

  /** No surrogate stands alone. */
  predicate WellFormed(units: seq<Unit>) {
    units == [] ||
    (if StartsPair(units) then WellFormed(units[2..])
     else !High(units[0]) && !Low(units[0]) && WellFormed(units[1..]))
  }

  lemma {:induction false} Decode16Encode16(text: seq<Scalar>)
    ensures Decode16(Encode16(text)) == text && WellFormed(Encode16(text))
  {
    if text != [] {
      var units, rest := UnitsOf(text[0]), Encode16(text[1..]);
      Decode16Encode16(text[1..]);
      assert (units + rest)[|units|..] == rest;
      assert text == [text[0]] + text[1..];
    }
  }

  lemma {:induction false} Encode16Decode16(units: seq<Unit>)
    requires WellFormed(units)
    ensures Encode16(Decode16(units)) == units
  {
    if units != [] {
      var n := if StartsPair(units) then 2 else 1;
      var text := Decode16(units);
      Encode16Decode16(units[n..]);
      assert text[1..] == Decode16(units[n..]);
      assert UnitsOf(text[0]) == units[..n];
      assert units == units[..n] + units[n..];
    }
  }

  // ----- UTF-16 bytes -----

  function UnitBytes(u: Unit, little: bool): seq<Byte> {
    if little then [u % 256, u / 256] else [u / 256, u % 256]
  }

  function UnitAt(first: Byte, second: Byte, little: bool): Unit {
    if little then first + second * 256 else first * 256 + second
  }

  function BytesOf(units: seq<Unit>, little: bool): seq<Byte> {
    if units == [] then [] else BytesOf(units[..|units| - 1], little) + UnitBytes(units[|units| - 1], little)
  }

  lemma {:induction false} BytesAt(units: seq<Unit>, little: bool)
    ensures |BytesOf(units, little)| == 2 * |units|
    ensures forall k :: 0 <= k < |units| ==>
      UnitAt(BytesOf(units, little)[2 * k], BytesOf(units, little)[2 * k + 1], little) == units[k]
  {
    if units != [] { BytesAt(units[..|units| - 1], little); }
  }

  /** The units of an even number of bytes; an odd number is refused. */
  method ReadUnits(body: seq<Byte>, little: bool) returns (units: Option<seq<Unit>>)
    ensures units.Some? <==> |body| % 2 == 0
    ensures units.Some? ==> BytesOf(units.value, little) == body
  {
    if |body| % 2 != 0 {
      return None;
    }
    var all: seq<Unit> := [];
    var i := 0;
    while i < |body|
      invariant 0 <= i <= |body| && i % 2 == 0 && BytesOf(all, little) == body[..i]
      decreases |body| - i
    {
      var u := UnitAt(body[i], body[i + 1], little);
      assert (all + [u])[..|all|] == all;
      assert UnitBytes(u, little) == [body[i], body[i + 1]];
      assert body[..i + 2] == body[..i] + [body[i], body[i + 1]];
      all := all + [u];
      i := i + 2;
    }
    assert body[..|body|] == body;
    return Some(all);
  }

  method WriteUnits(units: seq<Unit>, little: bool) returns (bytes: seq<Byte>)
    ensures bytes == BytesOf(units, little)
  {
    bytes := [];
    for n := 0 to |units|
      invariant bytes == BytesOf(units[..n], little)
    {
      assert units[..n + 1][..n] == units[..n];
      bytes := bytes + UnitBytes(units[n], little);
    }
    assert units[..|units|] == units;
  }

  lemma BytesDetermineUnits(a: seq<Unit>, b: seq<Unit>, little: bool)
    requires BytesOf(a, little) == BytesOf(b, little)
    ensures a == b
  {
    BytesAt(a, little);
    BytesAt(b, little);
  }

  // ----- UTF-8 -----

  predicate Continuation(b: Byte) { 0x80 <= b < 0xC0 }

  function Utf8Of(r: Scalar): seq<Byte> {
    if r < 0x80 then [r]
    else if r < 0x800 then [0xC0 + r / 0x40, 0x80 + r % 0x40]
    else if r < 0x10000 then [0xE0 + r / 0x40 / 0x40, 0x80 + r / 0x40 % 0x40, 0x80 + r % 0x40]
    else [0xF0 + r / 0x40 / 0x40 / 0x40, 0x80 + r / 0x40 / 0x40 % 0x40, 0x80 + r / 0x40 % 0x40, 0x80 + r % 0x40]
  }

  function EncodeUtf8(text: seq<Scalar>): seq<Byte> {
    if text == [] then [] else Utf8Of(text[0]) + EncodeUtf8(text[1..])
  }

  function Width(lead: Byte): nat {
    if lead < 0x80 then 1 else if 0xC0 <= lead < 0xE0 then 2 else if 0xE0 <= lead < 0xF0 then 3
    else if 0xF0 <= lead < 0xF8 then 4 else 0
  }

  function Payload(bytes: seq<Byte>): int
    requires bytes != [] && 1 <= Width(bytes[0]) <= |bytes|
  {
    var lead: int := bytes[0];
    match Width(bytes[0])
    case 1 => lead
    case 2 => Append(lead - 0xC0, bytes[1])
    case 3 => Append(Append(lead - 0xE0, bytes[1]), bytes[2])
    case _ => Append(Append(Append(lead - 0xF0, bytes[1]), bytes[2]), bytes[3])
  }

  /** Six more bits from a continuation byte. */
  function Append(high: int, b: int): int {
    high * 0x40 + (b - 0x80)
  }

  lemma AppendSplits(high: int, b: Byte)
    requires Continuation(b)
    ensures Append(high, b) / 0x40 == high && 0x80 + Append(high, b) % 0x40 == b
  {
  }

  lemma SplitAppends(r: int)
    ensures Append(r / 0x40, 0x80 + r % 0x40) == r
  {
  }

  /** The bytes begin with the shortest encoding of one scalar value. */
  predicate StartsScalar(bytes: seq<Byte>) {
    && bytes != [] && 1 <= Width(bytes[0]) <= |bytes|
    && (forall k :: 1 <= k < Width(bytes[0]) ==> Continuation(bytes[k]))
    && (var r := Payload(bytes);
        && (0 <= r < 0xD800 || 0xE000 <= r < 0x110000)
        && (Width(bytes[0]) == 2 ==> r >= 0x80) && (Width(bytes[0]) == 3 ==> r >= 0x800)
        && (Width(bytes[0]) == 4 ==> r >= 0x10000))
  }

  function DecodeUtf8(bytes: seq<Byte>): Option<seq<Scalar>> {
    if bytes == [] then Some([])
    else if !StartsScalar(bytes) then None
    else
      match DecodeUtf8(bytes[Width(bytes[0])..])
      case None => None
      case Some(rest) => Some([Payload(bytes)] + rest)
  }

  lemma ScalarRoundTrip(r: Scalar, rest: seq<Byte>)
    ensures var bytes := Utf8Of(r) + rest;
      StartsScalar(bytes) && Width(bytes[0]) == |Utf8Of(r)| && Payload(bytes) == r
  {
    var bytes := Utf8Of(r) + rest;
    assert forall k :: 0 <= k < |Utf8Of(r)| ==> bytes[k] == Utf8Of(r)[k];
    SplitAppends(r);
    SplitAppends(r / 0x40);
    SplitAppends(r / 0x40 / 0x40);
  }

  lemma BytesRoundTrip(bytes: seq<Byte>)
    requires StartsScalar(bytes)
    ensures Utf8Of(Payload(bytes)) == bytes[..Width(bytes[0])]
  {
    var lead: int := bytes[0];
    match Width(bytes[0])
    case 1 =>
    case 2 => AppendSplits(lead - 0xC0, bytes[1]);
    case 3 =>
      var high := Append(lead - 0xE0, bytes[1]);
      AppendSplits(lead - 0xE0, bytes[1]);
      AppendSplits(high, bytes[2]);
    case _ =>
      var high := Append(lead - 0xF0, bytes[1]);
      AppendSplits(lead - 0xF0, bytes[1]);
      AppendSplits(high, bytes[2]);
      AppendSplits(Append(high, bytes[2]), bytes[3]);
  }

  lemma {:induction false} DecodeEncodeUtf8(text: seq<Scalar>)
    ensures DecodeUtf8(EncodeUtf8(text)) == Some(text)
  {
    if text != [] {
      var head, rest := Utf8Of(text[0]), EncodeUtf8(text[1..]);
      DecodeEncodeUtf8(text[1..]);
      ScalarRoundTrip(text[0], rest);
      assert (head + rest)[|head|..] == rest;
      assert text == [text[0]] + text[1..];
    }
  }

  lemma {:induction false} EncodeDecodeUtf8(bytes: seq<Byte>)
    requires DecodeUtf8(bytes).Some?
    ensures EncodeUtf8(DecodeUtf8(bytes).value) == bytes
  {
    if bytes != [] {
      var n := Width(bytes[0]);
      EncodeDecodeUtf8(bytes[n..]);
      BytesRoundTrip(bytes);
      EncodeStep(Payload(bytes), DecodeUtf8(bytes[n..]).value);
      assert bytes == bytes[..n] + bytes[n..];
    }
  }

  lemma EncodeStep(r: Scalar, rest: seq<Scalar>)
    ensures EncodeUtf8([r] + rest) == Utf8Of(r) + EncodeUtf8(rest)
  {
    assert ([r] + rest)[1..] == rest;
  }

  // ----- files -----

  const MARK_LITTLE: seq<Byte> := [0xFF, 0xFE]
  const MARK_BIG: seq<Byte> := [0xFE, 0xFF]
  const MARK_UTF8: seq<Byte> := [0xEF, 0xBB, 0xBF]

  /** UTF-8 text, unless a NUL byte says the file is binary. */
  function PlainText(body: seq<Byte>): Option<seq<Scalar>> {
    if 0 in body then None else DecodeUtf8(body)
  }

  ghost predicate Decodes(raw: seq<Byte>, d: Decoded) {
    match d.encoding
    case Utf16Little => MARK_LITTLE <= raw && exists units ::
      BytesOf(units, true) == raw[2..] && d.text == Decode16(units)
    case Utf16Big => MARK_BIG <= raw && exists units :: BytesOf(units, false) == raw[2..] && d.text == Decode16(units)
    case Utf8Marked => MARK_UTF8 <= raw && PlainText(raw[3..]) == Some(d.text)
    case Utf8 =>
      !(MARK_LITTLE <= raw) && !(MARK_BIG <= raw) && !(MARK_UTF8 <= raw) && PlainText(raw) == Some(d.text)
  }

  ghost predicate Readable(raw: seq<Byte>) {
    if MARK_LITTLE <= raw || MARK_BIG <= raw then |raw| % 2 == 0
    else if MARK_UTF8 <= raw then PlainText(raw[3..]).Some?
    else PlainText(raw).Some?
  }

  method DecodeText(raw: seq<Byte>) returns (d: Option<Decoded>)
    ensures d.Some? <==> Readable(raw)
    ensures d.Some? ==> Decodes(raw, d.value)
  {
    if MARK_LITTLE <= raw {
      var units := ReadUnits(raw[2..], true);
      return if units.None? then None else Some(Decoded(Decode16(units.value), Utf16Little));
    }
    if MARK_BIG <= raw {
      var units := ReadUnits(raw[2..], false);
      return if units.None? then None else Some(Decoded(Decode16(units.value), Utf16Big));
    }
    if MARK_UTF8 <= raw {
      var text := PlainText(raw[3..]);
      return if text.None? then None else Some(Decoded(text.value, Utf8Marked));
    }
    var text := PlainText(raw);
    return if text.None? then None else Some(Decoded(text.value, Utf8));
  }

  function Encoded(text: seq<Scalar>, encoding: Encoding): seq<Byte> {
    match encoding
    case Utf8 => EncodeUtf8(text)
    case Utf8Marked => MARK_UTF8 + EncodeUtf8(text)
    case Utf16Little => MARK_LITTLE + BytesOf(Encode16(text), true)
    case Utf16Big => MARK_BIG + BytesOf(Encode16(text), false)
  }

  method EncodeText(text: seq<Scalar>, encoding: Encoding) returns (raw: seq<Byte>)
    ensures raw == Encoded(text, encoding)
  {
    match encoding {
      case Utf8 => return EncodeUtf8(text);
      case Utf8Marked => return MARK_UTF8 + EncodeUtf8(text);
      case Utf16Little =>
        var bytes := WriteUnits(Encode16(text), true);
        return MARK_LITTLE + bytes;
      case Utf16Big =>
        var bytes := WriteUnits(Encode16(text), false);
        return MARK_BIG + bytes;
    }
  }

  ghost predicate LoneSurrogate(raw: seq<Byte>, little: bool) {
    |raw| >= 2 && exists units :: BytesOf(units, little) == raw[2..] && !WellFormed(units)
  }

  /** Decoding and encoding again gives back every byte, exactly unless a UTF-16 file holds a surrogate
    * outside a pair, which is replaced. */
  lemma FileRoundTrip(raw: seq<Byte>, d: Decoded)
    requires Decodes(raw, d)
    ensures Encoded(d.text, d.encoding) == raw <==>
      && (d.encoding == Utf16Little ==> !LoneSurrogate(raw, true))
      && (d.encoding == Utf16Big ==> !LoneSurrogate(raw, false))
  {
    match d.encoding
    case Utf16Little => UnitsRoundTrip(raw, d.text, MARK_LITTLE, true);
    case Utf16Big => UnitsRoundTrip(raw, d.text, MARK_BIG, false);
    case Utf8Marked => MarkedRoundTrip(raw, d.text);
    case Utf8 => EncodeDecodeUtf8(raw);
  }

  /** The file FF FE 00 D8: one high surrogate alone. It is read, and written back as another file. */
  lemma LoneSurrogateIsReplaced(raw: seq<Byte>)
    requires raw == [0xFF, 0xFE, 0x00, 0xD8]
    ensures Readable(raw) && Decodes(raw, Decoded([REPLACEMENT], Utf16Little))
    ensures Encoded([REPLACEMENT], Utf16Little) == [0xFF, 0xFE, 0xFD, 0xFF] != raw
  {
    var units: seq<Unit> := [0xD800];
    assert BytesOf(units, true) == BytesOf([], true) + UnitBytes(0xD800, true) == raw[2..];
    assert units[1..] == [] && Decode16(units) == [REPLACEMENT];
    var text: seq<Scalar> := [REPLACEMENT];
    assert text[1..] == [] && Encode16(text) == [0xFFFD];
    assert BytesOf([0xFFFD], true) == BytesOf([], true) + UnitBytes(0xFFFD, true);
  }

  lemma MarkedRoundTrip(raw: seq<Byte>, text: seq<Scalar>)
    requires MARK_UTF8 <= raw && DecodeUtf8(raw[3..]) == Some(text)
    ensures MARK_UTF8 + EncodeUtf8(text) == raw
  {
    EncodeDecodeUtf8(raw[3..]);
    assert raw == MARK_UTF8 + raw[3..];
  }

  lemma UnitsRoundTrip(raw: seq<Byte>, text: seq<Scalar>, mark: seq<Byte>, little: bool)
    requires |mark| == 2 && mark <= raw
    requires exists units :: BytesOf(units, little) == raw[2..] && text == Decode16(units)
    ensures mark + BytesOf(Encode16(text), little) == raw <==> !LoneSurrogate(raw, little)
  {
    var units :| BytesOf(units, little) == raw[2..] && text == Decode16(units);
    var again := Encode16(text);
    assert raw == mark + raw[2..];
    if WellFormed(units) {
      forall other | BytesOf(other, little) == raw[2..] ensures other == units {
        BytesDetermineUnits(other, units, little);
      }
      Encode16Decode16(units);
    } else {
      Decode16Encode16(text);
      var written := BytesOf(again, little);
      assert (mark + written)[2..] == written;
      if written == raw[2..] { BytesDetermineUnits(again, units, little); }
    }
  }

  /** Encoding text and decoding it again gives back text and encoding, exactly unless the text has a
    * NUL character, or begins with a byte order mark and is written without one. */
  lemma TextRoundTrip(text: seq<Scalar>, encoding: Encoding)
    ensures Decodes(Encoded(text, encoding), Decoded(text, encoding)) <==>
      && (encoding in {Utf8, Utf8Marked} ==> 0 !in text)
      && (encoding == Utf8 ==> text == [] || text[0] != 0xFEFF)
  {
    var raw := Encoded(text, encoding);
    match encoding
    case Utf16Little =>
      Decode16Encode16(text);
      assert raw[2..] == BytesOf(Encode16(text), true);
    case Utf16Big =>
      Decode16Encode16(text);
      assert raw[2..] == BytesOf(Encode16(text), false);
    case Utf8Marked =>
      assert raw[3..] == EncodeUtf8(text);
      DecodeEncodeUtf8(text);
      NulBytes(text);
    case Utf8 =>
      DecodeEncodeUtf8(text);
      NulBytes(text);
      FirstBytes(text);
  }

  lemma {:induction false} NulBytes(text: seq<Scalar>)
    ensures 0 in EncodeUtf8(text) <==> 0 in text
  {
    if text != [] {
      NulBytes(text[1..]);
      assert 0 in Utf8Of(text[0]) <==> text[0] == 0;
      assert text == [text[0]] + text[1..];
    }
  }

  /** UTF-8 never begins like a UTF-16 file, and begins with its own mark exactly for U+FEFF. */
  lemma FirstBytes(text: seq<Scalar>)
    ensures var raw := EncodeUtf8(text);
      !(MARK_LITTLE <= raw) && !(MARK_BIG <= raw) && (MARK_UTF8 <= raw <==> text != [] && text[0] == 0xFEFF)
  {
    if text != [] {
      var head := Utf8Of(text[0]);
      var raw := EncodeUtf8(text);
      ScalarRoundTrip(text[0], EncodeUtf8(text[1..]));
      assert raw[..|head|] == head && raw[0] == head[0];
      assert Utf8Of(0xFEFF) == MARK_UTF8;
      if MARK_UTF8 <= raw {
        assert raw[0] == 0xEF && raw[1] == 0xBB && raw[2] == 0xBF;
        assert Payload(raw) == 0xFEFF;
      }
    }
  }

  // ----- examples of the standards -----

  /** RFC 3629 section 7: one character of each length, both ways. */
  lemma Utf8Examples()
    ensures Utf8Of(0x41) == [0x41] && Utf8Of(0x391) == [0xCE, 0x91]
    ensures Utf8Of(0x2262) == [0xE2, 0x89, 0xA2] && Utf8Of(0x233B4) == [0xF0, 0xA3, 0x8E, 0xB4]
    ensures Utf8Of(0x7FF) == [0xDF, 0xBF] && Utf8Of(0x800) == [0xE0, 0xA0, 0x80]
    ensures Utf8Of(0xFFFF) == [0xEF, 0xBF, 0xBF] && Utf8Of(0x10000) == [0xF0, 0x90, 0x80, 0x80]
    ensures Utf8Of(0x7F) == [0x7F] && Utf8Of(0x80) == [0xC2, 0x80] && Utf8Of(0x10FFFF) == [0xF4, 0x8F, 0xBF, 0xBF]
  {
  }

  /** RFC 3629 sections 3 and 10: no longer form than needed, no surrogate, nothing beyond U+10FFFF, no lone
    * continuation and no cut sequence. */
  lemma InvalidUtf8()
    ensures !StartsScalar([0xC0, 0x80]) && !StartsScalar([0xE0, 0x9F, 0xBF]) && !StartsScalar([0xF0, 0x8F, 0xBF, 0xBF])
    ensures !StartsScalar([0xED, 0xA0, 0x80]) && !StartsScalar([0xF4, 0x90, 0x80, 0x80])
    ensures !StartsScalar([0x80]) && !StartsScalar([0xC3]) && !StartsScalar([0xC3, 0x28]) && !StartsScalar([0xFF])
  {
  }

  /** RFC 2781 sections 2.1 and 5: a pair, and its bytes in both orders. */
  lemma Utf16Examples()
    ensures UnitsOf(0x3D) == [0x3D] && UnitsOf(0x12345) == [0xD808, 0xDF45] && Pair(0xD808, 0xDF45) == 0x12345
    ensures UnitsOf(0x10000) == [0xD800, 0xDC00] && UnitsOf(0x10FFFF) == [0xDBFF, 0xDFFF]
    ensures BytesOf([0xD808, 0xDF45], false) == [0xD8, 0x08, 0xDF, 0x45]
    ensures BytesOf([0xD808, 0xDF45], true) == [0x08, 0xD8, 0x45, 0xDF]
    ensures UnitAt(0xD8, 0x08, false) == UnitAt(0x08, 0xD8, true) == 0xD808
    ensures MARK_BIG == [0xFE, 0xFF] && MARK_LITTLE == [0xFF, 0xFE] && MARK_UTF8 == [0xEF, 0xBB, 0xBF]
  {
    var units: seq<Unit> := [0xD808, 0xDF45];
    assert units[..1] == [0xD808] && units[..1][..0] == [];
    assert BytesOf(units[..1], false) == [0xD8, 0x08] && BytesOf(units[..1], true) == [0x08, 0xD8];
  }
}
