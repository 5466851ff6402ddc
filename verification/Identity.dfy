/** Opaque capture identities. SHA-256 is replaced by the identity on the hashed bytes, so two digests
  * are equal exactly when the framed inputs are; what is proved is that the framing is unambiguous and
  * that the identities of legacy lanes and of captured sets live in different namespaces. */
module Identity {
  import opened TextCodec

  const LENGTH_LIMIT := 0x1_0000_0000_0000_0000

  /** Big-endian bytes of a length, as many as asked for. */
  function BigEndian(n: nat, width: nat): (bytes: seq<Byte>)
    ensures |bytes| == width
  {
    if width == 0 then [] else BigEndian(n / 256, width - 1) + [n % 256]
  }

  function FrameOne(component: seq<Byte>): seq<Byte> {
    BigEndian(|component|, 8) + component
  }

  function Frame(components: seq<seq<Byte>>): seq<Byte> {
    if components == [] then [] else FrameOne(components[0]) + Frame(components[1..])
  }

  function Power256(width: nat): nat {
    if width == 0 then 1 else 256 * Power256(width - 1)
  }

  lemma {:induction false} BigEndianInjective(m: nat, n: nat, width: nat)
    requires BigEndian(m, width) == BigEndian(n, width)
    requires m < Power256(width) && n < Power256(width)
    ensures m == n
  {
    if width > 0 {
      var a, b := BigEndian(m, width), BigEndian(n, width);
      assert a[..width - 1] == BigEndian(m / 256, width - 1);
      assert b[..width - 1] == BigEndian(n / 256, width - 1);
      assert a[width - 1] == m % 256 && b[width - 1] == n % 256;
      BigEndianInjective(m / 256, n / 256, width - 1);
    }
  }

  ghost predicate Framable(components: seq<seq<Byte>>) {
    forall k :: 0 <= k < |components| ==> |components[k]| < LENGTH_LIMIT
  }

  /** The length-prefixed framing determines the whole tuple: no two different lists of components,
    * of any arity, hash the same bytes. */
  lemma {:induction false} FrameInjective(one: seq<seq<Byte>>, two: seq<seq<Byte>>)
    requires Framable(one) && Framable(two) && Frame(one) == Frame(two)
    ensures one == two
  {
    if one != [] && two != [] {
      var a, b := one[0], two[0];
      var f := Frame(one);
      assert f[..8] == BigEndian(|a|, 8) && f[..8] == BigEndian(|b|, 8);
      assert Power256(8) == LENGTH_LIMIT by { assert Power256(4) == 0x1_0000_0000; }
      BigEndianInjective(|a|, |b|, 8);
      assert f[8..8 + |a|] == a && f[8..8 + |b|] == b;
      assert f[8 + |a|..] == Frame(one[1..]) && f[8 + |b|..] == Frame(two[1..]);
      FrameInjective(one[1..], two[1..]);
      assert one == [a] + one[1..] && two == [b] + two[1..];
    }
  }

  // ----- the bytes of a text and the text of a digest -----

  function ScalarsOf(s: string): seq<Scalar> {
    seq(|s|, i requires 0 <= i < |s| => s[i] as int)
  }

  function Utf8Bytes(s: string): seq<Byte> {
    EncodeUtf8(ScalarsOf(s))
  }

  lemma Utf8BytesInjective(a: string, b: string)
    requires Utf8Bytes(a) == Utf8Bytes(b)
    ensures a == b
  {
    DecodeEncodeUtf8(ScalarsOf(a));
    DecodeEncodeUtf8(ScalarsOf(b));
    assert |a| == |ScalarsOf(a)| == |b|;
    assert forall i :: 0 <= i < |a| ==> a[i] as int == ScalarsOf(a)[i];
  }

  const HEX: string := "0123456789abcdef"

  function Hex(bytes: seq<Byte>): string {
    if bytes == [] then "" else [HEX[bytes[0] / 16], HEX[bytes[0] % 16]] + Hex(bytes[1..])
  }

  lemma {:induction false} HexText(bytes: seq<Byte>)
    ensures |Hex(bytes)| == 2 * |bytes| && forall i :: 0 <= i < |Hex(bytes)| ==> Hex(bytes)[i] in HEX
  {
    if bytes != [] { HexText(bytes[1..]); }
  }

  lemma HexSteps(bytes: seq<Byte>)
    requires bytes != []
    ensures |Hex(bytes)| >= 2 && Hex(bytes)[0] == HEX[bytes[0] / 16] && Hex(bytes)[1] == HEX[bytes[0] % 16]
    ensures Hex(bytes)[2..] == Hex(bytes[1..])
  {
  }

  lemma HexDigits(i: nat, j: nat)
    requires i < 16 && j < 16 && HEX[i] == HEX[j]
    ensures i == j
  {
  }

  lemma {:induction false} HexInjective(a: seq<Byte>, b: seq<Byte>)
    requires Hex(a) == Hex(b)
    ensures a == b
  {
    HexText(a);
    HexText(b);
    if a != [] {
      HexSteps(a);
      HexSteps(b);
      HexDigits(a[0] / 16, b[0] / 16);
      HexDigits(a[0] % 16, b[0] % 16);
      HexInjective(a[1..], b[1..]);
      assert a == [a[0]] + a[1..] && b == [b[0]] + b[1..];
    }
  }

  // ----- the two identities -----

  /** The text "endstate", "legacy-config-capture", "v1", each ended by a NUL, in UTF-8. */
  const LEGACY_DOMAIN: seq<Byte> := [
    0x65, 0x6E, 0x64, 0x73, 0x74, 0x61, 0x74, 0x65, 0x00, 0x6C, 0x65, 0x67, 0x61, 0x63, 0x79, 0x2D,
    0x63, 0x6F, 0x6E, 0x66, 0x69, 0x67, 0x2D, 0x63, 0x61, 0x70, 0x74, 0x75, 0x72, 0x65, 0x00, 0x76,
    0x31, 0x00
  ]

  /** What is hashed for a legacy lane. */
  function LegacyFrame(moduleID: string): seq<Byte> {
    LEGACY_DOMAIN + FrameOne(Utf8Bytes(moduleID))
  }

  /** What is hashed for a captured set. */
  function CaptureFrame(moduleID: string, setID: string, instanceID: string): seq<Byte> {
    Frame([Utf8Bytes(moduleID), Utf8Bytes(setID), Utf8Bytes(instanceID)])
  }

  function LegacyCaptureID(moduleID: string): string {
    "legacy-" + Hex(LegacyFrame(moduleID))
  }

  function CaptureID(moduleID: string, setID: string, instanceID: string): string {
    "capture-" + Hex(CaptureFrame(moduleID, setID, instanceID))
  }

  /** Different modules have different lane identities, whatever their length. */
  lemma LegacyCaptureIDInjective(a: string, b: string)
    requires LegacyCaptureID(a) == LegacyCaptureID(b)
    ensures a == b
  {
    assert Hex(LegacyFrame(a)) == LegacyCaptureID(a)[7..] && Hex(LegacyFrame(b)) == LegacyCaptureID(b)[7..];
    HexInjective(LegacyFrame(a), LegacyFrame(b));
    var skip := |LEGACY_DOMAIN| + 8;
    assert LegacyFrame(a)[skip..] == Utf8Bytes(a) && LegacyFrame(b)[skip..] == Utf8Bytes(b);
    Utf8BytesInjective(a, b);
  }

  ghost predicate Hashable(moduleID: string, setID: string, instanceID: string) {
    Framable([Utf8Bytes(moduleID), Utf8Bytes(setID), Utf8Bytes(instanceID)])
  }

  /** Different triples have different identities: no text moves from one part to the next. */
  lemma CaptureIDInjective(m1: string, s1: string, i1: string, m2: string, s2: string, i2: string)
    requires Hashable(m1, s1, i1) && Hashable(m2, s2, i2)
    requires CaptureID(m1, s1, i1) == CaptureID(m2, s2, i2)
    ensures m1 == m2 && s1 == s2 && i1 == i2
  {
    assert Hex(CaptureFrame(m1, s1, i1)) == CaptureID(m1, s1, i1)[8..];
    assert Hex(CaptureFrame(m2, s2, i2)) == CaptureID(m2, s2, i2)[8..];
    HexInjective(CaptureFrame(m1, s1, i1), CaptureFrame(m2, s2, i2));
    FrameInjective([Utf8Bytes(m1), Utf8Bytes(s1), Utf8Bytes(i1)], [Utf8Bytes(m2), Utf8Bytes(s2), Utf8Bytes(i2)]);
    Utf8BytesInjective(m1, m2);
    Utf8BytesInjective(s1, s2);
    Utf8BytesInjective(i1, i2);
  }

  /** The identity of a lane is never the identity of a captured set. */
  lemma KindsDiffer(lane: string, moduleID: string, setID: string, instanceID: string)
    ensures LegacyCaptureID(lane) != CaptureID(moduleID, setID, instanceID)
  {
    assert LegacyCaptureID(lane)[0] == 'l' && CaptureID(moduleID, setID, instanceID)[0] == 'c';
  }

  lemma {:induction false} SmallLengthStartsWithZero(n: nat, width: nat)
    requires width >= 1 && n < Power256(width - 1)
    ensures BigEndian(n, width)[0] == 0
  {
    if width == 1 {
      assert BigEndian(0, 1) == [] + [0];
    } else {
      SmallLengthStartsWithZero(n / 256, width - 1);
    }
  }

  /** The two kinds of identity never coincide, and not even their digests do: what is hashed for a
    * lane begins with a letter, what is hashed for a set with the high byte of a length. */
  lemma NamespacesAreDisjoint(lane: string, moduleID: string, setID: string, instanceID: string)
    requires |Utf8Bytes(moduleID)| < 0x100_0000_0000_0000
    ensures LegacyCaptureID(lane) != CaptureID(moduleID, setID, instanceID)
    ensures Hex(LegacyFrame(lane)) != Hex(CaptureFrame(moduleID, setID, instanceID))
  {
    KindsDiffer(lane, moduleID, setID, instanceID);
    assert LegacyFrame(lane)[0] == 0x65;
    var parts := [Utf8Bytes(moduleID), Utf8Bytes(setID), Utf8Bytes(instanceID)];
    assert Power256(7) == 0x100_0000_0000_0000 by { assert Power256(3) == 0x100_0000; }
    SmallLengthStartsWithZero(|parts[0]|, 8);
    assert CaptureFrame(moduleID, setID, instanceID)[0] == 0;
    if Hex(LegacyFrame(lane)) == Hex(CaptureFrame(moduleID, setID, instanceID)) {
      HexInjective(LegacyFrame(lane), CaptureFrame(moduleID, setID, instanceID));
    }
  }
}
