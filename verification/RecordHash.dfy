/**
  The RECORD digest comparison: unpadded URL-safe base64 (section 5 of RFC 4648) of the
  installed bytes' digest against the recorded text.
 */
module RecordHash {
  import opened Options
  import opened Texts

  newtype Byte = b: int | 0 <= b < 256
  type Bytes = seq<Byte>

  const PAD: Code := 0x3D

  /** The URL-safe alphabet: letters, digits, hyphen and underscore. */
  function Letter(v: Code): (c: Code)
    requires v < 64
    ensures c != PAD && LetterValue(c) == Some(v)
  {
    if v < 26 then 0x41 + v
    else if v < 52 then 0x61 + (v - 26)
    else if v < 62 then 0x30 + (v - 52)
    else if v == 62 then 0x2D
    else 0x5F
  }

  function LetterValue(c: Code): (v: Option<Code>)
    ensures v.Some? ==> v.value < 64
  {
    if 0x41 <= c <= 0x5A then Some(c - 0x41)
    else if 0x61 <= c <= 0x7A then Some(c - 0x61 + 26)
    else if 0x30 <= c <= 0x39 then Some(c - 0x30 + 52)
    else if c == 0x2D then Some(62)
    else if c == 0x5F then Some(63)
    else None
  }

  lemma LetterOf(c: Code)
    ensures LetterValue(c).Some? ==> Letter(LetterValue(c).value) == c
  {
  }

  /** The sextets of one to three bytes. */
  function First(a: Byte): (v: Code)
    ensures v < 64
  {
    (a / 4) as Code
  }

  function Second(a: Byte, b: Byte): (v: Code)
    ensures v < 64
  {
    (a % 4 * 16 + b / 16) as Code
  }

  function Third(b: Byte, c: Byte): (v: Code)
    ensures v < 64
  {
    (b % 16 * 4 + c / 64) as Code
  }

  function Fourth(c: Byte): (v: Code)
    ensures v < 64
  {
    (c % 64) as Code
  }

  /** base64.urlsafe_b64encode: groups of three bytes, the last one padded. */
  function Encode(bs: Bytes): Text {
    if bs == [] then []
    else if |bs| == 1 then [Letter(First(bs[0])), Letter(Second(bs[0], 0)), PAD, PAD]
    else if |bs| == 2 then [Letter(First(bs[0])), Letter(Second(bs[0], bs[1])), Letter(Third(bs[1], 0)), PAD]
    else
      [Letter(First(bs[0])), Letter(Second(bs[0], bs[1])), Letter(Third(bs[1], bs[2])), Letter(Fourth(bs[2]))]
      + Encode(bs[3..])
  }

  /** rstrip("="). */
  function StripPads(t: Text): Text {
    if t != [] && t[|t| - 1] == PAD then StripPads(t[..|t| - 1]) else t
  }

  function RecordText(bs: Bytes): Text {
    StripPads(Encode(bs))
  }

  /** Strict decoding of unpadded text: no stray letter, and no bit set that no byte uses. */
  function Decode(t: Text): Option<Bytes> {
    if t == [] then Some([])
    else if |t| == 1 then None
    else
      var a :- LetterValue(t[0]);
      var b :- LetterValue(t[1]);
      var first := (a * 4 + b / 16) as Byte;
      if |t| == 2 then if b % 16 == 0 then Some([first]) else None
      else
        var c :- LetterValue(t[2]);
        var second := (b % 16 * 16 + c / 4) as Byte;
        if |t| == 3 then if c % 4 == 0 then Some([first, second]) else None
        else
          var d :- LetterValue(t[3]);
          var rest :- Decode(t[4..]);
          Some([first, second, (c % 4 * 64 + d) as Byte] + rest)
  }

  // ----- stripping removes the padding and nothing else

  function Unpadded(bs: Bytes): (t: Text)
    ensures forall i :: 0 <= i < |t| ==> t[i] != PAD
  {
    if bs == [] then []
    else if |bs| == 1 then [Letter(First(bs[0])), Letter(Second(bs[0], 0))]
    else if |bs| == 2 then [Letter(First(bs[0])), Letter(Second(bs[0], bs[1])), Letter(Third(bs[1], 0))]
    else
      [Letter(First(bs[0])), Letter(Second(bs[0], bs[1])), Letter(Third(bs[1], bs[2])), Letter(Fourth(bs[2]))]
      + Unpadded(bs[3..])
  }

  function Pads(n: nat): Text {
    if n % 3 == 1 then [PAD, PAD] else if n % 3 == 2 then [PAD] else []
  }

  lemma {:induction false} EncodeSplits(bs: Bytes)
    ensures Encode(bs) == Unpadded(bs) + Pads(|bs|)
  {
    hide Letter, First, Second, Third, Fourth;
    if |bs| >= 3 {
      EncodeSplits(bs[3..]);
      assert |bs[3..]| % 3 == |bs| % 3;
    }
  }

  lemma StripEnds(t: Text)
    requires forall i :: 0 <= i < |t| ==> t[i] != PAD
    ensures StripPads(t) == StripPads(t + [PAD]) == StripPads(t + [PAD, PAD]) == t
  {
    assert (t + [PAD])[..|t|] == t;
    assert (t + [PAD, PAD])[..|t| + 1] == t + [PAD];
  }

  lemma RecordUnpadded(bs: Bytes)
    ensures RecordText(bs) == Unpadded(bs)
  {
    EncodeSplits(bs);
    StripEnds(Unpadded(bs));
    hide Encode, Unpadded, StripPads;
    assert Unpadded(bs) + [] == Unpadded(bs);
  }

  // ----- round trips

  lemma Sextets(a: Byte, b: Byte, c: Byte)
    ensures (First(a) * 4 + Second(a, b) / 16) as int == a as int
    ensures (Second(a, b) % 16 * 16 + Third(b, c) / 4) as int == b as int
    ensures (Third(b, c) % 4 * 64 + Fourth(c)) as int == c as int
    ensures b == 0 ==> Second(a, b) % 16 == 0
    ensures c == 0 ==> Third(b, c) % 4 == 0
  {
  }

  /** Decoding what was encoded and stripped is the identity on every byte sequence. */
  lemma {:induction false} DecodeRecord(bs: Bytes)
    ensures Decode(RecordText(bs)) == Some(bs)
  {
    RecordUnpadded(bs);
    hide RecordText, First, Second, Third, Fourth, Letter, LetterValue;
    if bs == [] {
    } else if |bs| == 1 {
      Sextets(bs[0], 0, 0);
      assert bs == [bs[0]];
      assert |Unpadded(bs)| == 2;
    } else if |bs| == 2 {
      Sextets(bs[0], bs[1], 0);
      assert bs == [bs[0], bs[1]];
    } else {
      Sextets(bs[0], bs[1], bs[2]);
      DecodeRecord(bs[3..]);
      RecordUnpadded(bs[3..]);
      assert bs == [bs[0], bs[1], bs[2]] + bs[3..];
      assert Unpadded(bs)[4..] == Unpadded(bs[3..]);
    }
  }

  lemma Octets(a: Code, b: Code, c: Code, d: Code)
    requires a < 64 && b < 64 && c < 64 && d < 64
    ensures First((a * 4 + b / 16) as Byte) == a
    ensures Second((a * 4 + b / 16) as Byte, (b % 16 * 16 + c / 4) as Byte) == b
    ensures Third((b % 16 * 16 + c / 4) as Byte, (c % 4 * 64 + d) as Byte) == c
    ensures Fourth((c % 4 * 64 + d) as Byte) == d
    ensures b % 16 == 0 ==> Second((a * 4 + b / 16) as Byte, 0) == b
    ensures c % 4 == 0 ==> Third((b % 16 * 16 + c / 4) as Byte, 0) == c
  {
  }

  lemma {:induction false} RecordDecode(t: Text)
    requires Decode(t).Some?
    ensures Unpadded(Decode(t).value) == t
    decreases |t|
  {
    hide Letter, LetterValue, First, Second, Third, Fourth;
    if |t| >= 2 {
      var a, b := LetterValue(t[0]).value, LetterValue(t[1]).value;
      var c := if |t| > 2 then LetterValue(t[2]).value else 0;
      var d := if |t| > 3 then LetterValue(t[3]).value else 0;
      Octets(a, b, c, d);
      LetterOf(t[0]);
      LetterOf(t[1]);
      if |t| > 2 { LetterOf(t[2]); }
      if |t| > 3 {
        LetterOf(t[3]);
        RecordDecode(t[4..]);
        assert Decode(t).value[3..] == Decode(t[4..]).value;
      }
    }
  }

  /** A text is the record of a digest exactly when strict decoding gives the digest: the two are one to one. */
  lemma RecordExactly(bs: Bytes, t: Text)
    ensures t == RecordText(bs) <==> Decode(t) == Some(bs)
  {
    hide *;
    DecodeRecord(bs);
    RecordUnpadded(bs);
    if Decode(t).Some? {
      RecordDecode(t);
    }
  }

  // ----- the check

  /** installed_record_value != record_hash.value, for a hash mode that is sha256. */
  predicate InstalledMatches(sha256: Bytes -> Bytes, installed: Bytes, mode: Text, recorded: Text) {
    mode == Ascii("sha256") && RecordText(sha256(installed)) == recorded
  }

  /** The comparison of texts passes exactly when the installed digest is the recorded one. */
  lemma CheckComparesDigests(sha256: Bytes -> Bytes, installed: Bytes, recorded: Bytes)
    ensures InstalledMatches(sha256, installed, Ascii("sha256"), RecordText(recorded)) <==> sha256(installed) == recorded
  {
    hide RecordText, Decode;
    RecordExactly(sha256(installed), RecordText(recorded));
    RecordExactly(recorded, RecordText(recorded));
  }

  /** Any other recorded text, padded or misspelled, is refused whatever is installed. */
  lemma CheckRefusesOthers(sha256: Bytes -> Bytes, installed: Bytes, mode: Text, recorded: Text)
    requires Decode(recorded).None? || PAD in recorded
    ensures !InstalledMatches(sha256, installed, mode, recorded)
  {
    hide RecordText, Decode, Unpadded;
    RecordExactly(sha256(installed), recorded);
    RecordUnpadded(sha256(installed));
  }

  // ----- the text, letter by letter

  /** The URL-safe alphabet by its characters: capitals, small letters, digits, hyphen, underscore. */
  function AlphabetAt(v: nat): int
    requires v < 64
  {
    if v < 26 then 'A' as int + v
    else if v < 52 then 'a' as int + v - 26
    else if v < 62 then '0' as int + v - 52
    else if v == 62 then '-' as int
    else '_' as int
  }

  /** The byte at a place, zero behind the last one. */
  function ByteAt(bs: Bytes, i: nat): (n: nat)
    ensures n < 256
  {
    if i < |bs| then bs[i] as int else 0
  }

  /** The i-th six bits of the bytes, three bytes at a time read as one number of 24 bits (section 4 of RFC 4648). */
  function SixBits(bs: Bytes, i: nat): (n: nat)
    ensures n < 64
  {
    var group := 0x1_0000 * ByteAt(bs, i / 4 * 3) + 0x100 * ByteAt(bs, i / 4 * 3 + 1) + ByteAt(bs, i / 4 * 3 + 2);
    match i % 4
    case 0 => group / 64 / 64 / 64 % 64
    case 1 => group / 64 / 64 % 64
    case 2 => group / 64 % 64
    case _ => group % 64
  }

  lemma Split64(q: nat, r: nat)
    requires r < 64
    ensures (64 * q + r) / 64 == q && (64 * q + r) % 64 == r
  {
  }

  /** The four digits of a number of 24 bits to the base 64. */
  lemma FourDigits(p: nat, q: nat, r: nat, s: nat)
    requires p < 64 && q < 64 && r < 64 && s < 64
    ensures var n := 64 * (64 * (64 * p + q) + r) + s;
            n / 64 / 64 / 64 % 64 == p && n / 64 / 64 % 64 == q && n / 64 % 64 == r && n % 64 == s
  {
    Split64(64 * (64 * p + q) + r, s);
    Split64(64 * p + q, r);
    Split64(p, q);
  }

  lemma BytesAsDigits(a: nat, b: nat, c: nat)
    ensures 0x1_0000 * a + 0x100 * b + c
            == 64 * (64 * (64 * (a / 4) + (a % 4 * 16 + b / 16)) + (b % 16 * 4 + c / 64)) + c % 64
  {
    assert a == 4 * (a / 4) + a % 4 && b == 16 * (b / 16) + b % 16 && c == 64 * (c / 64) + c % 64;
  }

  lemma SextetsAre(a: Byte, b: Byte, c: Byte)
    ensures First(a) as int == a as int / 4 && Second(a, b) as int == a as int % 4 * 16 + b as int / 16
    ensures Third(b, c) as int == b as int % 16 * 4 + c as int / 64 && Fourth(c) as int == c as int % 64
  {
  }

  lemma GroupDigits(a: Byte, b: Byte, c: Byte)
    ensures var n := 0x1_0000 * (a as int) + 0x100 * (b as int) + (c as int);
            && n / 64 / 64 / 64 % 64 == First(a) as int && n / 64 / 64 % 64 == Second(a, b) as int
            && n / 64 % 64 == Third(b, c) as int && n % 64 == Fourth(c) as int
  {
    SextetsAre(a, b, c);
    BytesAsDigits(a as int, b as int, c as int);
    FourDigits(First(a) as int, Second(a, b) as int, Third(b, c) as int, Fourth(c) as int);
    hide *;
  }

  lemma SixBitsAt(bs: Bytes, i: nat)
    requires |bs| >= 1 && i < 4
    ensures var b: Byte := if |bs| > 1 then bs[1] else 0; var c: Byte := if |bs| > 2 then bs[2] else 0;
            SixBits(bs, i) == (match i case 0 => First(bs[0]) case 1 => Second(bs[0], b) case 2 => Third(b, c) case _ => Fourth(c)) as int
  {
    var b: Byte := if |bs| > 1 then bs[1] else 0;
    var c: Byte := if |bs| > 2 then bs[2] else 0;
    BytesAre(bs, b, c);
    hide *;
    GroupDigits(bs[0], b, c);
    SixBitsIs(bs, i, bs[0] as int, b as int, c as int);
  }

  lemma BytesAre(bs: Bytes, b: Byte, c: Byte)
    requires |bs| >= 1 && b == (if |bs| > 1 then bs[1] else 0) && c == (if |bs| > 2 then bs[2] else 0)
    ensures ByteAt(bs, 0) == bs[0] as int && ByteAt(bs, 1) == b as int && ByteAt(bs, 2) == c as int
  {
  }

  lemma SixBitsIs(bs: Bytes, i: nat, a: nat, b: nat, c: nat)
    requires i < 4 && ByteAt(bs, 0) == a && ByteAt(bs, 1) == b && ByteAt(bs, 2) == c
    ensures var group := 0x1_0000 * a + 0x100 * b + c;
            SixBits(bs, i) == match i
                              case 0 => group / 64 / 64 / 64 % 64
                              case 1 => group / 64 / 64 % 64
                              case 2 => group / 64 % 64
                              case _ => group % 64
  {
    hide ByteAt;
    assert i / 4 == 0 && i % 4 == i;
  }

  lemma SixBitsNext(bs: Bytes, i: nat)
    requires |bs| >= 3 && i >= 4
    ensures SixBits(bs, i) == SixBits(bs[3..], i - 4)
  {
    assert (i - 4) / 4 == i / 4 - 1 && (i - 4) % 4 == i % 4;
  }

  /** The record text has four letters for three bytes, the last ones short; each spells its six bits. */
  lemma {:induction false} RecordSpelled(bs: Bytes)
    ensures var t := RecordText(bs);
            && |t| == (4 * |bs| + 2) / 3
            && forall i :: 0 <= i < |t| ==> t[i] as int == AlphabetAt(SixBits(bs, i))
    decreases |bs|
  {
    RecordUnpadded(bs);
    hide RecordText, SixBits, First, Second, Third, Fourth;
    var t := Unpadded(bs);
    if |bs| >= 1 {
      SixBitsAt(bs, 0);
      SixBitsAt(bs, 1);
      SixBitsAt(bs, 2);
      SixBitsAt(bs, 3);
    }
    if |bs| >= 3 {
      RecordSpelled(bs[3..]);
      RecordUnpadded(bs[3..]);
      forall i | 4 <= i < |t| ensures t[i] as int == AlphabetAt(SixBits(bs, i)) {
        SixBitsNext(bs, i);
        assert t[i] == Unpadded(bs[3..])[i - 4];
      }
    }
  }
}
