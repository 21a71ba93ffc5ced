/** The two base64 encoders, the decoder, and the unpadded URL form of tokens. Here an octet is a
    `bv8`, because the code works on bits: a group of three octets is four sextets, and the last group
    may be shorter. */
module Base64 {
  import opened Wrappers
  import opened Sequences

  type Bytes = seq<bv8>

  const DOT: bv8 := 0x2E
  const EQUALS: bv8 := 0x3D

  /** `base64_chars[url][i]`: the two alphabets differ in their last two characters. */
  function Char(i: bv8, url: bool): bv8
    requires i < 64
  {
    if i < 26 then i + 65
    else if i < 52 then i + 71
    else if i < 62 then i - 4
    else if i == 62 then (if url then 0x2D else 0x2B)
    else if url then 0x5F else 0x2F
  }

  /** `pos_of_char`: both alphabets are read; anything else throws. */
  function PosOfChar(c: bv8): (r: Option<bv8>)
    ensures r.Some? ==> r.value < 64
  {
    if 65 <= c <= 90 then Some(c - 65)
    else if 97 <= c <= 122 then Some(c - 71)
    else if 48 <= c <= 57 then Some(c + 4)
    else if c == 0x2B || c == 0x2D then Some(62)
    else if c == 0x2F || c == 0x5F then Some(63)
    else None
  }

  predicate IsPad(c: bv8) { c == EQUALS || c == DOT }

  lemma CharInverts(i: bv8, url: bool)
    requires i < 64
    ensures PosOfChar(Char(i, url)) == Some(i) && !IsPad(Char(i, url))
  {
  }

  /** Reading a character of the right alphabet and writing it again gives it back. */
  lemma PosInverts(c: bv8, url: bool)
    requires PosOfChar(c).Some? && (if url then c != 0x2B && c != 0x2F else c != 0x2D && c != 0x5F)
    ensures Char(PosOfChar(c).value, url) == c
  {
  }

  // ---- The alphabets of sections 4 and 5 of RFC 4648, written out

  const ROW0: string := "ABCDEFGHIJKLMNOP"
  const ROW1: string := "QRSTUVWXYZabcdef"
  const ROW2: string := "ghijklmnopqrstuv"
  const ROW3: string := "wxyz0123456789+/"
  const URL_ROW3: string := "wxyz0123456789-_"

  function Alphabet(url: bool): string { ROW0 + (ROW1 + (ROW2 + if url then URL_ROW3 else ROW3)) }

  /** The padding: a dot in the URL form, and else the equals sign. */
  function Padding(url: bool): int { if url then 46 else 61 }

  /** The octets of the alphabets by ranges. */
  function CodeAt(i: nat, url: bool): int {
    if i < 26 then i + 65 else if i < 52 then i + 71 else if i < 62 then i - 4
    else if i == 62 then (if url then 45 else 43) else if url then 95 else 47
  }

  lemma FirstRowsAt(i: nat, url: bool)
    requires i < 16
    ensures |ROW0| == |ROW1| == |ROW2| == 16
    ensures ROW0[i] as int == CodeAt(i, url) && ROW1[i] as int == CodeAt(i + 16, url)
    ensures ROW2[i] as int == CodeAt(i + 32, url)
  {
  }

  lemma LastRowAt(i: nat)
    requires i < 16
    ensures |ROW3| == |URL_ROW3| == 16
    ensures ROW3[i] as int == CodeAt(i + 48, false) && URL_ROW3[i] as int == CodeAt(i + 48, true)
  {
  }

  lemma InRows(a: string, b: string, c: string, d: string, i: nat)
    requires |a| == |b| == |c| == |d| == 16 && i < 64
    ensures |a + (b + (c + d))| == 64
    ensures (a + (b + (c + d)))[i]
         == if i < 16 then a[i] else if i < 32 then b[i - 16] else if i < 48 then c[i - 32] else d[i - 48]
  {
  }

  lemma CharAsInt(i: nat, url: bool)
    requires i < 64
    ensures Char(i as bv8, url) as int == CodeAt(i, url)
  {
    var b := i as bv8;
    if i < 26 { assert (b + 65) as int == i + 65; }
    else if i < 52 { assert (b + 71) as int == i + 71; }
    else if i < 62 { assert (b - 4) as int == i - 4; }
  }

  lemma AlphabetCode(i: nat, url: bool)
    requires i < 64
    ensures |Alphabet(url)| == 64 && Alphabet(url)[i] as int == CodeAt(i, url)
  {
    var j := if i < 16 then i else if i < 32 then i - 16 else if i < 48 then i - 32 else i - 48;
    FirstRowsAt(j, url);
    LastRowAt(j);
    InRows(ROW0, ROW1, ROW2, if url then URL_ROW3 else ROW3, i);
  }

  /** `Char` writes the alphabet: the entry at `i`. */
  lemma AlphabetAt(i: nat, url: bool)
    requires i < 64
    ensures |Alphabet(url)| == 64 && Alphabet(url)[i] as int == Char(i as bv8, url) as int
  {
    AlphabetCode(i, url);
    CharAsInt(i, url);
  }

  // ---- One group of three octets and four characters

  function Six0(a: bv8): (r: bv8) ensures r < 64 { (a & 0xFC) >> 2 }

  function Six1(a: bv8, b: bv8): (r: bv8) ensures r < 64 { ((a & 0x03) << 4) + ((b & 0xF0) >> 4) }

  function Six2(b: bv8, c: bv8): (r: bv8) ensures r < 64 { ((b & 0x0F) << 2) + ((c & 0xC0) >> 6) }

  function Six3(c: bv8): (r: bv8) ensures r < 64 { c & 0x3F }

  function Octet0(p0: bv8, p1: bv8): bv8 { (p0 << 2) + ((p1 & 0x30) >> 4) }

  function Octet1(p1: bv8, p2: bv8): bv8 { ((p1 & 0x0F) << 4) + ((p2 & 0x3C) >> 2) }

  function Octet2(p2: bv8, p3: bv8): bv8 { ((p2 & 0x03) << 6) + p3 }

  lemma GroupInverts(a: bv8, b: bv8, c: bv8)
    ensures Octet0(Six0(a), Six1(a, b)) == a
    ensures Octet1(Six1(a, b), Six2(b, c)) == b
    ensures Octet2(Six2(b, c), Six3(c)) == c
  {
  }

  lemma GroupInvertsBack(p0: bv8, p1: bv8, p2: bv8, p3: bv8)
    requires p0 < 64 && p1 < 64 && p2 < 64 && p3 < 64
    ensures var a, b, c := Octet0(p0, p1), Octet1(p1, p2), Octet2(p2, p3);
            Six0(a) == p0 && Six1(a, b) == p1 && Six2(b, c) == p2 && Six3(c) == p3
    ensures p2 & 0x03 == 0 ==> Six2(Octet1(p1, p2), 0) == p2
    ensures p1 & 0x0F == 0 ==> Six1(Octet0(p0, p1), 0) == p1
  {
  }

  // ---- Encoding and decoding

  function Group(s: Bytes, url: bool): Bytes
    requires s != []
  {
    var pad := if url then DOT else EQUALS;
    if |s| == 1 then [Char(Six0(s[0]), url), Char(Six1(s[0], 0), url), pad, pad]
    else if |s| == 2 then [Char(Six0(s[0]), url), Char(Six1(s[0], s[1]), url), Char(Six2(s[1], 0), url), pad]
    else [Char(Six0(s[0]), url), Char(Six1(s[0], s[1]), url), Char(Six2(s[1], s[2]), url), Char(Six3(s[2]), url)]
  }

  function Encode(s: Bytes, url: bool): Bytes
    decreases |s|
  {
    if s == [] then [] else if |s| <= 3 then Group(s, url) else Group(s[..3], url) + Encode(s[3..], url)
  }

  /** The first three octets, or what is left. */
  function Front(s: Bytes): Bytes { if |s| <= 3 then s else s[..3] }

  function Behind(s: Bytes): Bytes { if |s| <= 3 then [] else s[3..] }

  /** One round of `base64_encode`. */
  method EncodeRound(bytes: Bytes, pos: nat, url: bool) returns (ret: Bytes)
    requires pos < |bytes|
    ensures ret == Group(Front(bytes[pos..]), url)
  {
    var trailing := if url then DOT else EQUALS;
    ret := [Char(Six0(bytes[pos]), url)];
    if pos + 1 < |bytes| {
      ret := ret + [Char(Six1(bytes[pos], bytes[pos + 1]), url)];
      if pos + 2 < |bytes| {
        ret := ret + [Char(Six2(bytes[pos + 1], bytes[pos + 2]), url)];
        ret := ret + [Char(Six3(bytes[pos + 2]), url)];
      } else {
        SecondAlone(bytes[pos + 1]);
        ret := ret + [Char((bytes[pos + 1] & 0x0F) << 2, url)];
        ret := ret + [trailing];
      }
    } else {
      FirstAlone(bytes[pos]);
      ret := ret + [Char((bytes[pos] & 0x03) << 4, url)];
      ret := ret + [trailing];
      ret := ret + [trailing];
    }
  }

  /** `base64_encode`. */
  method Base64Encode(bytes: Bytes, url: bool) returns (ret: Bytes)
    ensures ret == Encode(bytes, url)
  {
    ret := [];
    var pos := 0;
    assert bytes[0..] == bytes && [] + Encode(bytes, url) == Encode(bytes, url);
    while pos < |bytes|
      invariant ret + Encode(Suffix(bytes, pos), url) == Encode(bytes, url)
      decreases |bytes| - pos
    {
      var group := EncodeRound(bytes, pos, url);
      EncodeStep(bytes[pos..], url);
      assert Behind(bytes[pos..]) == Suffix(bytes, pos + 3);
      Assoc(ret, group, Encode(Suffix(bytes, pos + 3), url));
      ret := ret + group;
      pos := pos + 3;
    }
    assert ret + [] == ret;
  }

  function Suffix(s: Bytes, pos: nat): Bytes { if pos < |s| then s[pos..] else [] }

  lemma FirstAlone(a: bv8)
    ensures (a & 0x03) << 4 < 64 && (a & 0x03) << 4 == Six1(a, 0)
  {
  }

  lemma SecondAlone(b: bv8)
    ensures (b & 0x0F) << 2 < 64 && (b & 0x0F) << 2 == Six2(b, 0)
  {
  }

  lemma EncodeStep(s: Bytes, url: bool)
    requires s != []
    ensures Encode(s, url) == Group(Front(s), url) + Encode(Behind(s), url)
  {
    if |s| <= 3 { assert Group(s, url) + [] == Group(s, url); }
  }

  /** The last, incomplete group of the streaming encoder. */
  method FlushRest(charArray: array<bv8>, held: nat) returns (result: Bytes)
    requires charArray.Length == 3 && 0 < held < 3
    ensures result == Group(charArray[..held], false)
  {
    FirstAlone(charArray[0]);
    SecondAlone(charArray[1]);
    result := [Char(Six0(charArray[0]), false)];
    if held == 1 {
      result := result + [Char((charArray[0] & 0x03) << 4, false)];
    } else {
      result := result + [Char(Six1(charArray[0], charArray[1]), false), Char((charArray[1] & 0x0F) << 2, false)];
    }
    var c := held + 1;
    while c < 4
      invariant held + 1 <= c <= 4
      invariant result + (if c == 2 then [EQUALS, EQUALS] else if c == 3 then [EQUALS] else [])
             == Group(charArray[..held], false)
    {
      result := result + [EQUALS];
      c := c + 1;
    }
    assert result + [] == result;
  }

  /** `http::encodeBase64` of the client: a buffer of three octets that is printed when it is full. */
  method EncodeStreaming(bytes: Bytes) returns (result: Bytes)
    ensures result == Encode(bytes, false)
  {
    var charArray := new bv8[3];
    var c := 0;
    result := [];
    var i := 0;
    assert charArray[..0] + bytes[0..] == bytes && [] + Encode(bytes, false) == Encode(bytes, false);
    while i < |bytes|
      invariant 0 <= i <= |bytes| && 0 <= c < 3
      invariant result + Encode(charArray[..c] + bytes[i..], false) == Encode(bytes, false)
    {
      HoldOne(charArray[..c], bytes, i);
      ghost var held := charArray[..c];
      charArray[c] := bytes[i];
      c := c + 1;
      i := i + 1;
      assert charArray[..c] == held + [bytes[i - 1]];
      if c == 3 {
        Emitted(result, charArray[..3], bytes[i..]);
        var group := FullArray(charArray);
        result := result + group;
        c := 0;
        assert charArray[..0] == [];
      }
    }
    assert charArray[..c] + bytes[i..] == charArray[..c];
    if c > 0 {
      var last := FlushRest(charArray, c);
      result := result + last;
    } else {
      assert result + [] == result;
    }
  }

  /** The four characters of a full array. */
  method FullArray(charArray: array<bv8>) returns (group: Bytes)
    requires charArray.Length == 3
    ensures group == Group(charArray[..3], false)
  {
    group := [Char(Six0(charArray[0]), false), Char(Six1(charArray[0], charArray[1]), false),
              Char(Six2(charArray[1], charArray[2]), false), Char(Six3(charArray[2]), false)];
  }

  lemma Emitted(result: Bytes, full: Bytes, rest: Bytes)
    requires |full| == 3
    ensures result + Encode(full + rest, false) == result + Group(full, false) + Encode([] + rest, false)
  {
    FullGroup(full, rest);
    Assoc(result, Group(full, false), Encode(rest, false));
    assert [] + rest == rest;
  }

  lemma HoldOne(held: Bytes, bytes: Bytes, i: nat)
    requires i < |bytes|
    ensures held + bytes[i..] == held + [bytes[i]] + bytes[i + 1..]
  {
  }

  lemma FullGroup(full: Bytes, rest: Bytes)
    requires |full| == 3
    ensures Encode(full + rest, false) == Group(full, false) + Encode(rest, false)
  {
    if rest == [] {
      assert full + rest == full;
    } else {
      assert (full + rest)[..3] == full && (full + rest)[3..] == rest;
    }
    EncodeStep(full + rest, false);
  }

  /** What `decode` makes of up to four characters. The fourth is not looked at when the third is a
      padding character; a single character throws. */
  function DecodeGroup(t: Bytes): Option<Bytes>
    requires t != []
  {
    if |t| == 1 then None
    else
      match (PosOfChar(t[0]), PosOfChar(t[1]))
      case (Some(p0), Some(p1)) =>
        if |t| > 2 && !IsPad(t[2]) then
          (match PosOfChar(t[2])
           case None => None
           case Some(p2) =>
             if |t| > 3 && !IsPad(t[3]) then
               (match PosOfChar(t[3])
                case None => None
                case Some(p3) => Some([Octet0(p0, p1), Octet1(p1, p2), Octet2(p2, p3)]))
             else Some([Octet0(p0, p1), Octet1(p1, p2)]))
        else Some([Octet0(p0, p1)])
      case _ => None
  }

  function Decode(t: Bytes): Option<Bytes>
    decreases |t|
  {
    if t == [] then Some([])
    else if |t| <= 4 then DecodeGroup(t)
    else
      match DecodeGroup(t[..4])
      case None => None
      case Some(group) =>
        match Decode(t[4..])
        case None => None
        case Some(rest) => Some(group + rest)
  }

  /** One round of `decode`. */
  method DecodeRound(encoded: Bytes, pos: nat) returns (r: Option<Bytes>)
    requires pos < |encoded|
    ensures r == DecodeGroup(First4(encoded[pos..]))
  {
    First4At(encoded, pos);
    if pos + 1 >= |encoded| { return None; }
    var p1 := PosOfChar(encoded[pos + 1]);
    var p0 := PosOfChar(encoded[pos]);
    if p1.None? || p0.None? { return None; }
    var ret := [Octet0(p0.value, p1.value)];
    if pos + 2 < |encoded| && encoded[pos + 2] != EQUALS && encoded[pos + 2] != DOT {
      var p2 := PosOfChar(encoded[pos + 2]);
      if p2.None? { return None; }
      ret := ret + [Octet1(p1.value, p2.value)];
      if pos + 3 < |encoded| && encoded[pos + 3] != EQUALS && encoded[pos + 3] != DOT {
        var p3 := PosOfChar(encoded[pos + 3]);
        if p3.None? { return None; }
        ret := ret + [Octet2(p2.value, p3.value)];
      }
    }
    assert ret == DecodeGroup(First4(encoded[pos..])).value;
    return Some(ret);
  }

  lemma First4At(encoded: Bytes, pos: nat)
    requires pos < |encoded|
    ensures var t := First4(encoded[pos..]);
            && |t| == (if |encoded| - pos < 4 then |encoded| - pos else 4)
            && t[0] == encoded[pos]
            && (|t| > 1 ==> t[1] == encoded[pos + 1])
            && (|t| > 2 ==> t[2] == encoded[pos + 2])
            && (|t| > 3 ==> t[3] == encoded[pos + 3])
  {
  }

  function First4(t: Bytes): Bytes { if |t| <= 4 then t else t[..4] }

  /** `decode`: `None` is the thrown exception. */
  method Base64Decode(encoded: Bytes) returns (r: Option<Bytes>)
    ensures r == Decode(encoded)
  {
    var ret: Bytes, pos := [], 0;
    GlueNothing(Decode(encoded));
    assert encoded[0..] == encoded;
    while pos < |encoded|
      invariant Decode(encoded) == Glue(ret, Decode(Suffix(encoded, pos)))
      decreases |encoded| - pos
    {
      DecodeStep(encoded[pos..], ret);
      var group := DecodeRound(encoded, pos);
      if group.None? { return None; }
      assert (if |encoded[pos..]| <= 4 then [] else encoded[pos..][4..]) == Suffix(encoded, pos + 4);
      ret := ret + group.value;
      pos := pos + 4;
    }
    assert ret + [] == ret;
    return Some(ret);
  }

  lemma GlueNothing(r: Option<Bytes>)
    ensures Glue([], r) == r
  {
    if r.Some? { assert [] + r.value == r.value; }
  }

  function Glue(front: Bytes, rest: Option<Bytes>): Option<Bytes> {
    if rest.None? then None else Some(front + rest.value)
  }

  lemma DecodeStep(t: Bytes, front: Bytes)
    requires t != []
    ensures var group := DecodeGroup(First4(t));
            Glue(front, Decode(t))
            == if group.None? then None else Glue(front + group.value, Decode(if |t| <= 4 then [] else t[4..]))
  {
    var group := DecodeGroup(First4(t));
    if group.Some? {
      if |t| <= 4 {
        assert front + group.value + [] == front + group.value;
      } else if Decode(t[4..]).Some? {
        var rest := Decode(t[4..]).value;
        assert front + (group.value + rest) == front + group.value + rest;
      }
    }
  }

  // ---- RFC 4648, sections 4 and 5

  /** One group comes back, whatever follows it. */
  lemma GroupRoundTrip(s: Bytes, url: bool)
    requires 0 < |s| <= 3
    ensures |Group(s, url)| == 4 && DecodeGroup(Group(s, url)) == Some(s)
  {
    var b, c := if |s| > 1 then s[1] else 0, if |s| > 2 then s[2] else 0;
    GroupInverts(s[0], b, c);
    CharInverts(Six0(s[0]), url);
    CharInverts(Six1(s[0], b), url);
    CharInverts(Six2(b, c), url);
    CharInverts(Six3(c), url);
    assert DecodeGroup(Group(s, url)).value == s;
  }

  /** Decoding inverts encoding: every octet string, both alphabets. */
  lemma {:induction false} RoundTrip(s: Bytes, url: bool)
    ensures Decode(Encode(s, url)) == Some(s)
    decreases |s|
  {
    if s != [] {
      var front, rest := Front(s), Behind(s);
      GroupRoundTrip(front, url);
      RoundTrip(rest, url);
      EncodeStep(s, url);
      DecodeJoined(Group(front, url), Encode(rest, url));
      assert front + rest == s;
    }
  }

  lemma {:induction false} EncodedLength(s: Bytes, url: bool)
    ensures |Encode(s, url)| == (|s| + 2) / 3 * 4
    decreases |s|
  {
    if s != [] {
      EncodeStep(s, url);
      GroupLength(Front(s), url);
      EncodedLength(Behind(s), url);
      if |s| > 3 { assert (|s| + 2) / 3 == (|s| - 3 + 2) / 3 + 1; }
    }
  }

  lemma GroupLength(s: Bytes, url: bool)
    requires 0 < |s| <= 3
    ensures |Group(s, url)| == 4
  {
  }

  lemma DecodeJoined(group: Bytes, rest: Bytes)
    requires |group| == 4 && DecodeGroup(group).Some? && Decode(rest).Some?
    ensures Decode(group + rest) == Some(DecodeGroup(group).value + Decode(rest).value)
  {
    var g := DecodeGroup(group).value;
    if rest == [] {
      assert group + rest == group && g + [] == g;
    } else {
      assert (group + rest)[..4] == group && (group + rest)[4..] == rest;
    }
  }

  /** The characters of one alphabet. */
  predicate InAlphabet(c: bv8, url: bool) {
    PosOfChar(c).Some? && (if url then c != 0x2B && c != 0x2F else c != 0x2D && c != 0x5F)
  }

  /** The last group of section 4: padding only at the end, and no bits set under it. */
  predicate CanonicalGroup(t: Bytes, url: bool) {
    && |t| == 4 && InAlphabet(t[0], url) && InAlphabet(t[1], url) && CanonicalEnd(t, url, PosOfChar(t[1]).value)
  }

  predicate CanonicalEnd(t: Bytes, url: bool, p1: bv8)
    requires |t| == 4
  {
    if t[2] == PadOf(url) then t[3] == PadOf(url) && p1 & 0x0F == 0
    else InAlphabet(t[2], url)
         && (if t[3] == PadOf(url) then PosOfChar(t[2]).value & 0x03 == 0 else InAlphabet(t[3], url))
  }

  predicate FullGroupIn(t: Bytes, url: bool) {
    |t| == 4 && forall k :: 0 <= k < 4 ==> InAlphabet(t[k], url)
  }

  /** A grammar of encodings, by what the decoder reads. */
  predicate Canonical(t: Bytes, url: bool)
    decreases |t|
  {
    if t == [] then true
    else if |t| <= 4 then CanonicalGroup(t, url)
    else FullGroupIn(t[..4], url) && Canonical(t[4..], url)
  }

  lemma CanonicalGroupBack(t: Bytes, url: bool)
    requires CanonicalGroup(t, url)
    ensures DecodeGroup(t).Some? && 0 < |DecodeGroup(t).value| <= 3 && Group(DecodeGroup(t).value, url) == t
    ensures FullGroupIn(t, url) ==> |DecodeGroup(t).value| == 3
  {
    var pad := if url then DOT else EQUALS;
    var p0, p1 := PosOfChar(t[0]).value, PosOfChar(t[1]).value;
    PosInverts(t[0], url);
    PosInverts(t[1], url);
    if t[2] == pad {
      GroupInvertsBack(p0, p1, 0, 0);
    } else {
      var p2 := PosOfChar(t[2]).value;
      PosInverts(t[2], url);
      assert !IsPad(t[2]);
      if t[3] == pad {
        GroupInvertsBack(p0, p1, p2, 0);
      } else {
        PosInverts(t[3], url);
        assert !IsPad(t[3]);
        GroupInvertsBack(p0, p1, p2, PosOfChar(t[3]).value);
      }
    }
  }

  lemma GroupIsCanonical(s: Bytes, url: bool)
    requires 0 < |s| <= 3
    ensures CanonicalGroup(Group(s, url), url) && (|s| == 3 ==> FullGroupIn(Group(s, url), url))
  {
    var a := s[0];
    CharAllowed(Six0(a), url);
    if |s| == 1 {
      CharAllowed(Six1(a, 0), url);
      NoBitsUnderPadding(a, 0);
      TwoCharsCanonical(Char(Six0(a), url), Char(Six1(a, 0), url), url);
    } else {
      var b := s[1];
      CharAllowed(Six1(a, b), url);
      if |s| == 2 {
        CharAllowed(Six2(b, 0), url);
        NoBitsUnderPadding(a, b);
        ThreeCharsCanonical(Char(Six0(a), url), Char(Six1(a, b), url), Char(Six2(b, 0), url), url);
      } else {
        var c := s[2];
        CharAllowed(Six2(b, c), url);
        CharAllowed(Six3(c), url);
        FourCharsCanonical(Char(Six0(a), url), Char(Six1(a, b), url), Char(Six2(b, c), url), Char(Six3(c), url), url);
      }
    }
  }

  function PadOf(url: bool): bv8 { if url then DOT else EQUALS }

  lemma CharAllowed(i: bv8, url: bool)
    requires i < 64
    ensures InAlphabet(Char(i, url), url) && PosOfChar(Char(i, url)) == Some(i) && Char(i, url) != PadOf(url)
  {
    CharInverts(i, url);
  }

  lemma TwoCharsCanonical(c0: bv8, c1: bv8, url: bool)
    requires InAlphabet(c0, url) && InAlphabet(c1, url) && PosOfChar(c1).value & 0x0F == 0
    ensures CanonicalGroup([c0, c1, PadOf(url), PadOf(url)], url)
  {
  }

  lemma ThreeCharsCanonical(c0: bv8, c1: bv8, c2: bv8, url: bool)
    requires InAlphabet(c0, url) && InAlphabet(c1, url) && InAlphabet(c2, url)
    requires c2 != PadOf(url) && PosOfChar(c2).value & 0x03 == 0
    ensures CanonicalGroup([c0, c1, c2, PadOf(url)], url)
  {
  }

  lemma FourCharsCanonical(c0: bv8, c1: bv8, c2: bv8, c3: bv8, url: bool)
    requires InAlphabet(c0, url) && InAlphabet(c1, url) && InAlphabet(c2, url) && InAlphabet(c3, url)
    requires c2 != PadOf(url) && c3 != PadOf(url)
    ensures CanonicalGroup([c0, c1, c2, c3], url) && FullGroupIn([c0, c1, c2, c3], url)
  {
  }

  lemma NoBitsUnderPadding(a: bv8, b: bv8)
    ensures Six1(a, 0) & 0x0F == 0 && Six2(b, 0) & 0x03 == 0
  {
  }

  lemma {:induction false} EncodesCanonically(s: Bytes, t: Bytes, url: bool)
    ensures Encode(s, url) == t <==> Canonical(t, url) && Decode(t) == Some(s)
  {
    RoundTrip(s, url);
    EncodeIsCanonical(s, url);
    if Canonical(t, url) && Decode(t) == Some(s) { CanonicalBack(t, url); }
  }

  lemma {:induction false} EncodeIsCanonical(s: Bytes, url: bool)
    ensures Canonical(Encode(s, url), url)
    decreases |s|
  {
    if s != [] {
      var front, rest := Front(s), Behind(s);
      EncodeStep(s, url);
      GroupIsCanonical(front, url);
      GroupRoundTrip(front, url);
      EncodeIsCanonical(rest, url);
      RoundTrip(rest, url);
      var t := Encode(s, url);
      if rest == [] {
        assert t == Group(front, url);
      } else {
        assert t[..4] == Group(front, url) && t[4..] == Encode(rest, url);
      }
    }
  }

  lemma {:induction false} CanonicalBack(t: Bytes, url: bool)
    requires Canonical(t, url)
    ensures Decode(t).Some? && Encode(Decode(t).value, url) == t
    decreases |t|
  {
    if t == [] {
    } else if |t| <= 4 {
      CanonicalGroupBack(t, url);
    } else {
      CanonicalGroupBack(t[..4], url);
      CanonicalBack(t[4..], url);
      var group, rest := DecodeGroup(t[..4]).value, Decode(t[4..]).value;
      JoinedEncode(group, rest, url);
      assert t == t[..4] + t[4..];
    }
  }

  lemma JoinedEncode(group: Bytes, rest: Bytes, url: bool)
    requires |group| == 3
    ensures Encode(group + rest, url) == Group(group, url) + Encode(rest, url)
  {
    if rest == [] {
      assert group + rest == group;
    } else {
      assert Front(group + rest) == group && Behind(group + rest) == rest;
    }
    EncodeStep(group + rest, url);
  }

  // ---- The encoding as a regrouping of bits

  /** Three octets as one 24-bit word. */
  function OctetWord(a: bv8, b: bv8, c: bv8): bv24 {
    (a as bv24 << 16) | (b as bv24 << 8) | c as bv24
  }

  /** An octet of the input, or the zero that fills up the last group. */
  function At(s: Bytes, i: nat): bv8 { if i < |s| then s[i] else 0 }

  lemma ShiftSlice(g: Bytes, r: Bytes, k: nat)
    requires |g| == 4 && k > 0 && 4 * k <= |r|
    ensures (g + r)[4 * k..4 * k + 4] == r[4 * (k - 1)..4 * (k - 1) + 4]
  {
  }

  lemma ShiftSuffix(s: Bytes, k: nat)
    requires k > 0 && 3 * k < |s|
    ensures Behind(s)[3 * (k - 1)..] == s[3 * k..]
  {
  }

  lemma {:induction false} EncodeAt(s: Bytes, url: bool, k: nat)
    requires 3 * k < |s|
    ensures 4 * k + 4 <= |Encode(s, url)|
    ensures Encode(s, url)[4 * k..4 * k + 4] == Group(Front(s[3 * k..]), url)
    decreases k
  {
    EncodeStep(s, url);
    GroupLength(Front(s), url);
    var g, r := Group(Front(s), url), Encode(Behind(s), url);
    if k > 0 {
      ShiftSuffix(s, k);
      EncodeAt(Behind(s), url, k - 1);
      ShiftSlice(g, r, k);
    } else {
      assert s[0..] == s;
      assert (g + r)[..4] == g;
    }
  }

  /** The `j`-th six bits of a 24-bit word, from the left. */
  function Sextet(w: bv24, j: nat): bv8
    requires j < 4
  {
    (if j == 0 then (w >> 18) & 63 else if j == 1 then (w >> 12) & 63
     else if j == 2 then (w >> 6) & 63 else w & 63) as bv8
  }

  lemma SextetsOf(a: bv8, b: bv8, c: bv8)
    ensures var w := OctetWord(a, b, c);
            && Sextet(w, 0) == Six0(a) && Sextet(w, 1) == Six1(a, b)
            && Sextet(w, 2) == Six2(b, c) && Sextet(w, 3) == Six3(c)
  {
  }

  /** The `j`-th of the `k`-th four characters of an encoding, which stand for the `k`-th three octets: the
      alphabet's entry at the `j`-th six bits of theirs, zeros standing for octets that are missing at the
      end; and where no octet has a bit, padding. */
  ghost function CharacterAt(s: Bytes, url: bool, k: nat, j: nat): int
    requires 3 * k < |s| && j < 4
  {
    var w := OctetWord(s[3 * k], At(s, 3 * k + 1), At(s, 3 * k + 2));
    if 3 * k + j <= |s| && |Alphabet(url)| == 64 && Sextet(w, j) < 64 then Alphabet(url)[Sextet(w, j) as int] as int
    else Padding(url)
  }

  lemma SextetSmall(w: bv24, j: nat)
    requires j < 4
    ensures Sextet(w, j) < 64
  {
  }

  lemma CharIsEntry(i: bv8, url: bool)
    requires i < 64
    ensures |Alphabet(url)| == 64 && Char(i, url) as int == Alphabet(url)[i as int] as int
  {
    AlphabetAt(i as int, url);
  }

  lemma GroupCharacter(s: Bytes, url: bool, j: nat)
    requires 0 < |s| <= 3 && j < 4
    ensures |Group(s, url)| == 4 && |Alphabet(url)| == 64
    ensures var w := OctetWord(s[0], At(s, 1), At(s, 2));
            Sextet(w, j) < 64 && Group(s, url)[j] as int
                                 == if j <= |s| then Alphabet(url)[Sextet(w, j) as int] as int else Padding(url)
  {
    var a, b, c := s[0], At(s, 1), At(s, 2);
    SextetsOf(a, b, c);
    SextetSmall(OctetWord(a, b, c), j);
    CharIsEntry(Sextet(OctetWord(a, b, c), j), url);
    PaddingOctets();
  }

  lemma PaddingOctets()
    ensures EQUALS as int == 61 && DOT as int == 46
  {
  }

  lemma FromFront(s: Bytes, url: bool, k: nat, j: nat)
    requires 3 * k < |s| && j < 4
    ensures var front := Front(s[3 * k..]);
            && 0 < |front| <= 3 && (j <= |front| <==> 3 * k + j <= |s|)
            && front[0] == s[3 * k] && At(front, 1) == At(s, 3 * k + 1) && At(front, 2) == At(s, 3 * k + 2)
  {
  }

  /** Sections 4 and 5 of RFC 4648: every character of an encoding, in both alphabets. */
  lemma EncodingRegroupsBits(s: Bytes, url: bool, k: nat, j: nat)
    requires 3 * k < |s| && j < 4
    ensures 4 * k + j < |Encode(s, url)| && Encode(s, url)[4 * k + j] as int == CharacterAt(s, url, k, j)
  {
    EncodeAt(s, url, k);
    FromFront(s, url, k, j);
    GroupCharacter(Front(s[3 * k..]), url, j);
    assert Encode(s, url)[4 * k + j] == Encode(s, url)[4 * k..4 * k + 4][j];
  }

  // ---- The grammar, by the alphabets

  /** The octet is the alphabet's entry at `i`. */
  ghost predicate IsAt(c: bv8, url: bool, i: nat) {
    i < 64 && |Alphabet(url)| == 64 && c as int == Alphabet(url)[i] as int
  }

  ghost predicate HasPlace(c: bv8, url: bool) { exists i :: IsAt(c, url, i) }

  lemma SameOctet(c: bv8, d: bv8)
    ensures c as int == d as int <==> c == d
  {
  }

  lemma SamePlace(p: bv8, i: nat)
    requires i < 64
    ensures p == i as bv8 <==> p as nat == i
  {
  }

  /** The character the encoder writes for `i`. */
  lemma EntryOf(i: nat, url: bool) returns (d: bv8)
    requires i < 64
    ensures IsAt(d, url, i) && InAlphabet(d, url) && PosOfChar(d) == Some(i as bv8)
  {
    d := Char(i as bv8, url);
    AlphabetAt(i, url);
    CharAllowed(i as bv8, url);
  }

  lemma EntryIs(c: bv8, url: bool, i: nat)
    requires IsAt(c, url, i)
    ensures InAlphabet(c, url) && PosOfChar(c) == Some(i as bv8)
  {
    var d := EntryOf(i, url);
    SameOctet(c, d);
  }

  lemma HasEntry(c: bv8, url: bool, i: nat)
    requires InAlphabet(c, url) && i < 64 && PosOfChar(c) == Some(i as bv8)
    ensures IsAt(c, url, i)
  {
    PosInverts(c, url);
    AlphabetAt(i, url);
  }

  /** Two characters and two paddings, three and one, or four; no bits set in what the padding cuts off. */
  ghost predicate Rfc4648Group(t: Bytes, url: bool) {
    |t| == 4 && exists i, j :: IsAt(t[0], url, i) && IsAt(t[1], url, j) && Rfc4648End(t, url, j)
  }

  ghost predicate Rfc4648End(t: Bytes, url: bool, j: nat)
    requires |t| == 4
  {
    || (t[2] as int == Padding(url) && t[3] as int == Padding(url) && j % 16 == 0)
    || (exists k :: IsAt(t[2], url, k)
                    && ((t[3] as int == Padding(url) && k % 4 == 0) || exists l :: IsAt(t[3], url, l)))
  }

  ghost predicate Rfc4648(t: Bytes, url: bool)
    decreases |t|
  {
    if t == [] then true
    else if |t| <= 4 then Rfc4648Group(t, url)
    else
      && HasPlace(t[0], url) && HasPlace(t[1], url) && HasPlace(t[2], url) && HasPlace(t[3], url)
      && Rfc4648(t[4..], url)
  }

  lemma LowBits(i: nat)
    requires i < 64
    ensures (i as bv8) & 0x0F == 0 <==> i % 16 == 0
    ensures (i as bv8) & 0x03 == 0 <==> i % 4 == 0
  {
  }

  lemma PaddingIs(c: bv8, url: bool)
    ensures c as int == Padding(url) <==> c == PadOf(url)
    ensures c as int == Padding(url) ==> !InAlphabet(c, url)
  {
  }

  lemma EntryExactly(c: bv8, url: bool)
    ensures InAlphabet(c, url) <==> HasPlace(c, url)
    ensures forall i :: IsAt(c, url, i) ==> InAlphabet(c, url) && PosOfChar(c) == Some(i as bv8)
  {
    if InAlphabet(c, url) {
      SamePlace(PosOfChar(c).value, PosOfChar(c).value as nat);
      HasEntry(c, url, PosOfChar(c).value as nat);
    }
    forall i | IsAt(c, url, i) ensures InAlphabet(c, url) && PosOfChar(c) == Some(i as bv8) { EntryIs(c, url, i); }
  }

  lemma GroupExactly(t: Bytes, url: bool)
    ensures Rfc4648Group(t, url) <==> CanonicalGroup(t, url)
  {
    if |t| == 4 {
      EntryExactly(t[0], url);
      EntryExactly(t[1], url);
      forall j | IsAt(t[1], url, j) ensures Rfc4648End(t, url, j) <==> CanonicalEnd(t, url, j as bv8) {
        EndExactly(t, url, j);
      }
    }
  }

  lemma EndExactly(t: Bytes, url: bool, j: nat)
    requires |t| == 4 && j < 64
    ensures Rfc4648End(t, url, j) <==> CanonicalEnd(t, url, j as bv8)
  {
    EntryExactly(t[2], url);
    EntryExactly(t[3], url);
    PaddingIs(t[2], url);
    PaddingIs(t[3], url);
    LowBits(j);
    forall k | IsAt(t[2], url, k) ensures PosOfChar(t[2]).value & 0x03 == 0 <==> k % 4 == 0 { LowBits(k); }
  }

  lemma {:induction false} GrammarExactly(t: Bytes, url: bool)
    ensures Rfc4648(t, url) <==> Canonical(t, url)
    decreases |t|
  {
    if t == [] {
    } else if |t| <= 4 {
      GroupExactly(t, url);
    } else {
      GrammarExactly(t[4..], url);
      FullExactly(t, url);
    }
  }

  lemma PlaceExactly(c: bv8, url: bool)
    ensures InAlphabet(c, url) <==> HasPlace(c, url)
  {
    EntryExactly(c, url);
  }

  lemma FullIs(c0: bv8, c1: bv8, c2: bv8, c3: bv8, url: bool)
    ensures FullGroupIn([c0, c1, c2, c3], url)
       <==> InAlphabet(c0, url) && InAlphabet(c1, url) && InAlphabet(c2, url) && InAlphabet(c3, url)
  {
    var t := [c0, c1, c2, c3];
    assert t[0] == c0 && t[1] == c1 && t[2] == c2 && t[3] == c3;
  }

  lemma FullExactly(t: Bytes, url: bool)
    requires |t| >= 4
    ensures FullGroupIn(t[..4], url)
       <==> HasPlace(t[0], url) && HasPlace(t[1], url) && HasPlace(t[2], url) && HasPlace(t[3], url)
  {
    PlaceExactly(t[0], url);
    PlaceExactly(t[1], url);
    PlaceExactly(t[2], url);
    PlaceExactly(t[3], url);
    assert t[..4] == [t[0], t[1], t[2], t[3]];
    FullIs(t[0], t[1], t[2], t[3], url);
  }

  /** The encodings of `s` among all texts: `t` is the encoding of `s` if and only if `t` is in the grammar
      of RFC 4648 and decodes to `s`. */
  lemma EncodesExactly(s: Bytes, t: Bytes, url: bool)
    ensures Encode(s, url) == t <==> Rfc4648(t, url) && Decode(t) == Some(s)
  {
    GrammarExactly(t, url);
    EncodesCanonically(s, t, url);
  }

  // ---- What the decoder reads

  /** It reads the characters of both alphabets as their places, and nothing else. */
  lemma ReadsBothAlphabets(c: bv8, i: nat)
    requires i < 64
    ensures PosOfChar(c) == Some(i as bv8) <==> IsAt(c, false, i) || IsAt(c, true, i)
  {
    if IsAt(c, false, i) { EntryIs(c, false, i); }
    if IsAt(c, true, i) { EntryIs(c, true, i); }
    if PosOfChar(c) == Some(i as bv8) { HasEntry(c, c == 0x2D || c == 0x5F, i); }
  }

  lemma PadsExactly(c: bv8)
    ensures IsPad(c) <==> c as int == 61 || c as int == 46
  {
  }

  /** Two octets that mean the same to the decoder: paddings, or the same place of some alphabet. */
  ghost predicate SameCharacter(c: bv8, d: bv8) {
    || c == d
    || (c as int in {46, 61} && d as int in {46, 61})
    || (exists i: nat :: (IsAt(c, false, i) || IsAt(c, true, i)) && (IsAt(d, false, i) || IsAt(d, true, i)))
  }

  lemma SameToDecoder(c: bv8, d: bv8)
    requires SameCharacter(c, d)
    ensures PosOfChar(c) == PosOfChar(d) && IsPad(c) == IsPad(d)
  {
    PadsExactly(c);
    PadsExactly(d);
    if c != d && c as int !in {46, 61} {
      var i: nat :| (IsAt(c, false, i) || IsAt(c, true, i)) && (IsAt(d, false, i) || IsAt(d, true, i));
      ReadsBothAlphabets(c, i);
      ReadsBothAlphabets(d, i);
      NoPadHasPlace(c);
      NoPadHasPlace(d);
    } else if c != d {
      NoPadHasPlace(c);
      NoPadHasPlace(d);
    }
  }

  lemma NoPadHasPlace(c: bv8)
    ensures IsPad(c) ==> PosOfChar(c).None?
  {
  }

  ghost predicate SameText(t: Bytes, u: Bytes) {
    |t| == |u| && forall k :: 0 <= k < |t| ==> SameCharacter(t[k], u[k])
  }

  /** The alphabets and the paddings may be mixed: only the places count. */
  lemma {:induction false} AlphabetDoesNotMatter(t: Bytes, u: Bytes)
    requires SameText(t, u)
    ensures Decode(t) == Decode(u)
    decreases |t|
  {
    forall k | 0 <= k < |t| ensures PosOfChar(t[k]) == PosOfChar(u[k]) && IsPad(t[k]) == IsPad(u[k]) {
      SameToDecoder(t[k], u[k]);
    }
    if |t| > 4 {
      SameGroup(t[..4], u[..4]);
      AlphabetDoesNotMatter(t[4..], u[4..]);
    } else if t != [] {
      SameGroup(t, u);
    }
  }

  lemma SameGroup(t: Bytes, u: Bytes)
    requires |t| == |u| > 0
    requires forall k :: 0 <= k < |t| ==> PosOfChar(t[k]) == PosOfChar(u[k]) && IsPad(t[k]) == IsPad(u[k])
    ensures DecodeGroup(t) == DecodeGroup(u)
  {
  }

  // ---- The unpadded URL form

  /** `remove_base64_padding`: everything before the first dot. */
  function Unpad(t: Bytes): Bytes {
    if t == [] || t[0] == DOT then [] else [t[0]] + Unpad(t[1..])
  }

  /** `encodeURIbase64`. */
  function EncodeURI(s: Bytes): Bytes { Unpad(Encode(s, true)) }

  /** The padding that `IDfromJWT` and `JSONfromJWT` put back. */
  function Repad(t: Bytes): Bytes {
    if |t| % 4 == 0 then t
    else if |t| % 4 == 3 then t + [EQUALS]
    else if |t| % 4 == 2 then t + [EQUALS, EQUALS]
    else t + [EQUALS, EQUALS, EQUALS]
  }

  predicate NoDot(t: Bytes) { forall k :: 0 <= k < |t| ==> t[k] != DOT }

  lemma {:induction false} UnpadPlain(t: Bytes, u: Bytes)
    requires NoDot(t) && (u != [] ==> u[0] == DOT)
    ensures Unpad(t + u) == t
  {
    if t == [] {
      assert t + u == u;
    } else {
      assert (t + u)[1..] == t[1..] + u;
      UnpadPlain(t[1..], u);
    }
  }

  /** The characters of a group without its padding. */
  function Bare(s: Bytes): Bytes
    requires 0 < |s| <= 3
  {
    Group(s, true)[..|s| + 1]
  }

  lemma BareGroup(s: Bytes)
    requires 0 < |s| <= 3
    ensures NoDot(Bare(s)) && |Bare(s)| == |s| + 1
    ensures Group(s, true) == Bare(s) + (if |s| == 1 then [DOT, DOT] else if |s| == 2 then [DOT] else [])
    ensures DecodeGroup(Bare(s)) == Some(s)
    ensures |s| == 1 ==> DecodeGroup(Bare(s) + [EQUALS, EQUALS]) == Some(s)
    ensures |s| == 2 ==> DecodeGroup(Bare(s) + [EQUALS]) == Some(s)
  {
    var b, c := if |s| > 1 then s[1] else 0, if |s| > 2 then s[2] else 0;
    GroupInverts(s[0], b, c);
    CharInverts(Six0(s[0]), true);
    CharInverts(Six1(s[0], b), true);
    CharInverts(Six2(b, c), true);
    CharInverts(Six3(c), true);
    assert DecodeGroup(Bare(s)).value == s;
  }

  /** Without padding: no dot, decodable as it stands, and decodable with the padding put back. */
  lemma {:induction false} UriRoundTrip(s: Bytes)
    ensures NoDot(EncodeURI(s)) && (s == [] <==> EncodeURI(s) == [])
    ensures Decode(EncodeURI(s)) == Some(s)
    ensures Decode(Repad(EncodeURI(s))) == Some(s)
    ensures |EncodeURI(s)| % 4 != 1
    decreases |s|
  {
    if s == [] {
    } else if |s| <= 3 {
      UriLastGroup(s);
    } else {
      UriRoundTrip(Behind(s));
      UriRoundTripStep(s, EncodeURI(Behind(s)));
    }
  }

  lemma UriRoundTripStep(s: Bytes, t: Bytes)
    requires |s| > 3 && t == EncodeURI(Behind(s))
    requires NoDot(t) && |t| % 4 != 1 && Decode(t) == Some(Behind(s)) && Decode(Repad(t)) == Some(Behind(s))
    ensures NoDot(EncodeURI(s)) && EncodeURI(s) != [] && |EncodeURI(s)| % 4 != 1
    ensures Decode(EncodeURI(s)) == Some(s) && Decode(Repad(EncodeURI(s))) == Some(s)
  {
    var group := Group(Front(s), true);
    UriStep(s);
    GroupRoundTrip(Front(s), true);
    DecodeJoined(group, t);
    DecodeJoined(group, Repad(t));
    RepadJoined(group, t);
    assert Front(s) + Behind(s) == s;
  }

  lemma UriLastGroup(s: Bytes)
    requires 0 < |s| <= 3
    ensures EncodeURI(s) == Bare(s) && NoDot(Bare(s)) && |Bare(s)| == |s| + 1
    ensures Decode(Bare(s)) == Some(s) && Decode(Repad(Bare(s))) == Some(s)
  {
    BareGroup(s);
    UnpadPlain(Bare(s), if |s| == 1 then [DOT, DOT] else if |s| == 2 then [DOT] else []);
  }

  lemma UriStep(s: Bytes)
    requires |s| > 3
    ensures EncodeURI(s) == Group(Front(s), true) + EncodeURI(Behind(s))
    ensures NoDot(EncodeURI(Behind(s))) ==> NoDot(EncodeURI(s))
  {
    EncodeStep(s, true);
    BareGroup(Front(s));
    var group := Group(Front(s), true);
    assert group == Bare(Front(s));
    UnpadInFront(group, Encode(Behind(s), true));
  }

  lemma {:induction false} UnpadInFront(t: Bytes, u: Bytes)
    requires NoDot(t)
    ensures Unpad(t + u) == t + Unpad(u)
  {
    if t == [] {
      assert t + u == u;
    } else {
      assert (t + u)[1..] == t[1..] + u;
      UnpadInFront(t[1..], u);
      assert [t[0]] + (t[1..] + Unpad(u)) == t + Unpad(u);
    }
  }

  lemma RepadJoined(group: Bytes, t: Bytes)
    requires |group| == 4
    ensures Repad(group + t) == group + Repad(t)
  {
    assert |group + t| % 4 == |t| % 4;
  }

  /** The unpadded form is the encoding without its padding. */
  lemma {:induction false} UriIsFront(s: Bytes)
    ensures |EncodeURI(s)| == (4 * |s| + 2) / 3 <= |Encode(s, true)|
    ensures EncodeURI(s) == Encode(s, true)[..(4 * |s| + 2) / 3]
    decreases |s|
  {
    if s != [] {
      EncodedLength(s, true);
      if |s| <= 3 {
        UriLastGroup(s);
        BareGroup(s);
      } else {
        UriStep(s);
        UriIsFront(Behind(s));
        EncodeStep(s, true);
        GroupLength(Front(s), true);
        FrontJoined(Group(Front(s), true), Encode(Behind(s), true), (4 * |Behind(s)| + 2) / 3);
        assert (4 * |s| + 2) / 3 == 4 + (4 * |Behind(s)| + 2) / 3;
      }
    }
  }

  lemma FrontJoined(group: Bytes, rest: Bytes, n: nat)
    requires |group| == 4 && n <= |rest|
    ensures (group + rest)[..4 + n] == group + rest[..n]
  {
  }

  /** What is put back: equals signs, up to the next multiple of four. */
  lemma RepadExactly(t: Bytes)
    ensures t <= Repad(t) && |Repad(t)| % 4 == 0 && |Repad(t)| < |t| + 4
    ensures forall k :: |t| <= k < |Repad(t)| ==> Repad(t)[k] as int == 61
  {
    PaddingOctets();
  }
}
