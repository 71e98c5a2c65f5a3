/** UUIDs laid out from SHA-256 bytes, and the validator that reads them back. */
module CodexUuid {
  import opened Options
  import opened Text

  // ----- Hexadecimal text.

  function Digit(n: bv8): char {
    if n == 0 then '0' else if n == 1 then '1' else if n == 2 then '2' else if n == 3 then '3'
    else if n == 4 then '4' else if n == 5 then '5' else if n == 6 then '6' else if n == 7 then '7'
    else if n == 8 then '8' else if n == 9 then '9' else if n == 10 then 'a' else if n == 11 then 'b'
    else if n == 12 then 'c' else if n == 13 then 'd' else if n == 14 then 'e' else 'f'
  }

  function DigitValue(c: char): bv8 {
    if c == '0' then 0 else if c == '1' then 1 else if c == '2' then 2 else if c == '3' then 3
    else if c == '4' then 4 else if c == '5' then 5 else if c == '6' then 6 else if c == '7' then 7
    else if c == '8' then 8 else if c == '9' then 9 else if c == 'a' || c == 'A' then 10
    else if c == 'b' || c == 'B' then 11 else if c == 'c' || c == 'C' then 12
    else if c == 'd' || c == 'D' then 13 else if c == 'e' || c == 'E' then 14 else 15
  }

  predicate IsHexDigit(c: char) {
    '0' <= c <= '9' || 'a' <= c <= 'f' || 'A' <= c <= 'F'
  }

  function High(b: bv8): bv8 { b >> 4 }
  function Low(b: bv8): bv8 { b & 0x0f }
  function Pack(high: bv8, low: bv8): bv8 { (high << 4) | low }

  lemma DigitRoundTrip(n: bv8)
    requires n < 16
    ensures DigitValue(Digit(n)) == n && IsHexDigit(Digit(n))
    ensures Digit(n) in "12345" <==> 1 <= n <= 5
    ensures Digit(n) in "89abAB" <==> 8 <= n <= 11
  {
  }

  lemma NibblesRoundTrip(b: bv8)
    ensures High(b) < 16 && Low(b) < 16 && Pack(High(b), Low(b)) == b
  {
  }

  function Hex(bytes: seq<bv8>): (s: string)
    ensures |s| == 2 * |bytes|
    ensures forall i :: 0 <= i < |bytes| ==> s[2 * i] == Digit(High(bytes[i])) && s[2 * i + 1] == Digit(Low(bytes[i]))
  {
    if bytes == [] then ""
    else
      var rest := Hex(bytes[1..]);
      [Digit(High(bytes[0])), Digit(Low(bytes[0]))] + rest
  }

  // ----- The 8-4-4-4-12 layout.

  type Bytes16 = b: seq<bv8> | |b| == 16 witness seq(16, i => 0)

  function Layout(b: Bytes16): string {
    Hex(b[..4]) + "-" + Hex(b[4..6]) + "-" + Hex(b[6..8]) + "-" + Hex(b[8..10]) + "-" + Hex(b[10..])
  }

  /** Where the text of byte `i` starts. */
  function Position(i: nat): nat
    requires i < 16
  {
    2 * i + (if i < 4 then 0 else if i < 6 then 1 else if i < 8 then 2 else if i < 10 then 3 else 4)
  }

  predicate IsDash(p: nat) {
    p == 8 || p == 13 || p == 18 || p == 23
  }

  function ByteAt(s: string, i: nat): bv8
    requires |s| == 36 && i < 16
  {
    Pack(DigitValue(s[Position(i)]), DigitValue(s[Position(i) + 1]))
  }

  /** The validator's pattern, letters in either case. */
  predicate MatchesUuid(s: string) {
    && |s| == 36
    && (forall p :: 0 <= p < 36 ==> if IsDash(p) then s[p] == '-' else IsHexDigit(s[p]))
    && s[14] in "12345"
    && s[19] in "89abAB"
  }

  function NormalizeUuid(value: string): Option<string> {
    if MatchesUuid(Trim(value)) then Some(Trim(value)) else None
  }

  lemma LayoutDigits(b: Bytes16, i: nat)
    requires i < 16
    ensures |Layout(b)| == 36
    ensures Layout(b)[Position(i)] == Digit(High(b[i])) && Layout(b)[Position(i) + 1] == Digit(Low(b[i]))
  {
    if i < 4 {
      assert b[..4][i] == b[i];
    } else if i < 6 {
      assert b[4..6][i - 4] == b[i];
    } else if i < 8 {
      assert b[6..8][i - 6] == b[i];
    } else if i < 10 {
      assert b[8..10][i - 8] == b[i];
    } else {
      assert b[10..][i - 10] == b[i];
    }
  }

  lemma LayoutDash(b: Bytes16, p: nat)
    requires p < 36 && IsDash(p)
    ensures |Layout(b)| == 36 && Layout(b)[p] == '-'
  {
  }

  lemma LayoutChars(b: Bytes16)
    ensures |Layout(b)| == 36
    ensures forall i :: 0 <= i < 16 ==>
              Layout(b)[Position(i)] == Digit(High(b[i])) && Layout(b)[Position(i) + 1] == Digit(Low(b[i]))
    ensures forall p :: 0 <= p < 36 && IsDash(p) ==> Layout(b)[p] == '-'
  {
    LayoutDigits(b, 0);
    forall i | 0 <= i < 16
      ensures Layout(b)[Position(i)] == Digit(High(b[i])) && Layout(b)[Position(i) + 1] == Digit(Low(b[i]))
    {
      LayoutDigits(b, i);
    }
    forall p | 0 <= p < 36 && IsDash(p) ensures Layout(b)[p] == '-' {
      LayoutDash(b, p);
    }
  }

  /** Every position of the layout is a dash or belongs to one byte. */
  lemma PositionCovers(p: nat) returns (i: nat)
    requires p < 36 && !IsDash(p)
    ensures i < 16 && (p == Position(i) || p == Position(i) + 1)
  {
    var dashes := if p < 8 then 0 else if p < 13 then 1 else if p < 18 then 2 else if p < 23 then 3 else 4;
    i := (p - dashes) / 2;
  }

  /** The layout loses nothing: reading byte `i` back gives byte `i`. */
  lemma LayoutDecodes(b: Bytes16, i: nat)
    requires i < 16
    ensures |Layout(b)| == 36 && ByteAt(Layout(b), i) == b[i]
  {
    LayoutChars(b);
    NibblesRoundTrip(b[i]);
    DigitRoundTrip(High(b[i]));
    DigitRoundTrip(Low(b[i]));
  }

  /** The validator accepts a layout exactly when the version is 1 to 5 and the variant is that of RFC 4122. */
  lemma LayoutAcceptedIff(b: Bytes16)
    ensures MatchesUuid(Layout(b)) <==> 1 <= High(b[6]) <= 5 && 8 <= High(b[8]) <= 11
  {
    LayoutChars(b);
    var s := Layout(b);
    forall p | 0 <= p < 36 && !IsDash(p) ensures IsHexDigit(s[p]) {
      var i := PositionCovers(p);
      NibblesRoundTrip(b[i]);
      DigitRoundTrip(High(b[i]));
      DigitRoundTrip(Low(b[i]));
    }
    assert s[14] == s[Position(6)] && s[19] == s[Position(8)];
    NibblesRoundTrip(b[6]);
    DigitRoundTrip(High(b[6]));
    NibblesRoundTrip(b[8]);
    DigitRoundTrip(High(b[8]));
  }

  lemma UuidIsTrimmed(s: string)
    requires MatchesUuid(s)
    ensures NormalizeUuid(s) == Some(s)
  {
    assert IsHexDigit(s[0]) && IsHexDigit(s[35]);
    TrimFixesTrimmed(s);
  }

  // ----- The two derivations.

  type Digest = d: seq<bv8> | |d| == 32 witness seq(32, i => 0)

  function Masked(d: Digest): Bytes16 {
    d[..16][6 := (d[6] & 0x0f) | 0x40][8 := (d[8] & 0x3f) | 0x80]
  }

  function DeriveStableUuid(d: Digest): string {
    Layout(Masked(d))
  }

  /** The masking as it is done, on a buffer that holds a copy of the first 16 digest bytes. */
  method DeriveOnBuffer(d: Digest) returns (id: string)
    ensures id == DeriveStableUuid(d)
  {
    var bytes := new bv8[16](i requires 0 <= i < 16 => d[i]);
    bytes[6] := (bytes[6] & 0x0f) | 0x40;
    bytes[8] := (bytes[8] & 0x3f) | 0x80;
    var masked := bytes[..];
    assert masked == Masked(d);
    assert masked[..4] == bytes[..4] && masked[4..6] == bytes[4..6] && masked[6..8] == bytes[6..8];
    assert masked[8..10] == bytes[8..10] && masked[10..] == bytes[10..];
    id := Hex(bytes[..4]) + "-" + Hex(bytes[4..6]) + "-" + Hex(bytes[6..8])
        + "-" + Hex(bytes[8..10]) + "-" + Hex(bytes[10..]);
  }

  /** The legacy layout, cut from the hexadecimal text of the digest. */
  function LegacyUuid(d: Digest): string {
    var h := Hex(d);
    h[..8] + "-" + h[8..12] + "-4" + h[13..16] + "-a" + h[17..20] + "-" + h[20..32]
  }

  lemma MaskFacts(b: bv8)
    ensures High((b & 0x0f) | 0x40) == 4 && ((b & 0x0f) | 0x40) & 0x0f == b & 0x0f
    ensures ((b & 0x3f) | 0x80) >> 6 == 2 && ((b & 0x3f) | 0x80) & 0x3f == b & 0x3f
    ensures 8 <= High((b & 0x3f) | 0x80) <= 11
    ensures High((b & 0x0f) | 0xa0) == 10 && Low((b & 0x0f) | 0x40) == Low(b) && Low((b & 0x0f) | 0xa0) == Low(b)
  {
  }

  /**
   * For every digest the derived id is a UUID of 36 characters that the validator accepts
   * unchanged. It has version 4 and the variant of RFC 4122 (sections 4.1.1, 4.1.3 and 4.4),
   * and decodes to the first 16 digest bytes with only those six bits changed.
   */
  lemma DerivedUuidSpec(d: Digest)
    ensures var s := DeriveStableUuid(d);
            && |s| == 36
            && NormalizeUuid(s) == Some(s)
            && ByteAt(s, 6) >> 4 == 4
            && ByteAt(s, 8) >> 6 == 2
            && (forall i :: 0 <= i < 16 && i != 6 && i != 8 ==> ByteAt(s, i) == d[i])
            && ByteAt(s, 6) & 0x0f == d[6] & 0x0f
            && ByteAt(s, 8) & 0x3f == d[8] & 0x3f
  {
    var s := DeriveStableUuid(d);
    forall i | 0 <= i < 16 ensures |s| == 36 && ByteAt(s, i) == Masked(d)[i] {
      LayoutDecodes(Masked(d), i);
    }
    LayoutDecodes(Masked(d), 6);
    LayoutDecodes(Masked(d), 8);
    MaskFacts(d[6]);
    MaskFacts(d[8]);
    LayoutAcceptedIff(Masked(d));
    UuidIsTrimmed(s);
  }

  /** The first halves agree outside the six fixed bits. */
  predicate SameIdBits(d: Digest, e: Digest) {
    && (forall i :: 0 <= i < 16 && i != 6 && i != 8 ==> d[i] == e[i])
    && d[6] & 0x0f == e[6] & 0x0f
    && d[8] & 0x3f == e[8] & 0x3f
  }

  lemma SameBitsSameId(d: Digest, e: Digest)
    requires SameIdBits(d, e)
    ensures DeriveStableUuid(d) == DeriveStableUuid(e)
  {
    var m, n := Masked(d), Masked(e);
    forall i | 0 <= i < 16 ensures m[i] == n[i] {
    }
    assert m == n;
  }

  /** Two digests give the same id exactly when their first halves agree outside the six fixed bits. */
  lemma DerivedUuidsEqualIff(d: Digest, e: Digest)
    ensures DeriveStableUuid(d) == DeriveStableUuid(e) <==> SameIdBits(d, e)
  {
    if SameIdBits(d, e) {
      SameBitsSameId(d, e);
    }
    var s, t := DeriveStableUuid(d), DeriveStableUuid(e);
    if s == t {
      DerivedUuidSpec(d);
      DerivedUuidSpec(e);
      forall i | 0 <= i < 16 && i != 6 && i != 8 ensures d[i] == e[i] {
        assert ByteAt(s, i) == ByteAt(t, i);
      }
      assert ByteAt(s, 6) == ByteAt(t, 6) && ByteAt(s, 8) == ByteAt(t, 8);
    }
  }

  /** The 16 bytes that the legacy text lays out. */
  function LegacyBytes(d: Digest): Bytes16 {
    d[..16][6 := (d[6] & 0x0f) | 0x40][8 := (d[8] & 0x0f) | 0xa0]
  }

  /** The digits of byte `i` in the legacy text. */
  lemma LegacyDigits(d: Digest, i: nat)
    requires i < 16
    ensures var s := LegacyUuid(d);
            && |s| == 36
            && s[Position(i)] == (if i == 6 then '4' else if i == 8 then 'a' else Hex(d)[2 * i])
            && s[Position(i) + 1] == Hex(d)[2 * i + 1]
  {
  }

  lemma LegacyDashes(d: Digest, p: nat)
    requires p < 36 && IsDash(p)
    ensures |LegacyUuid(d)| == 36 && LegacyUuid(d)[p] == '-'
  {
  }

  lemma LegacyAt(d: Digest, p: nat)
    requires p < 36
    ensures |LegacyUuid(d)| == 36 == |Layout(LegacyBytes(d))|
    ensures LegacyUuid(d)[p] == Layout(LegacyBytes(d))[p]
  {
    LayoutChars(LegacyBytes(d));
    if IsDash(p) {
      LegacyDashes(d, p);
    } else {
      var i := PositionCovers(p);
      LegacyDigits(d, i);
      MaskFacts(d[6]);
      MaskFacts(d[8]);
    }
  }

  /** The legacy id is the same layout with version 4 and the variant nibble `a`, so the
      validator accepts it unchanged as well. */
  lemma LegacyUuidSpec(d: Digest)
    ensures LegacyUuid(d) == Layout(LegacyBytes(d))
    ensures NormalizeUuid(LegacyUuid(d)) == Some(LegacyUuid(d))
  {
    LegacyAt(d, 0);
    forall p | 0 <= p < 36 ensures LegacyUuid(d)[p] == Layout(LegacyBytes(d))[p] {
      LegacyAt(d, p);
    }
    MaskFacts(d[6]);
    MaskFacts(d[8]);
    LayoutAcceptedIff(LegacyBytes(d));
    UuidIsTrimmed(LegacyUuid(d));
  }
}
