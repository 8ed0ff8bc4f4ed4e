/** String escapes: any text of Unicode scalar values written with \u escapes, astral ones as surrogate
    pairs, parses to its UTF-8 encoding, although the parser writes each escape one symbol late. */
module JsonUnicode {
  import opened JsonValue
  import opened JsonGrammar
  import opened JsonRoundTrip

  // ----- UTF-8, by the table of section 3 of RFC 3629 -----

  predicate IsScalar(cp: int) { 0 <= cp < 0xD800 || 0xE000 <= cp < 0x11_0000 }

  predicate IsTailByte(b: byte) { 0x80 <= b <= 0xBF }

  datatype Decoded = Bad | Scalar(cp: int, length: nat)

  /** The scalar value at the head of t: a lead byte of the table, the tail bytes it asks for, and
      neither an overlong form nor a surrogate nor a value past U+10FFFF. */
  function DecodeUtf8(t: bytes): Decoded {
    if t == [] then Bad
    else
      var a, b, c, d: int := t[0], At(t, 1), At(t, 2), At(t, 3);
      if a < 0x80 then Scalar(a, 1)
      else if 0xC2 <= a <= 0xDF && IsTailByte(b) then Scalar((a - 0xC0) * 0x40 + (b - 0x80), 2)
      else if 0xE0 <= a <= 0xEF && IsTailByte(b) && IsTailByte(c) && (a == 0xE0 ==> b >= 0xA0) && (a == 0xED ==> b <= 0x9F) then
        Scalar((a - 0xE0) * 0x1000 + (b - 0x80) * 0x40 + (c - 0x80), 3)
      else if 0xF0 <= a <= 0xF4 && IsTailByte(b) && IsTailByte(c) && IsTailByte(d) && (a == 0xF0 ==> b >= 0x90) && (a == 0xF4 ==> b <= 0x8F) then
        Scalar((a - 0xF0) * 0x40000 + (b - 0x80) * 0x1000 + (c - 0x80) * 0x40 + (d - 0x80), 4)
      else Bad
  }

  /** encode_utf8 writes the well-formed encoding of every scalar value. */
  lemma EncodeDecodes(cp: int, rest: bytes)
    requires IsScalar(cp)
    ensures DecodeUtf8(EncodeUtf8(cp) + rest) == Scalar(cp, |EncodeUtf8(cp)|)
  {
    var e := EncodeUtf8(cp);
    var t := e + rest;
    assert forall k | 0 <= k < |e| :: At(t, k) == e[k];
    if 0x800 <= cp < 0x10000 {
      ThreeDigits(cp);
    } else if cp >= 0x10000 {
      FourDigits(cp);
    }
  }

  /** The base-64 digits encode_utf8 writes make up the code point again. */
  lemma ThreeDigits(cp: int)
    requires 0x800 <= cp < 0x10000
    ensures var a, b, c := cp / 0x1000, cp / 0x40 % 0x40, cp % 0x40;
            && cp == a * 0x1000 + b * 0x40 + c && 0 <= a < 16
            && (a == 0 ==> b >= 0x20) && (a == 0xD && cp < 0xD800 ==> b < 0x20)
            && (a == 0xD ==> 0xD000 <= cp < 0xE000)
  {
    assert cp / 0x1000 == cp / 0x40 / 0x40;
  }

  lemma FourDigits(cp: int)
    requires 0x10000 <= cp < 0x11_0000
    ensures var a, b, c, d := cp / 0x40000, cp / 0x1000 % 0x40, cp / 0x40 % 0x40, cp % 0x40;
            && cp == a * 0x40000 + b * 0x1000 + c * 0x40 + d && 0 <= a <= 4
            && (a == 0 ==> b >= 0x10) && (a == 4 ==> b < 0x10)
  {
    assert cp / 0x1000 == cp / 0x40 / 0x40;
    assert cp / 0x40000 == cp / 0x1000 / 0x40;
  }

  /** A surrogate, which is no scalar value, is written as three bytes all the same. */
  lemma SurrogatesEncoded(cp: int)
    requires 0xD800 <= cp < 0xE000
    ensures EncodeUtf8(cp) == [0xED, 0xA0 + (cp - 0xD800) / 0x40, 0x80 + cp % 0x40]
  {
  }

  // ----- escaped texts, by section 7 of RFC 8259 -----

  /** A piece of a JSON string: an unescaped byte, a one-letter escape, a scalar value of the BMP as one
      \u escape, or another one as two. `upper` tells the case of each hex digit that is a letter. */
  datatype Piece =
    | Plain(b: byte)
    | Letter(c: byte, b: byte)
    | Bmp(cp: int, upper: seq<bool>)
    | Pair(cp: int, upper: seq<bool>, upper': seq<bool>)

  /** The eight letters after a backslash, and what they stand for. */
  predicate IsLetter(c: byte, b: byte) {
    (c, b) in {(0x22, 0x22), (0x5C, 0x5C), (0x2F, 0x2F), (0x62, 0x08), (0x66, 0x0C), (0x6E, 0x0A), (0x72, 0x0D), (0x74, 0x09)}
  }

  predicate WellFormed(p: Piece) {
    match p
    case Plain(b) => b > 0x1F && b != 0x22 && b != 0x5C
    case Letter(c, b) => IsLetter(c, b)
    case Bmp(cp, upper) => IsScalar(cp) && cp < 0x10000 && |upper| == 4
    case Pair(cp, upper, upper') => 0x10000 <= cp < 0x11_0000 && |upper| == |upper'| == 4
  }

  function HexChar(d: int, upper: bool): byte
    requires 0 <= d < 16
  {
    if d < 10 then 0x30 + d else if upper then 0x41 + (d - 10) else 0x61 + (d - 10)
  }

  /** A code point in four hex digits, the highest first. */
  function Spelled(cp: int, upper: seq<bool>): (r: bytes)
    requires 0 <= cp < 0x10000 && |upper| == 4
    ensures |r| == 4
  {
    [HexChar(cp / 0x1000, upper[0]), HexChar(cp / 0x100 % 0x10, upper[1]), HexChar(cp / 0x10 % 0x10, upper[2]), HexChar(cp % 0x10, upper[3])]
  }

  function LeadOf(cp: int): int { 0xD800 + (cp - 0x10000) / 0x400 }
  function TrailOf(cp: int): int { 0xDC00 + (cp - 0x10000) % 0x400 }

  /** How the piece is written. */
  function Render(p: Piece): bytes
    requires WellFormed(p)
  {
    match p
    case Plain(b) => [b]
    case Letter(c, _) => [0x5C, c]
    case Bmp(cp, upper) => [0x5C, 0x75] + Spelled(cp, upper)
    case Pair(cp, upper, upper') => [0x5C, 0x75] + Spelled(LeadOf(cp), upper) + ([0x5C, 0x75] + Spelled(TrailOf(cp), upper'))
  }

  /** The bytes the piece stands for. */
  function Meaning(p: Piece): bytes
    requires WellFormed(p)
  {
    match p
    case Plain(b) => [b]
    case Letter(_, b) => [b]
    case Bmp(cp, _) => EncodeUtf8(cp)
    case Pair(cp, _, _) => EncodeUtf8(cp)
  }

  function RenderAll(ps: seq<Piece>): bytes
    requires forall p | p in ps :: WellFormed(p)
  {
    if ps == [] then [] else Render(ps[0]) + RenderAll(ps[1..])
  }

  function MeaningAll(ps: seq<Piece>): bytes
    requires forall p | p in ps :: WellFormed(p)
  {
    if ps == [] then [] else Meaning(ps[0]) + MeaningAll(ps[1..])
  }

  /** Four hex digits of either case are read as the code point they spell. */
  lemma SpelledReads(cp: int, upper: seq<bool>)
    requires 0 <= cp < 0x10000 && |upper| == 4
    ensures IsHex4(Spelled(cp, upper)) && Hex4(Spelled(cp, upper)) == cp
  {
    HexCharReads(cp / 0x1000, upper[0]);
    HexCharReads(cp / 0x100 % 0x10, upper[1]);
    HexCharReads(cp / 0x10 % 0x10, upper[2]);
    HexCharReads(cp % 0x10, upper[3]);
    hide HexValue, IsHexDigit, HexChar;
    assert cp / 0x1000 == cp / 0x100 / 0x10 && cp / 0x100 == cp / 0x10 / 0x10;
  }

  lemma HexCharReads(d: int, upper: bool)
    requires 0 <= d < 16
    ensures IsHexDigit(HexChar(d, upper)) && HexValue(HexChar(d, upper)) == d
  {
  }

  /** The other way round: whatever is read as four hex digits spells the code point that is read. */
  lemma OnlySpelledReads(esc: bytes) returns (upper: seq<bool>)
    requires IsHex4(esc)
    ensures |upper| == 4 && esc == Spelled(Hex4(esc), upper)
  {
    upper := [esc[0] < 0x61, esc[1] < 0x61, esc[2] < 0x61, esc[3] < 0x61];
    var a, b, c, d := HexValue(esc[0]), HexValue(esc[1]), HexValue(esc[2]), HexValue(esc[3]);
    DigitsOf(Hex4(esc), a, b, c, d);
  }

  lemma DigitsOf(cp: int, a: int, b: int, c: int, d: int)
    requires 0 <= a < 16 && 0 <= b < 16 && 0 <= c < 16 && 0 <= d < 16 && cp == a * 0x1000 + b * 0x100 + c * 0x10 + d
    ensures cp / 0x1000 == a && cp / 0x100 % 0x10 == b && cp / 0x10 % 0x10 == c && cp % 0x10 == d
  {
    assert cp / 0x10 == a * 0x100 + b * 0x10 + c;
    assert cp / 0x100 == a * 0x10 + b;
  }

  /** The one-letter escapes are the eight of the table. */
  lemma LettersRead(c: byte)
    ensures forall b: byte :: IsLetter(c, b) <==> SimpleEscape(c) == b
  {
  }

  /** Every astral scalar value has exactly one surrogate pair. */
  lemma PairsCoverAstral(cp: int)
    requires 0x10000 <= cp < 0x11_0000
    ensures var lead, trail := LeadOf(cp), TrailOf(cp);
            0xD800 <= lead < 0xDC00 <= trail < 0xE000 && IsLead(lead) && IsTrail(trail) && Astral(lead, trail) == cp
            && forall l, t | IsLead(l) && IsTrail(t) && Astral(l, t) == cp :: l == lead && t == trail
  {
  }

  lemma {:induction false} PiecesRead(s: bytes, i: nat, ps: seq<Piece>, out: bytes, last: int)
    requires (forall p | p in ps :: WellFormed(p)) && Settled(last)
    requires Stands(s, i, RenderAll(ps) + [0x22])
    ensures StringLoop(s, i, out, last) == Ok(out + EncodeUtf8(last) + MeaningAll(ps), i + |RenderAll(ps)| + 1)
    decreases |ps|
  {
    hide StringLoop, EncodeUtf8, Render, Meaning, Stands, WellFormed;
    if ps == [] {
      NoPieceRead(s, i, out, last);
    } else {
      FirstPiece(ps, out + EncodeUtf8(last));
      StandsSplit(s, i, Render(ps[0]), RenderAll(ps[1..]) + [0x22]);
      var out', last' := PieceRead(s, i, ps[0], out, last);
      PiecesRead(s, i + |Render(ps[0])|, ps[1..], out', last');
    }
  }

  lemma NoPieceRead(s: bytes, i: nat, out: bytes, last: int)
    requires Settled(last) && Stands(s, i, RenderAll([]) + [0x22])
    ensures StringLoop(s, i, out, last) == Ok(out + EncodeUtf8(last) + MeaningAll([]), i + |RenderAll([])| + 1)
  {
    hide EncodeUtf8;
    StandsAt(s, i, [] + [0x22], 0);
    assert out + EncodeUtf8(last) + [] == out + EncodeUtf8(last);
  }

  lemma FirstPiece(ps: seq<Piece>, done: bytes)
    requires ps != [] && forall p | p in ps :: WellFormed(p)
    ensures RenderAll(ps) + [0x22] == Render(ps[0]) + (RenderAll(ps[1..]) + [0x22])
    ensures |RenderAll(ps)| == |Render(ps[0])| + |RenderAll(ps[1..])|
    ensures done + MeaningAll(ps) == done + Meaning(ps[0]) + MeaningAll(ps[1..])
  {
    hide Render, Meaning;
    assert done + Meaning(ps[0]) + MeaningAll(ps[1..]) == done + (Meaning(ps[0]) + MeaningAll(ps[1..]));
  }

  lemma PieceRead(s: bytes, i: nat, p: Piece, out: bytes, last: int) returns (out': bytes, last': int)
    requires WellFormed(p) && Settled(last) && Stands(s, i, Render(p))
    ensures Settled(last') && out' + EncodeUtf8(last') == out + EncodeUtf8(last) + Meaning(p)
    ensures i + |Render(p)| <= |s| && StringLoop(s, i, out, last) == StringLoop(s, i + |Render(p)|, out', last')
  {
    hide StringLoop, EncodeUtf8, SimpleEscape, IsHex4, Hex4, Spelled;
    var done := out + EncodeUtf8(last);
    match p
    case Plain(b) =>
      out', last' := done + [b], -1;
      PlainRead(s, i, b, out, last);
      NothingEncoded(out');
    case Letter(c, b) =>
      out', last' := done + [b], -1;
      LettersRead(c);
      SimpleEscapeRead(s, i, c, out, last);
      NothingEncoded(out');
    case Bmp(cp, upper) =>
      out', last' := done, cp;
      SpelledReads(cp, upper);
      UnicodeEscapeRead(s, i, Spelled(cp, upper), out, last);
    case Pair(cp, upper, upper') =>
      out', last' := done + EncodeUtf8(cp), -1;
      PairRead(s, i, cp, upper, upper', out, last);
      NothingEncoded(out');
  }

  lemma PairRead(s: bytes, i: nat, cp: int, upper: seq<bool>, upper': seq<bool>, out: bytes, last: int)
    requires 0x10000 <= cp < 0x11_0000 && |upper| == |upper'| == 4 && Settled(last)
    requires Stands(s, i, [0x5C, 0x75] + Spelled(LeadOf(cp), upper) + ([0x5C, 0x75] + Spelled(TrailOf(cp), upper')))
    ensures i + 12 <= |s| && StringLoop(s, i, out, last) == StringLoop(s, i + 12, out + EncodeUtf8(last) + EncodeUtf8(cp), -1)
  {
    hide StringLoop, EncodeUtf8, SimpleEscape, IsHex4, Hex4, Spelled;
    PairsCoverAstral(cp);
    var lead, trail := Spelled(LeadOf(cp), upper), Spelled(TrailOf(cp), upper');
    SpelledReads(LeadOf(cp), upper);
    SpelledReads(TrailOf(cp), upper');
    StandsSplit(s, i, [0x5C, 0x75] + lead, [0x5C, 0x75] + trail);
    UnicodeEscapeRead(s, i, lead, out, last);
    UnicodeEscapeRead(s, i + 6, trail, out + EncodeUtf8(last), LeadOf(cp));
  }

  lemma NothingEncoded(out: bytes)
    ensures out + EncodeUtf8(-1) == out
  {
  }

  /** The theorem: a quoted text of such pieces, anywhere in the input, parses to its UTF-8 bytes. */
  lemma EscapedTextParses(s: bytes, i: nat, ps: seq<Piece>, depth: nat, strategy: Strategy)
    requires forall p | p in ps :: WellFormed(p)
    requires depth <= 200 && Stands(s, i, [0x22] + (RenderAll(ps) + [0x22]))
    ensures Value(s, i, depth, strategy) == Ok(Str(MeaningAll(ps)), i + |RenderAll(ps)| + 2)
  {
    StandsSplit(s, i, [0x22], RenderAll(ps) + [0x22]);
    StandsAt(s, i, [0x22], 0);
    TokenHere(s, i, strategy);
    PiecesRead(s, i + 1, ps, [], -1);
    assert [] + EncodeUtf8(-1) + MeaningAll(ps) == MeaningAll(ps);
  }
}
