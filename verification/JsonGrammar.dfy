/** What json11's parser accepts and returns, as functions of the input and the cursor. The class in
    JsonParser refines these. */
module JsonGrammar {
  import opened JsonValue

  const MAX_DEPTH := 200

  datatype Strategy = STANDARD | COMMENTS

  /** One constructor per message of the parser. */
  datatype Error =
    | EndAfterCommentStart | EndInsideComment | MalformedComment
    | EndOfInput | EndInString
    | UnescapedInString(ch: byte) | BadUnicodeEscape(esc: bytes) | InvalidEscape(ch: byte)
    | LeadingZero | InvalidInNumber(ch: byte) | NoFractionDigit | NoExponentDigit
    | ExpectedWord(word: bytes, got: bytes)
    | ExpectedKey(ch: byte) | ExpectedColon(ch: byte) | ExpectedCommaInObject(ch: byte)
    | ExpectedCommaInList(ch: byte) | ExpectedValue(ch: byte)
    | TooDeep | TrailingGarbage(ch: byte)

  datatype Parse<+T> = Ok(value: T, next: nat) | Fail(error: Error)

  // ----- garbage -----

  predicate IsSpace(b: byte) { b == SPACE || b == 0x0D || b == NEWLINE || b == 0x09 }

  function SkipSpace(s: bytes, i: nat): (r: nat)
    requires i <= |s|
    ensures i <= r <= |s| && !IsSpace(At(s, r))
    decreases |s| - i
  {
    if IsSpace(At(s, i)) then SkipSpace(s, i + 1) else i
  }

  function LineEnd(s: bytes, i: nat): (r: nat)
    requires i <= |s|
    ensures i <= r <= |s|
    decreases |s| - i
  {
    if i < |s| && s[i] != NEWLINE then LineEnd(s, i + 1) else i
  }

  /** The position after the closing mark of a multi-line comment whose text starts at i. */
  function CommentEnd(s: bytes, i: nat): (r: Parse<bool>)
    requires 2 <= i <= |s|
    ensures r.Ok? ==> r.value && i < r.next <= |s|
    decreases |s| - i
  {
    if i > |s| - 2 then Fail(EndInsideComment)
    else if s[i] == STAR && s[i + 1] == SLASH then Ok(true, i + 2)
    else CommentEnd(s, i + 1)
  }

  /** `consume_comment`: whether a comment was found, and where it ends. */
  function Comment(s: bytes, i: nat): (r: Parse<bool>)
    requires i <= |s|
    ensures r.Ok? ==> i <= r.next <= |s| && (r.value ==> i < r.next) && (!r.value ==> r.next == i)
  {
    if At(s, i) != SLASH then Ok(false, i)
    else if i + 1 == |s| then Fail(EndAfterCommentStart)
    else if s[i + 1] == SLASH then Ok(true, LineEnd(s, i + 2))
    else if s[i + 1] == STAR then CommentEnd(s, i + 2)
    else Fail(MalformedComment)
  }

  /** `consume_garbage`. */
  function Garbage(s: bytes, i: nat, strategy: Strategy): (r: Parse<()>)
    requires i <= |s|
    ensures r.Ok? ==> i <= r.next <= |s|
    decreases |s| - i
  {
    var j := SkipSpace(s, i);
    if strategy.STANDARD? then Ok((), j)
    else match Comment(s, j)
      case Fail(e) => Fail(e)
      case Ok(found, k) => if found then Garbage(s, k, strategy) else Ok((), k)
  }

  /** `get_next_token`. */
  function Token(s: bytes, i: nat, strategy: Strategy): (r: Parse<byte>)
    requires i <= |s|
    ensures r.Ok? ==> i < r.next <= |s| && s[r.next - 1] == r.value
  {
    match Garbage(s, i, strategy)
    case Fail(e) => Fail(e)
    case Ok(_, j) => if j == |s| then Fail(EndOfInput) else Ok(s[j], j + 1)
  }

  // ----- strings -----

  /** `encode_utf8`: nothing for a negative code point. */
  function EncodeUtf8(pt: int): bytes
    requires pt < 0x11_0000
  {
    if pt < 0 then []
    else if pt < 0x80 then [pt]
    else if pt < 0x800 then [0xC0 + pt / 0x40, 0x80 + pt % 0x40]
    else if pt < 0x10000 then [0xE0 + pt / 0x1000, 0x80 + pt / 0x40 % 0x40, 0x80 + pt % 0x40]
    else [0xF0 + pt / 0x40000, 0x80 + pt / 0x1000 % 0x40, 0x80 + pt / 0x40 % 0x40, 0x80 + pt % 0x40]
  }

  predicate IsHexDigit(b: byte) { 0x61 <= b <= 0x66 || 0x41 <= b <= 0x46 || IsDigit(b) }

  function HexValue(b: byte): (r: int)
    requires IsHexDigit(b)
    ensures 0 <= r < 16
  {
    if IsDigit(b) then b - 0x30 else if b <= 0x46 then b - 0x41 + 10 else b - 0x61 + 10
  }

  predicate IsHex4(esc: bytes) { |esc| == 4 && forall k | 0 <= k < 4 :: IsHexDigit(esc[k]) }

  /** `strtol(esc, 16)`. */
  function Hex4(esc: bytes): (r: int)
    requires IsHex4(esc)
    ensures 0 <= r < 0x10000
  {
    HexValue(esc[0]) * 0x1000 + HexValue(esc[1]) * 0x100 + HexValue(esc[2]) * 0x10 + HexValue(esc[3])
  }

  predicate IsLead(pt: int) { 0xD800 <= pt <= 0xDBFF }
  predicate IsTrail(pt: int) { 0xDC00 <= pt <= 0xDFFF }

  function Astral(lead: int, trail: int): (r: int)
    requires IsLead(lead) && IsTrail(trail)
    ensures 0x10000 <= r < 0x11_0000
  {
    (lead - 0xD800) * 0x400 + (trail - 0xDC00) + 0x10000
  }

  function SimpleEscape(ch: byte): (r: int)
    ensures -1 <= r < 256
  {
    if ch == LOWER_B then 0x08
    else if ch == LOWER_F then 0x0C
    else if ch == LOWER_N then 0x0A
    else if ch == LOWER_R then 0x0D
    else if ch == LOWER_T then 0x09
    else if ch == QUOTE || ch == BACKSLASH || ch == SLASH then ch
    else -1
  }

  function Window(s: bytes, i: nat): bytes
    requires i <= |s|
  {
    s[i..if i + 4 <= |s| then i + 4 else |s|]
  }

  /** The loop of `parse_string`: `out` is the text so far, `last` the code point of the latest \u
      escape, which is written one symbol late so that a trail surrogate can still join it. */
  function StringLoop(s: bytes, i: nat, out: bytes, last: int): (r: Parse<bytes>)
    requires i <= |s| && -1 <= last < 0x10000
    ensures r.Ok? ==> i < r.next <= |s|
    decreases |s| - i
  {
    if i == |s| then Fail(EndInString)
    else
      var ch := s[i];
      if ch == QUOTE then Ok(out + EncodeUtf8(last), i + 1)
      else if ch <= 0x1F then Fail(UnescapedInString(ch))
      else if ch != BACKSLASH then StringLoop(s, i + 1, out + EncodeUtf8(last) + [ch], -1)
      else if i + 1 == |s| then Fail(EndInString)
      else if s[i + 1] == LOWER_U then
        var esc := Window(s, i + 2);
        if !IsHex4(esc) then Fail(BadUnicodeEscape(esc))
        else
          var pt := Hex4(esc);
          if IsLead(last) && IsTrail(pt) then StringLoop(s, i + 6, out + EncodeUtf8(Astral(last, pt)), -1)
          else StringLoop(s, i + 6, out + EncodeUtf8(last), pt)
      else
        var c := SimpleEscape(s[i + 1]);
        if c < 0 then Fail(InvalidEscape(s[i + 1]))
        else StringLoop(s, i + 2, out + EncodeUtf8(last) + [c], -1)
  }

  /** `parse_string`, after the opening quote. */
  function String(s: bytes, i: nat): (r: Parse<bytes>)
    requires i <= |s|
    ensures r.Ok? ==> i < r.next <= |s|
  {
    StringLoop(s, i, [], -1)
  }

  // ----- numbers and words -----

  function SkipDigits(s: bytes, i: nat): (r: nat)
    requires i <= |s|
    ensures i <= r <= |s| && !IsDigit(At(s, r)) && AllDigits(s[i..r])
    decreases |s| - i
  {
    if IsDigit(At(s, i)) then SkipDigits(s, i + 1) else i
  }

  const INT_DIGITS10 := 9

  /** The end of the integer part that starts at i (after the sign). */
  function IntegerPart(s: bytes, i: nat): (r: Parse<()>)
    requires i <= |s|
    ensures r.Ok? ==> i < r.next <= |s| && AllDigits(s[i..r.next])
  {
    if At(s, i) == ZERO then
      if IsDigit(At(s, i + 1)) then Fail(LeadingZero) else Ok((), i + 1)
    else if IsDigit(At(s, i)) then Ok((), SkipDigits(s, i))
    else Fail(InvalidInNumber(At(s, i)))
  }

  function FractionPart(s: bytes, i: nat): (r: Parse<()>)
    requires i <= |s|
    ensures r.Ok? ==> i <= r.next <= |s|
  {
    if At(s, i) != DOT then Ok((), i)
    else if !IsDigit(At(s, i + 1)) then Fail(NoFractionDigit)
    else Ok((), SkipDigits(s, i + 1))
  }

  function ExponentPart(s: bytes, i: nat): (r: Parse<()>)
    requires i <= |s|
    ensures r.Ok? ==> i <= r.next <= |s|
  {
    if At(s, i) != LOWER_E && At(s, i) != UPPER_E then Ok((), i)
    else
      var j := if At(s, i + 1) == PLUS || At(s, i + 1) == MINUS then i + 2 else i + 1;
      if !IsDigit(At(s, j)) then Fail(NoExponentDigit) else Ok((), SkipDigits(s, j))
  }

  /** `parse_number`: a short integer literal becomes an int, anything else a double. */
  function NumberAt(s: bytes, i: nat): (r: Parse<Json>)
    requires i < |s|
    ensures r.Ok? ==> i < r.next <= |s|
  {
    var start := if s[i] == MINUS then i + 1 else i;
    match IntegerPart(s, start)
    case Fail(e) => Fail(e)
    case Ok(_, j) =>
      if At(s, j) != DOT && At(s, j) != LOWER_E && At(s, j) != UPPER_E && j - i <= INT_DIGITS10 then
        LiteralShape(s, i, j);
        Ok(Int(LiteralValue(s[i..j])), j)
      else match FractionPart(s, j)
        case Fail(e) => Fail(e)
        case Ok(_, k) => match ExponentPart(s, k)
          case Fail(e) => Fail(e)
          case Ok(_, m) => Ok(Double(s[i..m]), m)
  }

  lemma LiteralShape(s: bytes, i: nat, j: nat)
    requires i < j <= |s| && (var start := if s[i] == MINUS then i + 1 else i; start < j && AllDigits(s[start..j]))
    ensures IsIntegerLiteral(s[i..j])
  {
    if s[i] == MINUS { assert s[i..j][1..] == s[i + 1..j]; }
  }

  /** `expect`: the word must start at i. */
  function WordAt(s: bytes, i: nat, word: bytes, v: Json): (r: Parse<Json>)
    requires i < |s| && word != []
    ensures r.Ok? ==> i < r.next <= |s|
  {
    if i + |word| <= |s| && s[i..i + |word|] == word then Ok(v, i + |word|)
    else Fail(ExpectedWord(word, s[i..if i + |word| <= |s| then i + |word| else |s|]))
  }

  // ----- values -----

  /** `parse_json`. */
  function Value(s: bytes, i: nat, depth: nat, strategy: Strategy): (r: Parse<Json>)
    requires i <= |s|
    ensures r.Ok? ==> i < r.next <= |s|
    decreases |s| - i, 0
  {
    if depth > MAX_DEPTH then Fail(TooDeep)
    else match Token(s, i, strategy)
      case Fail(e) => Fail(e)
      case Ok(ch, j) =>
        if ch == MINUS || IsDigit(ch) then NumberAt(s, j - 1)
        else if ch == LOWER_T then WordAt(s, j - 1, TRUE, Bool(true))
        else if ch == LOWER_F then WordAt(s, j - 1, FALSE, Bool(false))
        else if ch == LOWER_N then WordAt(s, j - 1, NULL, Null)
        else if ch == QUOTE then
          (match String(s, j) case Fail(e) => Fail(e) case Ok(t, k) => Ok(Str(t), k))
        else if ch == LBRACE then
          (match Token(s, j, strategy)
           case Fail(e) => Fail(e)
           case Ok(c, k) => if c == RBRACE then Ok(Object([]), k) else Members(s, k, c, depth, strategy, []))
        else if ch == LBRACKET then
          (match Token(s, j, strategy)
           case Fail(e) => Fail(e)
           case Ok(c, k) => if c == RBRACKET then Ok(Array([]), k) else Items(s, k - 1, depth, strategy, []))
        else Fail(ExpectedValue(ch))
  }

  /** The list loop, its cursor stepped back to the first character of the next item. */
  function Items(s: bytes, i: nat, depth: nat, strategy: Strategy, data: seq<Json>): (r: Parse<Json>)
    requires i <= |s|
    ensures r.Ok? ==> i < r.next <= |s|
    decreases |s| - i, 1
  {
    match Value(s, i, depth + 1, strategy)
    case Fail(e) => Fail(e)
    case Ok(v, j) => match Token(s, j, strategy)
      case Fail(e) => Fail(e)
      case Ok(ch, k) =>
        if ch == RBRACKET then Ok(Array(data + [v]), k)
        else if ch != COMMA then Fail(ExpectedCommaInList(ch))
        else match Token(s, k, strategy)
          case Fail(e) => Fail(e)
          case Ok(_, m) => Items(s, m - 1, depth, strategy, data + [v])
  }

  /** The object loop; `ch` is the token just read, which must open a key. */
  function Members(s: bytes, i: nat, ch: byte, depth: nat, strategy: Strategy, data: seq<Member>): (r: Parse<Json>)
    requires i <= |s|
    ensures r.Ok? ==> i < r.next <= |s|
    decreases |s| - i, 1
  {
    if ch != QUOTE then Fail(ExpectedKey(ch))
    else match String(s, i)
      case Fail(e) => Fail(e)
      case Ok(key, j) => match Token(s, j, strategy)
        case Fail(e) => Fail(e)
        case Ok(colon, k) =>
          if colon != COLON then Fail(ExpectedColon(colon))
          else match Value(s, k, depth + 1, strategy)
            case Fail(e) => Fail(e)
            case Ok(v, m) => match Token(s, m, strategy)
              case Fail(e) => Fail(e)
              case Ok(c, n) =>
                var data' := Insert(data, key, v);
                if c == RBRACE then Ok(Object(data'), n)
                else if c != COMMA then Fail(ExpectedCommaInObject(c))
                else match Token(s, n, strategy)
                  case Fail(e) => Fail(e)
                  case Ok(d, o) => Members(s, o, d, depth, strategy, data')
  }

  /** `Json::parse`. */
  function Document(s: bytes, strategy: Strategy): Parse<Json> {
    match Value(s, 0, 0, strategy)
    case Fail(e) => Fail(e)
    case Ok(v, i) => match Garbage(s, i, strategy)
      case Fail(e) => Fail(e)
      case Ok(_, j) => if j != |s| then Fail(TrailingGarbage(s[j])) else Ok(v, j)
  }
}
