/** Which texts the parser accepts: those of the grammar of RFC 8259, up to the depth limit, and with
    comments if the strategy has them. The grammar is a relation between stretches of the text and
    values, without a cursor, a loop or an error, and it names every character by its code. */
module JsonText {
  import opened Wrappers
  import opened JsonValue
  import opened JsonGrammar
  import opened JsonRoundTrip

  // ----- section 2: insignificant whitespace, and comments -----

  predicate White(b: byte) { b in {0x20, 0x09, 0x0A, 0x0D} }

  /** A comment: up to the end of the line or of the text, or up to its first closing mark. */
  ghost predicate CommentText(s: bytes, i: nat, j: nat) {
    && i + 2 <= j <= |s| && s[i] == 0x2F
    && (|| (s[i + 1] == 0x2F && (forall k | i + 2 <= k < j :: s[k] != 0x0A) && (j == |s| || s[j] == 0x0A))
        || (s[i + 1] == 0x2A && i + 4 <= j && s[j - 2] == 0x2A && s[j - 1] == 0x2F
            && forall k | i + 2 <= k < j - 2 :: !(s[k] == 0x2A && s[k + 1] == 0x2F)))
  }

  ghost predicate Blank(s: bytes, i: nat, j: nat, st: Strategy)
    decreases j - i
  {
    && i <= j <= |s|
    && (|| i == j
        || (White(s[i]) && Blank(s, i + 1, j, st))
        || (st.COMMENTS? && exists k: nat | i < k <= j :: CommentText(s, i, k) && Blank(s, k, j, st)))
  }

  // ----- section 6: numbers -----

  ghost predicate AllDigitsIn(s: bytes, i: nat, j: nat) {
    i < j <= |s| && forall k | i <= k < j :: 0x30 <= s[k] <= 0x39
  }

  ghost predicate IntText(s: bytes, i: nat, j: nat) {
    AllDigitsIn(s, i, j) && (s[i] == 0x30 ==> j == i + 1)
  }

  ghost predicate FracText(s: bytes, i: nat, j: nat) {
    i == j || (i < j <= |s| && s[i] == 0x2E && AllDigitsIn(s, i + 1, j))
  }

  ghost predicate ExpText(s: bytes, i: nat, j: nat) {
    || i == j
    || (i < j <= |s| && s[i] in {0x65, 0x45}
        && (AllDigitsIn(s, i + 1, j) || (i + 1 < j && s[i + 1] in {0x2B, 0x2D} && AllDigitsIn(s, i + 2, j))))
  }

  function SignEnd(s: bytes, i: nat): nat { if i < |s| && s[i] == 0x2D then i + 1 else i }

  ghost predicate Numeral(s: bytes, i: nat, j: nat) {
    exists a, b | i <= a <= b <= j :: IntText(s, SignEnd(s, i), a) && FracText(s, a, b) && ExpText(s, b, j)
  }

  /** The number that the digits of s[i..j] write in base ten. */
  function DecimalIn(s: bytes, i: nat, j: nat): int
    requires i <= j <= |s|
    decreases j - i
  {
    if i == j then 0 else 10 * DecimalIn(s, i, j - 1) + (s[j - 1] as int - 0x30)
  }

  /** The representation of a numeral: an int for an integer of at most nine characters, else a double
      of the same characters. */
  ghost predicate NumberText(s: bytes, i: nat, j: nat, v: Json) {
    && i < j <= |s| && Numeral(s, i, j)
    && v == if IntText(s, SignEnd(s, i), j) && j - i <= 9
            then Int(if s[i] == 0x2D then -DecimalIn(s, i + 1, j) else DecimalIn(s, i, j))
            else Double(s[i..j])
  }

  // ----- section 7: strings -----

  /** The character b is the hex digit of value d, in either case. */
  predicate HexOf(b: byte, d: int) {
    (0 <= d < 10 && b == 0x30 + d) || (10 <= d < 16 && (b == 0x61 + (d - 10) || b == 0x41 + (d - 10)))
  }

  /** A \u escape of the code point cp at i, within the characters up to j. */
  predicate EscapeOf(s: bytes, i: nat, j: nat, cp: int) {
    && i + 6 <= j <= |s| && 0 <= cp < 0x10000 && s[i] == 0x5C && s[i + 1] == 0x75
    && HexOf(s[i + 2], cp / 0x1000) && HexOf(s[i + 3], cp / 0x100 % 0x10) && HexOf(s[i + 4], cp / 0x10 % 0x10) && HexOf(s[i + 5], cp % 0x10)
  }

  predicate EscapeAt(s: bytes, i: nat, j: nat) {
    i + 6 <= j <= |s| && s[i] == 0x5C && s[i + 1] == 0x75 && IsHex4(s[i + 2..i + 6])
  }

  function CodeAt(s: bytes, i: nat, j: nat): (r: int)
    requires EscapeAt(s, i, j)
    ensures EscapeOf(s, i, j, r)
  {
    EscapeSpelled(s, i, j);
    Hex4(s[i + 2..i + 6])
  }

  lemma EscapeSpelled(s: bytes, i: nat, j: nat)
    requires EscapeAt(s, i, j)
    ensures EscapeOf(s, i, j, Hex4(s[i + 2..i + 6]))
  {
    var esc := s[i + 2..i + 6];
    HexSpelled(esc[0]);
    HexSpelled(esc[1]);
    HexSpelled(esc[2]);
    HexSpelled(esc[3]);
    FourDigits(HexValue(esc[0]), HexValue(esc[1]), HexValue(esc[2]), HexValue(esc[3]));
  }

  lemma FourDigits(a: int, b: int, c: int, d: int)
    requires 0 <= a < 16 && 0 <= b < 16 && 0 <= c < 16 && 0 <= d < 16
    ensures var cp := a * 0x1000 + b * 0x100 + c * 0x10 + d;
            cp / 0x1000 == a && cp / 0x100 % 0x10 == b && cp / 0x10 % 0x10 == c && cp % 0x10 == d
  {
    var cp := a * 0x1000 + b * 0x100 + c * 0x10 + d;
    assert cp / 0x10 == a * 0x100 + b * 0x10 + c;
    assert cp / 0x100 == a * 0x10 + b;
  }

  lemma HexSpelled(b: byte)
    requires IsHexDigit(b)
    ensures HexOf(b, HexValue(b))
  {
  }

  /** Every \u escape of the grammar is found, with its code point. */
  lemma EscapeFound(s: bytes, i: nat, j: nat, cp: int)
    requires EscapeOf(s, i, j, cp)
    ensures EscapeAt(s, i, j) && CodeAt(s, i, j) == cp
  {
    var esc := s[i + 2..i + 6];
    assert esc[0] == s[i + 2] && esc[1] == s[i + 3] && esc[2] == s[i + 4] && esc[3] == s[i + 5];
    HexDecides(s[i + 2], cp / 0x1000, cp / 0x1000);
    HexDecides(s[i + 3], cp / 0x100 % 0x10, cp / 0x100 % 0x10);
    HexDecides(s[i + 4], cp / 0x10 % 0x10, cp / 0x10 % 0x10);
    HexDecides(s[i + 5], cp % 0x10, cp % 0x10);
    hide HexOf;
    var r := CodeAt(s, i, j);
    HexDecides(s[i + 2], cp / 0x1000, r / 0x1000);
    HexDecides(s[i + 3], cp / 0x100 % 0x10, r / 0x100 % 0x10);
    HexDecides(s[i + 4], cp / 0x10 % 0x10, r / 0x10 % 0x10);
    HexDecides(s[i + 5], cp % 0x10, r % 0x10);
    FromDigits(cp);
    FromDigits(r);
  }

  lemma HexDecides(b: byte, d: int, e: int)
    requires HexOf(b, d) && HexOf(b, e)
    ensures d == e && IsHexDigit(b)
  {
  }

  lemma FromDigits(cp: int)
    requires 0 <= cp < 0x10000
    ensures cp == cp / 0x1000 * 0x1000 + cp / 0x100 % 0x10 * 0x100 + cp / 0x10 % 0x10 * 0x10 + cp % 0x10
  {
    assert cp / 0x1000 == cp / 0x100 / 0x10 && cp / 0x100 == cp / 0x10 / 0x10;
  }

  predicate TrailAt(s: bytes, i: nat, j: nat) { EscapeAt(s, i, j) && 0xDC00 <= CodeAt(s, i, j) <= 0xDFFF }

  /** The eight letters after a backslash. */
  function LetterAt(c: byte): Option<byte> {
    match c as int
    case 0x22 => Some(0x22)
    case 0x5C => Some(0x5C)
    case 0x2F => Some(0x2F)
    case 0x62 => Some(0x08)
    case 0x66 => Some(0x0C)
    case 0x6E => Some(0x0A)
    case 0x72 => Some(0x0D)
    case 0x74 => Some(0x09)
    case _ => None
  }

  lemma LettersAgree(c: byte)
    ensures if SimpleEscape(c) < 0 then LetterAt(c) == None else LetterAt(c) == Some(SimpleEscape(c) as byte)
  {
  }

  function Joined(head: bytes, rest: Option<bytes>): Option<bytes> {
    if rest.None? then None else Some(head + rest.value)
  }

  /** What the characters between two quotes stand for, a surrogate pair being found by looking ahead. */
  function Chars(s: bytes, i: nat, j: nat): Option<bytes>
    requires i <= j <= |s|
    decreases j - i
  {
    if i == j then Some([])
    else if s[i] == 0x22 || s[i] < 0x20 then None
    else if s[i] != 0x5C then Joined([s[i]], Chars(s, i + 1, j))
    else if i + 1 == j then None
    else if s[i + 1] == 0x75 then
      if !EscapeAt(s, i, j) then None
      else if 0xD800 <= CodeAt(s, i, j) <= 0xDBFF && TrailAt(s, i + 6, j) then
        Joined(EncodeUtf8(0x10000 + (CodeAt(s, i, j) - 0xD800) * 0x400 + (CodeAt(s, i + 6, j) - 0xDC00)), Chars(s, i + 12, j))
      else Joined(EncodeUtf8(CodeAt(s, i, j)), Chars(s, i + 6, j))
    else
      match LetterAt(s[i + 1])
      case None => None
      case Some(b) => Joined([b], Chars(s, i + 2, j))
  }

  predicate StringText(s: bytes, i: nat, j: nat, t: bytes) {
    i + 2 <= j <= |s| && s[i] == 0x22 && s[j - 1] == 0x22 && Chars(s, i + 1, j - 1) == Some(t)
  }

  // ----- sections 3 to 5: values, objects, arrays -----

  /** s[i..j] is a text of v in which at most `room` containers are open at once around a value. */
  ghost predicate ValueText(s: bytes, i: nat, j: nat, v: Json, room: int, st: Strategy)
    decreases j - i, 0
  {
    && i < j <= |s| && room >= 0
    && match v
       case Null => s[i..j] == [0x6E, 0x75, 0x6C, 0x6C]
       case Bool(b) => s[i..j] == if b then [0x74, 0x72, 0x75, 0x65] else [0x66, 0x61, 0x6C, 0x73, 0x65]
       case Int(_) => NumberText(s, i, j, v)
       case Double(_) => NumberText(s, i, j, v)
       case Str(t) => StringText(s, i, j, t)
       case Array(items) =>
         && s[i] == 0x5B && s[j - 1] == 0x5D && i + 2 <= j
         && if items == [] then Blank(s, i + 1, j - 1, st) else ItemsText(s, i + 1, j - 1, items, room - 1, st)
       case Object(members) =>
         && s[i] == 0x7B && s[j - 1] == 0x7D && i + 2 <= j
         && ((members == [] && Blank(s, i + 1, j - 1, st))
             || exists ms :: MembersText(s, i + 1, j - 1, ms, room - 1, st) && members == Collected([], ms))
  }

  ghost predicate Padded(s: bytes, i: nat, j: nat, v: Json, room: int, st: Strategy)
    decreases j - i, 1
  {
    exists a: nat, b: nat | i <= a <= b <= j :: Blank(s, i, a, st) && ValueText(s, a, b, v, room, st) && Blank(s, b, j, st)
  }

  /** The character c stands at k. */
  predicate Mark(s: bytes, k: nat, c: byte) { k < |s| && s[k] == c }

  ghost predicate ItemsText(s: bytes, i: nat, j: nat, items: seq<Json>, room: int, st: Strategy)
    decreases j - i, 2
  {
    && items != []
    && if |items| == 1 then Padded(s, i, j, items[0], room, st)
       else exists c: nat | i <= c < j ::
              Padded(s, i, c, items[0], room, st) && Mark(s, c, 0x2C) && ItemsText(s, c + 1, j, items[1..], room, st)
  }

  ghost predicate PaddedKey(s: bytes, i: nat, j: nat, key: bytes, st: Strategy) {
    exists a: nat, b: nat :: Blank(s, i, a, st) && StringText(s, a, b, key) && Blank(s, b, j, st)
  }

  ghost predicate MemberText(s: bytes, i: nat, j: nat, m: Member, room: int, st: Strategy)
    decreases j - i, 2
  {
    exists c: nat | i <= c < j :: PaddedKey(s, i, c, m.key, st) && Mark(s, c, 0x3A) && Padded(s, c + 1, j, m.value, room, st)
  }

  ghost predicate MembersText(s: bytes, i: nat, j: nat, ms: seq<Member>, room: int, st: Strategy)
    decreases j - i, 3
  {
    && ms != []
    && if |ms| == 1 then MemberText(s, i, j, ms[0], room, st)
       else exists c: nat | i <= c < j ::
              MemberText(s, i, c, ms[0], room, st) && Mark(s, c, 0x2C) && MembersText(s, c + 1, j, ms[1..], room, st)
  }

  /** The object that members in the order of the text make: the last of a key counts. */
  function Collected(data: seq<Member>, ms: seq<Member>): seq<Member>
    decreases |ms|
  {
    if ms == [] then data else Collected(Insert(data, ms[0].key, ms[0].value), ms[1..])
  }

  /** s is a JSON text of v that nests within the limit. */
  ghost predicate IsText(s: bytes, v: Json, st: Strategy) { Padded(s, 0, |s|, v, 200, st) }

  // ----- blanks -----

  lemma {:induction false} BlankJoin(s: bytes, i: nat, a: nat, b: nat, st: Strategy)
    requires Blank(s, i, a, st) && Blank(s, a, b, st)
    ensures Blank(s, i, b, st)
    decreases a - i
  {
    hide CommentText;
    if i < a {
      if White(s[i]) && Blank(s, i + 1, a, st) {
        BlankJoin(s, i + 1, a, b, st);
      } else {
        var k: nat :| i < k <= a && CommentText(s, i, k) && Blank(s, k, a, st);
        BlankJoin(s, k, a, b, st);
      }
    }
  }

  lemma {:induction false} SkipIsBlank(s: bytes, i: nat, st: Strategy)
    requires i <= |s|
    ensures Blank(s, i, SkipSpace(s, i), st)
    decreases |s| - i
  {
    if i < |s| && IsSpace(s[i]) { SkipIsBlank(s, i + 1, st); }
  }

  lemma {:induction false} LineEndIs(s: bytes, i: nat, j: nat)
    requires i <= j <= |s|
    ensures LineEnd(s, i) == j <==> (forall k | i <= k < j :: s[k] != 0x0A) && (j == |s| || s[j] == 0x0A)
    decreases |s| - i
  {
    if i < |s| && s[i] != 0x0A && i < j { LineEndIs(s, i + 1, j); }
  }

  lemma {:induction false} CommentEndIs(s: bytes, i: nat, j: nat)
    requires 2 <= i && i + 2 <= j <= |s|
    ensures CommentEnd(s, i) == Ok(true, j) <==>
              s[j - 2] == 0x2A && s[j - 1] == 0x2F && forall k | i <= k < j - 2 :: !(s[k] == 0x2A && s[k + 1] == 0x2F)
    decreases |s| - i
  {
    if !(s[i] == 0x2A && s[i + 1] == 0x2F) {
      if i + 3 <= j { CommentEndIs(s, i + 1, j); } else { CommentEndAfter(s, i + 1); }
    }
  }

  /** A comment takes its closing mark. */
  lemma {:induction false} CommentEndAfter(s: bytes, i: nat)
    requires 2 <= i <= |s|
    ensures CommentEnd(s, i).Ok? ==> CommentEnd(s, i).value && i + 2 <= CommentEnd(s, i).next <= |s|
    decreases |s| - i
  {
    if i < |s| && !(i <= |s| - 2 && s[i] == STAR && s[i + 1] == SLASH) { CommentEndAfter(s, i + 1); }
  }

  lemma CommentIs(s: bytes, i: nat, j: nat)
    requires i <= |s|
    ensures Comment(s, i) == Ok(true, j) <==> CommentText(s, i, j)
  {
    hide LineEnd, CommentEnd;
    if i + 1 < |s| && s[i] == 0x2F {
      if s[i + 1] == 0x2F && i + 2 <= j <= |s| { LineEndIs(s, i + 2, j); }
      if s[i + 1] == 0x2A {
        CommentEndAfter(s, i + 2);
        if i + 4 <= j <= |s| { CommentEndIs(s, i + 2, j); }
      }
    }
  }

  /** What `consume_garbage` passes is blank, and stops where nothing blank can begin. */
  lemma {:induction false} GarbageIsBlank(s: bytes, i: nat, st: Strategy)
    requires i <= |s| && Garbage(s, i, st).Ok?
    ensures var j := Garbage(s, i, st).next; Blank(s, i, j, st) && !White(At(s, j)) && (st.COMMENTS? ==> At(s, j) != 0x2F)
    decreases |s| - i
  {
    hide CommentText, Blank, Comment;
    var j := SkipSpace(s, i);
    SkipIsBlank(s, i, st);
    if st.COMMENTS? {
      CommentOrNot(s, j);
      var c := Comment(s, j);
      if c.value {
        CommentIs(s, j, c.next);
        GarbageIsBlank(s, c.next, st);
        BlankComment(s, j, c.next, Garbage(s, i, st).next, st);
        BlankJoin(s, i, j, Garbage(s, i, st).next, st);
      }
    }
  }

  lemma CommentOrNot(s: bytes, i: nat)
    requires i <= |s| && Comment(s, i).Ok?
    ensures !Comment(s, i).value ==> At(s, i) != 0x2F
  {
  }

  lemma BlankComment(s: bytes, i: nat, k: nat, j: nat, st: Strategy)
    requires st.COMMENTS? && i < k && CommentText(s, i, k) && Blank(s, k, j, st)
    ensures Blank(s, i, j, st)
  {
    hide CommentText;
  }

  /** Blanks in front of a character that cannot begin one are passed. */
  lemma {:induction false} BlankPassed(s: bytes, i: nat, j: nat, st: Strategy)
    requires Blank(s, i, j, st) && !White(At(s, j)) && At(s, j) != 0x2F
    ensures i <= |s| && Garbage(s, i, st) == Ok((), j)
    decreases j - i
  {
    hide CommentText, Comment;
    if i < j {
      if White(s[i]) && Blank(s, i + 1, j, st) {
        BlankPassed(s, i + 1, j, st);
      } else {
        var k: nat :| i < k <= j && CommentText(s, i, k) && Blank(s, k, j, st);
        CommentIs(s, i, k);
        assert s[i] == 0x2F by { CommentBegins(s, i, k); }
        BlankPassed(s, k, j, st);
      }
    } else {
      NoComment(s, j);
    }
  }

  lemma CommentBegins(s: bytes, i: nat, k: nat)
    requires CommentText(s, i, k)
    ensures i < |s| && s[i] == 0x2F
  {
  }

  lemma NoComment(s: bytes, i: nat)
    requires i <= |s| && At(s, i) != 0x2F
    ensures Comment(s, i) == Ok(false, i)
  {
  }

  /** Blanks in front of a character that begins none. */
  lemma TokenBehind(s: bytes, i: nat, j: nat, st: Strategy)
    requires Blank(s, i, j, st) && j < |s| && !White(s[j]) && s[j] != 0x2F
    ensures Token(s, i, st) == Ok(s[j], j + 1)
  {
    hide Garbage;
    BlankPassed(s, i, j, st);
  }

  lemma TokenSpaces(s: bytes, i: nat, st: Strategy)
    requires i <= |s| && Token(s, i, st).Ok?
    ensures var r := Token(s, i, st); Blank(s, i, r.next - 1, st) && !White(r.value)
  {
    hide Garbage;
    GarbageIsBlank(s, i, st);
  }

  // ----- numbers -----

  lemma {:induction false} SkipIsDigits(s: bytes, i: nat)
    requires i <= |s| && IsDigit(At(s, i))
    ensures AllDigitsIn(s, i, SkipDigits(s, i))
    decreases |s| - i
  {
    if IsDigit(At(s, i + 1)) { SkipIsDigits(s, i + 1); }
  }

  lemma {:induction false} DigitsSkipped(s: bytes, i: nat, j: nat)
    requires AllDigitsIn(s, i, j) && !IsDigit(At(s, j))
    ensures SkipDigits(s, i) == j
    decreases j - i
  {
    if i + 1 < j { DigitsSkipped(s, i + 1, j); }
  }

  lemma IntegerPartIs(s: bytes, i: nat, j: nat)
    requires i <= |s|
    ensures IntegerPart(s, i) == Ok((), j) ==> IntText(s, i, j)
    ensures IntText(s, i, j) && !IsDigit(At(s, j)) ==> IntegerPart(s, i) == Ok((), j)
  {
    hide SkipDigits;
    if IsDigit(At(s, i)) { SkipIsDigits(s, i); }
    if IntText(s, i, j) && !IsDigit(At(s, j)) { DigitsSkipped(s, i, j); }
  }

  lemma FractionPartIs(s: bytes, i: nat, j: nat)
    requires i <= |s|
    ensures FractionPart(s, i) == Ok((), j) ==> FracText(s, i, j)
    ensures FracText(s, i, j) && !IsDigit(At(s, j)) && At(s, j) != DOT ==> FractionPart(s, i) == Ok((), j)
  {
    hide SkipDigits;
    if IsDigit(At(s, i + 1)) && i < |s| { SkipIsDigits(s, i + 1); }
    if FracText(s, i, j) && !IsDigit(At(s, j)) && i < j { DigitsSkipped(s, i + 1, j); }
  }

  lemma ExponentPartIs(s: bytes, i: nat, j: nat)
    requires i <= |s|
    ensures ExponentPart(s, i) == Ok((), j) ==> ExpText(s, i, j)
    ensures ExpText(s, i, j) && Delimiter(At(s, j)) ==> ExponentPart(s, i) == Ok((), j)
  {
    hide SkipDigits;
    if i < |s| {
      var k := if At(s, i + 1) == PLUS || At(s, i + 1) == MINUS then i + 2 else i + 1;
      if IsDigit(At(s, k)) { SkipIsDigits(s, k); }
      if ExpText(s, i, j) && Delimiter(At(s, j)) && i < j { DigitsSkipped(s, k, j); }
    }
  }

  lemma NumberReadable(s: bytes, i: nat, j: nat, v: Json)
    requires NumberText(s, i, j, v) && Delimiter(At(s, j))
    ensures NumberAt(s, i) == Ok(v, j)
  {
    var a, b :| i <= a <= b <= j && IntText(s, SignEnd(s, i), a) && FracText(s, a, b) && ExpText(s, b, j);
    IntegerPartIs(s, SignEnd(s, i), a);
    FractionPartIs(s, a, b);
    ExponentPartIs(s, b, j);
    NumberShape(s, i, a, b, j);
    if a == j { LiteralIsDecimal(s, i, j); }
    hide IntegerPart, FractionPart, ExponentPart, IntText, FracText, ExpText, LiteralValue, IsIntegerLiteral, DecimalIn;
  }

  /** The value of an integer literal is the number it writes. */
  lemma LiteralIsDecimal(s: bytes, i: nat, j: nat)
    requires i < j <= |s| && IntText(s, SignEnd(s, i), j)
    ensures IsIntegerLiteral(s[i..j]) && LiteralValue(s[i..j]) == if s[i] == 0x2D then -DecimalIn(s, i + 1, j) else DecimalIn(s, i, j)
  {
    var start := SignEnd(s, i);
    assert forall k | 0 <= k < j - start :: s[start..j][k] == s[start + k];
    LiteralShape(s, i, j);
    DigitsAreDecimal(s, start, j);
    if s[i] == 0x2D { assert s[i..j][1..] == s[i + 1..j]; }
  }

  lemma {:induction false} DigitsAreDecimal(s: bytes, i: nat, j: nat)
    requires i <= j <= |s| && AllDigits(s[i..j])
    ensures DigitsValue(s[i..j]) == DecimalIn(s, i, j)
    decreases j - i
  {
    if i < j {
      var t, u := s[i..j], s[i..j - 1];
      assert t[..|t| - 1] == u && t[|t| - 1] == s[j - 1];
      assert forall k | 0 <= k < |u| :: u[k] == t[k];
      DigitsAreDecimal(s, i, j - 1);
    }
  }

  /** Where the integer part of a numeral ends. */
  lemma NumberShape(s: bytes, i: nat, a: nat, b: nat, j: nat)
    requires i <= a <= b <= j <= |s| && IntText(s, SignEnd(s, i), a) && FracText(s, a, b) && ExpText(s, b, j) && Delimiter(At(s, j))
    ensures !IsDigit(At(s, a)) && !IsDigit(At(s, b)) && At(s, b) != DOT
    ensures IntText(s, SignEnd(s, i), j) <==> a == j
    ensures a == j <==> At(s, a) != DOT && At(s, a) != LOWER_E && At(s, a) != UPPER_E
    ensures IsIntegerLiteral(s[i..a])
  {
    LiteralShape(s, i, a) by {
      var start := SignEnd(s, i);
      assert forall k | 0 <= k < a - start :: s[start..a][k] == s[start + k];
    }
  }

  lemma NumberWritten(s: bytes, i: nat)
    requires i < |s| && NumberAt(s, i).Ok?
    ensures var r := NumberAt(s, i); NumberText(s, i, r.next, r.value) && (r.value.Int? || r.value.Double?)
  {
    hide LiteralValue, IsIntegerLiteral, DecimalIn, SkipDigits, IntText, FracText, ExpText;
    var start := SignEnd(s, i);
    var a := IntegerPart(s, start).next;
    assert IntegerPart(s, start) == Ok((), a);
    IntegerPartIs(s, start, a);
    if At(s, a) != DOT && At(s, a) != LOWER_E && At(s, a) != UPPER_E && a - i <= INT_DIGITS10 {
      LiteralIsDecimal(s, i, a);
      NoPart(s, a);
      assert IntText(s, start, a) && FracText(s, a, a) && ExpText(s, a, a);
    } else {
      PartsWritten(s, i, a);
    }
  }

  lemma PartsWritten(s: bytes, i: nat, a: nat)
    requires i < a <= |s| && IntText(s, SignEnd(s, i), a) && FractionPart(s, a).Ok? && ExponentPart(s, FractionPart(s, a).next).Ok?
    ensures var j := ExponentPart(s, FractionPart(s, a).next).next;
            Numeral(s, i, j) && (IntText(s, SignEnd(s, i), j) ==> a == j)
  {
    var b := FractionPart(s, a).next;
    var j := ExponentPart(s, b).next;
    assert FractionPart(s, a) == Ok((), b) && ExponentPart(s, b) == Ok((), j);
    FractionPartIs(s, a, b);
    ExponentPartIs(s, b, j);
    hide FractionPart, ExponentPart, IntText, FracText, ExpText;
    if IntText(s, SignEnd(s, i), j) { IntegerIsShort(s, i, a, b, j); }
  }

  lemma NoPart(s: bytes, a: nat)
    ensures FracText(s, a, a) && ExpText(s, a, a)
  {
  }

  /** A number with more than an integer part is no integer. */
  lemma IntegerIsShort(s: bytes, i: nat, a: nat, b: nat, j: nat)
    requires IntText(s, SignEnd(s, i), a) && FracText(s, a, b) && ExpText(s, b, j) && IntText(s, SignEnd(s, i), j)
    ensures a == j
  {
  }

  // ----- strings -----

  /** What the characters from i on stand for when the code point `last` is still to be written. */
  function Pending(s: bytes, i: nat, j: nat, last: int): Option<bytes>
    requires i <= j <= |s| && -1 <= last < 0x10000
  {
    if IsLead(last) && TrailAt(s, i, j) then Joined(EncodeUtf8(Astral(last, CodeAt(s, i, j))), Chars(s, i + 6, j))
    else Joined(EncodeUtf8(last), Chars(s, i, j))
  }

  lemma JoinedTwice(a: bytes, b: bytes, r: Option<bytes>)
    ensures Joined(a, Joined(b, r)) == Joined(a + b, r) && Joined([], r) == r
  {
    if r.Some? { assert a + (b + r.value) == a + b + r.value && [] + r.value == r.value; }
  }

  /** A character that stands for itself. */
  lemma PlainRound(s: bytes, i: nat, j: nat, out: bytes, last: int)
    requires i < j <= |s| && s[i] > 0x1F && s[i] != QUOTE && s[i] != BACKSLASH && -1 <= last < 0x10000
    ensures Pending(s, i, j, last) == Joined(EncodeUtf8(last) + [s[i]], Pending(s, i + 1, j, -1))
    ensures StringLoop(s, i, out, last) == StringLoop(s, i + 1, out + (EncodeUtf8(last) + [s[i]]), -1)
  {
    var write := EncodeUtf8(last);
    assert out + (write + [s[i]]) == out + write + [s[i]];
    hide EncodeUtf8;
    JoinedTwice(write, [s[i]], Chars(s, i + 1, j));
    NothingPending(s, i + 1, j);
  }

  lemma NothingPending(s: bytes, i: nat, j: nat)
    requires i <= j <= |s|
    ensures Pending(s, i, j, -1) == Chars(s, i, j)
  {
    JoinedTwice([], [], Chars(s, i, j));
  }

  lemma LetterRound(s: bytes, i: nat, j: nat, out: bytes, last: int)
    requires i + 2 <= j <= |s| && s[i] == BACKSLASH && SimpleEscape(s[i + 1]) >= 0 && -1 <= last < 0x10000
    ensures Pending(s, i, j, last) == Joined(EncodeUtf8(last) + [SimpleEscape(s[i + 1])], Pending(s, i + 2, j, -1))
    ensures StringLoop(s, i, out, last) == StringLoop(s, i + 2, out + (EncodeUtf8(last) + [SimpleEscape(s[i + 1])]), -1)
  {
    var write, c := EncodeUtf8(last), SimpleEscape(s[i + 1]);
    assert out + (write + [c]) == out + write + [c];
    assert s[i + 1] != LOWER_U;
    hide EncodeUtf8, SimpleEscape;
    JoinedTwice(write, [c], Chars(s, i + 2, j));
    NothingPending(s, i + 2, j);
  }

  /** What a \u escape makes the loop write, and the code point it leaves pending. */
  function Written(last: int, pt: int): (bytes, int)
    requires -1 <= last < 0x10000 && 0 <= pt < 0x10000
  {
    if IsLead(last) && IsTrail(pt) then (EncodeUtf8(Astral(last, pt)), -1) else (EncodeUtf8(last), pt)
  }

  lemma EscapeRound(s: bytes, i: nat, j: nat, out: bytes, last: int)
    requires EscapeAt(s, i, j) && -1 <= last < 0x10000
    ensures var (write, pt) := Written(last, CodeAt(s, i, j));
            && Pending(s, i, j, last) == Joined(write, Pending(s, i + 6, j, pt))
            && StringLoop(s, i, out, last) == StringLoop(s, i + 6, out + write, pt)
  {
    hide EncodeUtf8, IsHex4, Hex4, SimpleEscape;
    assert Window(s, i + 2) == s[i + 2..i + 6];
    NothingPending(s, i + 6, j);
  }

  /** In front of the closing quote the loop reads what stands there. */
  lemma {:induction false} StringReadable(s: bytes, i: nat, j: nat, out: bytes, last: int)
    requires i <= j < |s| && s[j] == QUOTE && -1 <= last < 0x10000 && Pending(s, i, j, last).Some?
    ensures StringLoop(s, i, out, last) == Ok(out + Pending(s, i, j, last).value, j + 1)
    decreases j - i
  {
    hide EncodeUtf8, Pending, StringLoop, EscapeAt, Written, SimpleEscape;
    if i == j {
      QuoteRound(s, i, out, last);
    } else if s[i] != BACKSLASH {
      CharsOf(s, i, j, last);
      PlainRound(s, i, j, out, last);
      StringReadable(s, i + 1, j, out + (EncodeUtf8(last) + [s[i]]), -1);
      Regrouped(out, EncodeUtf8(last) + [s[i]], Pending(s, i + 1, j, -1));
    } else if EscapeAt(s, i, j) {
      EscapeRound(s, i, j, out, last);
      var (write, pt) := WrittenAt(s, i, j, last);
      StringReadable(s, i + 6, j, out + write, pt);
      Regrouped(out, write, Pending(s, i + 6, j, pt));
    } else {
      CharsOf(s, i, j, last);
      var write := EncodeUtf8(last) + [SimpleEscape(s[i + 1])];
      LetterRound(s, i, j, out, last);
      StringReadable(s, i + 2, j, out + write, -1);
      Regrouped(out, write, Pending(s, i + 2, j, -1));
    }
  }

  function WrittenAt(s: bytes, i: nat, j: nat, last: int): (r: (bytes, int))
    requires EscapeAt(s, i, j) && -1 <= last < 0x10000
    ensures r == Written(last, CodeAt(s, i, j)) && -1 <= r.1 < 0x10000 && i + 6 <= j <= |s|
  {
    Written(last, CodeAt(s, i, j))
  }

  lemma Regrouped(out: bytes, write: bytes, rest: Option<bytes>)
    ensures rest.Some? ==> Joined(write, rest) == Some(write + rest.value) && out + write + rest.value == out + (write + rest.value)
    ensures rest.None? ==> Joined(write, rest).None?
  {
  }

  lemma QuoteRound(s: bytes, i: nat, out: bytes, last: int)
    requires i < |s| && s[i] == QUOTE && -1 <= last < 0x10000
    ensures Pending(s, i, i, last) == Some(EncodeUtf8(last))
    ensures StringLoop(s, i, out, last) == Ok(out + EncodeUtf8(last), i + 1)
  {
    hide EncodeUtf8;
    assert EncodeUtf8(last) + [] == EncodeUtf8(last);
  }

  /** Characters that stand for something begin in one of three ways. */
  lemma CharsOf(s: bytes, i: nat, j: nat, last: int)
    requires i < j <= |s| && -1 <= last < 0x10000 && Pending(s, i, j, last).Some?
    ensures s[i] != BACKSLASH ==> s[i] > 0x1F && s[i] != QUOTE
    ensures s[i] == BACKSLASH && !EscapeAt(s, i, j) ==> i + 2 <= j && SimpleEscape(s[i + 1]) >= 0
  {
    if i + 1 < j { LettersAgree(s[i + 1]); }
    hide EncodeUtf8, IsHex4, Hex4, SimpleEscape;
  }

  /** A string that the loop reads stands before its closing quote. */
  lemma {:induction false} StringWritten(s: bytes, i: nat, out: bytes, last: int)
    requires i <= |s| && -1 <= last < 0x10000 && StringLoop(s, i, out, last).Ok?
    ensures var r := StringLoop(s, i, out, last);
            s[r.next - 1] == QUOTE && Pending(s, i, r.next - 1, last).Some? && r.value == out + Pending(s, i, r.next - 1, last).value
    decreases |s| - i
  {
    var j := StringLoop(s, i, out, last).next - 1;
    LoopOf(s, i, out, last);
    hide EncodeUtf8, Pending, StringLoop, EscapeAt, Written, SimpleEscape;
    if s[i] == QUOTE {
      QuoteRound(s, i, out, last);
    } else if s[i] != BACKSLASH {
      var write := EncodeUtf8(last) + [s[i]];
      PlainRound(s, i, i + 1, out, last);
      StringWritten(s, i + 1, out + write, -1);
      PlainRound(s, i, j, out, last);
      Regrouped(out, write, Pending(s, i + 1, j, -1));
    } else if EscapeAt(s, i, i + 6) {
      EscapeRound(s, i, i + 6, out, last);
      var (write, pt) := WrittenAt(s, i, i + 6, last);
      StringWritten(s, i + 6, out + write, pt);
      EscapeStays(s, i, i + 6, j);
      EscapeRound(s, i, j, out, last);
      Regrouped(out, write, Pending(s, i + 6, j, pt));
    } else {
      var write := EncodeUtf8(last) + [SimpleEscape(s[i + 1])];
      LetterRound(s, i, i + 2, out, last);
      StringWritten(s, i + 2, out + write, -1);
      LetterRound(s, i, j, out, last);
      Regrouped(out, write, Pending(s, i + 2, j, -1));
    }
  }

  lemma EscapeStays(s: bytes, i: nat, j: nat, k: nat)
    requires EscapeAt(s, i, j) && i + 6 <= k <= |s|
    ensures EscapeAt(s, i, k) && CodeAt(s, i, k) == CodeAt(s, i, j)
  {
  }

  /** Neither do the rounds of a loop that succeeds begin otherwise. */
  lemma LoopOf(s: bytes, i: nat, out: bytes, last: int)
    requires i <= |s| && -1 <= last < 0x10000 && StringLoop(s, i, out, last).Ok?
    ensures i < |s| && (s[i] != QUOTE && s[i] != BACKSLASH ==> s[i] > 0x1F)
    ensures s[i] == BACKSLASH && !EscapeAt(s, i, i + 6) ==> i + 2 <= |s| && SimpleEscape(s[i + 1]) >= 0
  {
    hide EncodeUtf8, Hex4, SimpleEscape;
    assert i + 6 <= |s| ==> Window(s, i + 2) == s[i + 2..i + 6];
  }

  lemma StringIs(s: bytes, i: nat, j: nat, t: bytes)
    requires i < |s| && s[i] == QUOTE
    ensures String(s, i + 1) == Ok(t, j) <==> StringText(s, i, j, t)
  {
    hide StringLoop, Chars, Pending;
    if String(s, i + 1) == Ok(t, j) {
      StringWritten(s, i + 1, [], -1);
      NothingPending(s, i + 1, j - 1);
      assert [] + Pending(s, i + 1, j - 1, -1).value == Pending(s, i + 1, j - 1, -1).value;
    }
    if StringText(s, i, j, t) {
      NothingPending(s, i + 1, j - 1);
      StringReadable(s, i + 1, j - 1, [], -1);
      assert [] + t == t;
    }
  }

  // ----- what the parser returns is written there -----

  /** A value read from i on. */
  lemma {:induction false} ValueWritten(s: bytes, i: nat, depth: nat, st: Strategy) returns (a: nat)
    requires i <= |s| && Value(s, i, depth, st).Ok?
    ensures var r := Value(s, i, depth, st);
            depth <= MAX_DEPTH && a < r.next && Blank(s, i, a, st) && ValueText(s, a, r.next, r.value, MAX_DEPTH - depth, st)
    decreases |s| - i, 0
  {
    hide Items, Members, String, NumberAt, ItemsText, MembersText, NumberText, StringText, Blank, WordAt, Token, ValueText, Collected;
    TokenSpaces(s, i, st);
    var ch, j := Token(s, i, st).value, Token(s, i, st).next;
    var room := MAX_DEPTH - depth;
    a := j - 1;
    if ch == MINUS || IsDigit(ch) {
      NumberWritten(s, a);
      NumberIsValue(s, a, NumberAt(s, a).next, NumberAt(s, a).value, room, st);
    } else if ch == LOWER_T {
      WordWritten(s, a, TRUE, Bool(true), room, st);
    } else if ch == LOWER_F {
      WordWritten(s, a, FALSE, Bool(false), room, st);
    } else if ch == LOWER_N {
      WordWritten(s, a, NULL, Null, room, st);
    } else if ch == QUOTE {
      var r := String(s, j);
      StringIs(s, a, r.next, r.value);
      StringIsValue(s, a, r.next, r.value, room, st);
    } else {
      TokenSpaces(s, j, st);
      var c, k := Token(s, j, st).value, Token(s, j, st).next;
      if ch == LBRACKET && c == RBRACKET {
        ArrayIsValue(s, a, k, [], room, st);
      } else if ch == LBRACKET {
        var end := Items(s, k - 1, depth, st, []).next;
        var items := ItemsWritten(s, k - 1, depth, [], st);
        ItemsAfterSpaces(s, j, k - 1, end - 1, items, room - 1, st);
        ArrayIsValue(s, a, end, items, room, st);
        assert [] + items == items;
      } else if c == RBRACE {
        ObjectIsValue(s, a, k, [], room, st);
      } else {
        var end := Members(s, k, c, depth, st, []).next;
        var ms := MembersWritten(s, k, c, depth, [], st);
        MembersAfterSpaces(s, j, k - 1, end - 1, ms, room - 1, st);
        ObjectIsValue(s, a, end, ms, room, st);
      }
    }
  }

  lemma NumberIsValue(s: bytes, i: nat, j: nat, v: Json, room: int, st: Strategy)
    requires NumberText(s, i, j, v) && (v.Int? || v.Double?) && room >= 0
    ensures ValueText(s, i, j, v, room, st)
  {
  }

  lemma StringIsValue(s: bytes, i: nat, j: nat, t: bytes, room: int, st: Strategy)
    requires StringText(s, i, j, t) && room >= 0
    ensures ValueText(s, i, j, Str(t), room, st)
  {
    hide Chars;
  }

  lemma ArrayIsValue(s: bytes, i: nat, j: nat, items: seq<Json>, room: int, st: Strategy)
    requires i + 2 <= j <= |s| && s[i] == LBRACKET && s[j - 1] == RBRACKET && room >= 0
    requires if items == [] then Blank(s, i + 1, j - 1, st) else ItemsText(s, i + 1, j - 1, items, room - 1, st)
    ensures ValueText(s, i, j, Array(items), room, st)
  {
    hide ItemsText, Blank;
  }

  lemma ObjectIsValue(s: bytes, i: nat, j: nat, ms: seq<Member>, room: int, st: Strategy)
    requires i + 2 <= j <= |s| && s[i] == LBRACE && s[j - 1] == RBRACE && room >= 0
    requires if ms == [] then Blank(s, i + 1, j - 1, st) else MembersText(s, i + 1, j - 1, ms, room - 1, st)
    ensures ValueText(s, i, j, Object(Collected([], ms)), room, st) && Collected([], []) == []
  {
    hide MembersText, Blank;
  }

  lemma WordWritten(s: bytes, i: nat, word: bytes, v: Json, room: int, st: Strategy)
    requires i < |s| && room >= 0 && word != [] && WordAt(s, i, word, v).Ok?
    requires match v case Null => word == NULL case Bool(b) => word == (if b then TRUE else FALSE) case _ => false
    ensures ValueText(s, i, WordAt(s, i, word, v).next, v, room, st) && WordAt(s, i, word, v).value == v
  {
  }

  lemma PaddedAfterSpaces(s: bytes, h: nat, i: nat, j: nat, v: Json, room: int, st: Strategy)
    requires Blank(s, h, i, st) && Padded(s, i, j, v, room, st)
    ensures Padded(s, h, j, v, room, st)
  {
    hide ValueText;
    var a: nat, b: nat :| i <= a <= b <= j && Blank(s, i, a, st) && ValueText(s, a, b, v, room, st) && Blank(s, b, j, st);
    BlankJoin(s, h, i, a, st);
  }

  lemma ItemsAfterSpaces(s: bytes, h: nat, i: nat, j: nat, items: seq<Json>, room: int, st: Strategy)
    requires Blank(s, h, i, st) && ItemsText(s, i, j, items, room, st)
    ensures ItemsText(s, h, j, items, room, st)
  {
    hide Padded;
    assert h <= i;
    if |items| == 1 {
      PaddedAfterSpaces(s, h, i, j, items[0], room, st);
    } else {
      var c: nat :| i <= c < j && Padded(s, i, c, items[0], room, st) && Mark(s, c, 0x2C) && ItemsText(s, c + 1, j, items[1..], room, st);
      PaddedAfterSpaces(s, h, i, c, items[0], room, st);
    }
  }

  lemma KeyAfterSpaces(s: bytes, h: nat, i: nat, j: nat, key: bytes, st: Strategy)
    requires Blank(s, h, i, st) && PaddedKey(s, i, j, key, st)
    ensures PaddedKey(s, h, j, key, st)
  {
    var a: nat, b: nat :| Blank(s, i, a, st) && StringText(s, a, b, key) && Blank(s, b, j, st);
    BlankJoin(s, h, i, a, st);
  }

  lemma MembersAfterSpaces(s: bytes, h: nat, i: nat, j: nat, ms: seq<Member>, room: int, st: Strategy)
    requires Blank(s, h, i, st) && MembersText(s, i, j, ms, room, st)
    ensures MembersText(s, h, j, ms, room, st)
  {
    hide Padded, PaddedKey;
    assert h <= i;
    if |ms| == 1 {
      MemberAfterSpaces(s, h, i, j, ms[0], room, st);
    } else {
      var c: nat :| i <= c < j && MemberText(s, i, c, ms[0], room, st) && Mark(s, c, 0x2C) && MembersText(s, c + 1, j, ms[1..], room, st);
      MemberAfterSpaces(s, h, i, c, ms[0], room, st);
    }
  }

  lemma MemberAfterSpaces(s: bytes, h: nat, i: nat, j: nat, m: Member, room: int, st: Strategy)
    requires Blank(s, h, i, st) && MemberText(s, i, j, m, room, st)
    ensures MemberText(s, h, j, m, room, st)
  {
    hide Padded, PaddedKey;
    var c: nat :| i <= c < j && PaddedKey(s, i, c, m.key, st) && Mark(s, c, 0x3A) && Padded(s, c + 1, j, m.value, room, st);
    KeyAfterSpaces(s, h, i, c, m.key, st);
  }

  /** A value with the spaces around it, up to the next token. */
  lemma {:induction false} PaddedWritten(s: bytes, i: nat, depth: nat, st: Strategy)
    requires i <= |s| && Value(s, i, depth, st).Ok? && Token(s, Value(s, i, depth, st).next, st).Ok?
    ensures var r := Value(s, i, depth, st);
            && depth <= MAX_DEPTH && i <= Token(s, r.next, st).next - 1
            && Padded(s, i, Token(s, r.next, st).next - 1, r.value, MAX_DEPTH - depth, st)
    decreases |s| - i, 1
  {
    hide Value, Token, ValueText;
    var a := ValueWritten(s, i, depth, st);
    TokenSpaces(s, Value(s, i, depth, st).next, st);
  }

  /** The items that the list loop adds. */
  lemma {:induction false} ItemsWritten(s: bytes, i: nat, depth: nat, data: seq<Json>, st: Strategy) returns (items: seq<Json>)
    requires i <= |s| && Items(s, i, depth, st, data).Ok?
    ensures var r := Items(s, i, depth, st, data);
            && depth + 1 <= MAX_DEPTH && r.value == Array(data + items) && s[r.next - 1] == RBRACKET
            && items != [] && i < r.next && ItemsText(s, i, r.next - 1, items, MAX_DEPTH - depth - 1, st)
    decreases |s| - i, 3
  {
    hide *;
    var v, n := ItemWritten(s, i, depth, data, st);
    var room := MAX_DEPTH - depth - 1;
    if s[n - 1] == RBRACKET {
      items := [v];
      OneItem(s, i, n - 1, v, room, st);
    } else {
      var m := Token(s, n, st).next;
      var rest := ItemsWritten(s, m - 1, depth, data + [v], st);
      var end := Items(s, m - 1, depth, st, data + [v]).next - 1;
      items := [v] + rest;
      TokenSpaces(s, n, st);
      ItemsAfterSpaces(s, n, m - 1, end, rest, room, st);
      MoreItems(s, i, n - 1, end, v, rest, room, st);
      assert data + [v] + rest == data + items;
    }
  }

  /** The first of these, with the token behind it at n - 1. */
  lemma {:induction false} ItemWritten(s: bytes, i: nat, depth: nat, data: seq<Json>, st: Strategy) returns (v: Json, n: nat)
    requires i <= |s| && Items(s, i, depth, st, data).Ok?
    ensures i < n <= |s| && depth + 1 <= MAX_DEPTH && Padded(s, i, n - 1, v, MAX_DEPTH - depth - 1, st)
    ensures var next := Token(s, n, st);
            if s[n - 1] == RBRACKET then Items(s, i, depth, st, data) == Ok(Array(data + [v]), n)
            else s[n - 1] == COMMA && next.Ok? && n < next.next <= |s| && Items(s, i, depth, st, data) == Items(s, next.next - 1, depth, st, data + [v])
    decreases |s| - i, 2
  {
    hide Value, Token, Padded;
    PaddedWritten(s, i, depth + 1, st);
    v, n := Value(s, i, depth + 1, st).value, Token(s, Value(s, i, depth + 1, st).next, st).next;
  }

  lemma OneItem(s: bytes, i: nat, j: nat, v: Json, room: int, st: Strategy)
    requires Padded(s, i, j, v, room, st)
    ensures ItemsText(s, i, j, [v], room, st)
  {
    hide Padded;
  }

  lemma MoreItems(s: bytes, i: nat, c: nat, j: nat, v: Json, rest: seq<Json>, room: int, st: Strategy)
    requires i <= c < j && Padded(s, i, c, v, room, st) && c < |s| && s[c] == COMMA && rest != [] && ItemsText(s, c + 1, j, rest, room, st)
    ensures ItemsText(s, i, j, [v] + rest, room, st)
  {
    hide Padded;
    var items := [v] + rest;
    assert items[0] == v && items[1..] == rest && |items| > 1;
    assert Padded(s, i, c, items[0], room, st) && Mark(s, c, 0x2C) && ItemsText(s, c + 1, j, items[1..], room, st);
  }

  /** The first member likewise. */
  lemma {:induction false} MemberWritten(s: bytes, i: nat, depth: nat, data: seq<Member>, st: Strategy) returns (m: Member, n: nat)
    requires 0 < i <= |s| && s[i - 1] == QUOTE && Members(s, i, QUOTE, depth, st, data).Ok?
    ensures i < n <= |s| && depth + 1 <= MAX_DEPTH && MemberText(s, i - 1, n - 1, m, MAX_DEPTH - depth - 1, st)
    ensures var data', next := Insert(data, m.key, m.value), Token(s, n, st);
            if s[n - 1] == RBRACE then Members(s, i, QUOTE, depth, st, data) == Ok(Object(data'), n)
            else s[n - 1] == COMMA && next.Ok?
                 && Members(s, i, QUOTE, depth, st, data) == Members(s, next.next, next.value, depth, st, data')
    decreases |s| - i, 2
  {
    hide Value, Token, Padded, Insert, String, PaddedKey;
    var key, j := String(s, i).value, String(s, i).next;
    var k := Token(s, j, st).next;
    var v, e := Value(s, k, depth + 1, st).value, Value(s, k, depth + 1, st).next;
    m, n := Member(key, v), Token(s, e, st).next;
    KeyWritten(s, i - 1, st);
    PaddedWritten(s, k, depth + 1, st);
  }

  /** The members that the object loop adds, the first of which begins right before i. */
  lemma {:induction false} MembersWritten(s: bytes, i: nat, ch: byte, depth: nat, data: seq<Member>, st: Strategy) returns (ms: seq<Member>)
    requires 0 < i <= |s| && s[i - 1] == ch && Members(s, i, ch, depth, st, data).Ok?
    ensures var r := Members(s, i, ch, depth, st, data);
            && depth + 1 <= MAX_DEPTH && r.value == Object(Collected(data, ms)) && s[r.next - 1] == RBRACE
            && ms != [] && i < r.next && MembersText(s, i - 1, r.next - 1, ms, MAX_DEPTH - depth - 1, st)
    decreases |s| - i, 3
  {
    hide *;
    MembersQuoted(s, i, ch, depth, data, st);
    var m, n := MemberWritten(s, i, depth, data, st);
    var data', room := Insert(data, m.key, m.value), MAX_DEPTH - depth - 1;
    if s[n - 1] == RBRACE {
      ms := [m];
      LastMember(s, i - 1, n - 1, data, m, room, st);
    } else {
      var d, o := Token(s, n, st).value, Token(s, n, st).next;
      var rest := MembersWritten(s, o, d, depth, data', st);
      var end := Members(s, o, d, depth, st, data').next - 1;
      ms := [m] + rest;
      TokenSpaces(s, n, st);
      MembersAfterSpaces(s, n, o - 1, end, rest, room, st);
      MoreMembers(s, i - 1, n - 1, end, data, m, rest, room, st);
    }
  }

  lemma MembersQuoted(s: bytes, i: nat, ch: byte, depth: nat, data: seq<Member>, st: Strategy)
    requires i <= |s| && Members(s, i, ch, depth, st, data).Ok?
    ensures ch == QUOTE
  {
  }

  lemma LastMember(s: bytes, i: nat, j: nat, data: seq<Member>, m: Member, room: int, st: Strategy)
    requires MemberText(s, i, j, m, room, st)
    ensures MembersText(s, i, j, [m], room, st) && Collected(data, [m]) == Insert(data, m.key, m.value)
  {
    hide MemberText, Insert;
    assert [m][1..] == [];
  }

  lemma MoreMembers(s: bytes, i: nat, c: nat, j: nat, data: seq<Member>, m: Member, rest: seq<Member>, room: int, st: Strategy)
    requires i <= c < j && MemberText(s, i, c, m, room, st) && c < |s| && s[c] == COMMA && rest != [] && MembersText(s, c + 1, j, rest, room, st)
    ensures MembersText(s, i, j, [m] + rest, room, st) && Collected(data, [m] + rest) == Collected(Insert(data, m.key, m.value), rest)
  {
    hide MemberText, Insert;
    var ms := [m] + rest;
    assert ms[0] == m && ms[1..] == rest && |ms| > 1;
    assert MemberText(s, i, c, ms[0], room, st) && Mark(s, c, 0x2C) && MembersText(s, c + 1, j, ms[1..], room, st);
  }

  lemma KeyWritten(s: bytes, i: nat, st: Strategy)
    requires i < |s| && s[i] == QUOTE && String(s, i + 1).Ok? && Token(s, String(s, i + 1).next, st).Ok?
    ensures var r := String(s, i + 1); PaddedKey(s, i, Token(s, r.next, st).next - 1, r.value, st)
  {
    hide String, StringText, Token;
    var r := String(s, i + 1);
    StringIs(s, i, r.next, r.value);
    TokenSpaces(s, r.next, st);
    assert Blank(s, i, i, st);
  }

  // ----- what is written, the parser reads -----

  /** What may stand behind a value: a space, a comma, a closing mark or the end. */
  lemma NothingExtends(s: bytes, i: nat, j: nat, st: Strategy)
    requires Blank(s, i, j, st) && (j == |s| || s[j] in {COMMA, RBRACKET, RBRACE})
    ensures Delimiter(At(s, i))
  {
  }

  lemma WordReadable(s: bytes, i: nat, j: nat, word: bytes, v: Json)
    requires i <= j <= |s| && s[i..j] == word && word != []
    ensures i < |s| && s[i] == word[0] && WordAt(s, i, word, v) == Ok(v, j)
  {
    assert s[i..j][0] == s[i];
  }

  /** A value is read over the spaces in front of it. */
  lemma {:induction false} ValueReadable(s: bytes, i: nat, a: nat, j: nat, v: Json, depth: nat, st: Strategy)
    requires Blank(s, i, a, st) && ValueText(s, a, j, v, MAX_DEPTH - depth, st) && Delimiter(At(s, j))
    ensures Value(s, i, depth, st) == Ok(v, j)
    decreases j - a, 0
  {
    hide Items, Members, String, NumberAt, ItemsText, MembersText, NumberText, StringText, Blank, WordAt, Token, Collected, Delimiter;
    ValueStarts(s, a, j, v, MAX_DEPTH - depth, st);
    TokenBehind(s, i, a, st);
    match v
    case Null => WordReadable(s, a, j, NULL, v);
    case Bool(b) => WordReadable(s, a, j, if b then TRUE else FALSE, v);
    case Int(_) => NumberReadable(s, a, j, v);
    case Double(_) => NumberReadable(s, a, j, v);
    case Str(t) => StringIs(s, a, j, t);
    case Array(items) =>
      if items == [] {
        TokenBehind(s, a + 1, j - 1, st);
      } else {
        ItemsReadable(s, a + 1, j - 1, items, depth, [], st);
        assert [] + items == items;
        ItemsFromToken(s, a + 1, depth, [], st);
      }
    case Object(members) =>
      if members == [] && Blank(s, a + 1, j - 1, st) {
        TokenBehind(s, a + 1, j - 1, st);
      } else {
        var ms :| MembersText(s, a + 1, j - 1, ms, MAX_DEPTH - depth - 1, st) && members == Collected([], ms);
        MembersReadable(s, a + 1, j - 1, ms, depth, [], st);
      }
  }

  /** How a value begins. */
  lemma ValueStarts(s: bytes, i: nat, j: nat, v: Json, room: int, st: Strategy)
    requires ValueText(s, i, j, v, room, st)
    ensures i < j <= |s| && room >= 0 && !IsSpace(s[i]) && s[i] !in {RBRACKET, SLASH}
    ensures v.Int? || v.Double? ==> s[i] == MINUS || IsDigit(s[i])
    ensures v.Null? ==> s[i] == LOWER_N
    ensures v.Bool? ==> s[i] == if v.b then LOWER_T else LOWER_F
    ensures v.Str? ==> s[i] == QUOTE
    ensures v.Array? ==> s[i] == LBRACKET
    ensures v.Object? ==> s[i] == LBRACE
  {
    hide ItemsText, MembersText, Chars;
    assert s[i..j][0] == s[i];
  }

  /** The list loop may start at the spaces in front of its first item. */
  lemma ItemsFromToken(s: bytes, i: nat, depth: nat, data: seq<Json>, st: Strategy)
    requires i <= |s| && Token(s, i, st).Ok? && Token(s, i, st).value != SLASH
    ensures var k := Token(s, i, st).next;
            Token(s, k - 1, st) == Token(s, i, st) && Items(s, k - 1, depth, st, data) == Items(s, i, depth, st, data)
  {
    hide Value, Token;
    TokenSpaces(s, i, st);
    var k := Token(s, i, st).next;
    TokenBehind(s, k - 1, k - 1, st);
    SameTokenSameValue(s, i, k - 1, depth + 1, st);
  }

  lemma {:induction false} PaddedReadable(s: bytes, i: nat, j: nat, v: Json, depth: nat, st: Strategy)
    requires Padded(s, i, j, v, MAX_DEPTH - depth, st) && j < |s| && s[j] in {COMMA, RBRACKET, RBRACE}
    ensures i <= |s| && Value(s, i, depth, st).Ok? && Value(s, i, depth, st).value == v
    ensures Token(s, Value(s, i, depth, st).next, st) == Ok(s[j], j + 1)
    ensures Token(s, i, st).Ok? && Token(s, i, st).value !in {RBRACKET, SLASH}
    decreases j - i, 1
  {
    hide Value, Token, ValueText, Blank;
    var room := MAX_DEPTH - depth;
    var a: nat, b: nat :| i <= a <= b <= j && Blank(s, i, a, st) && ValueText(s, a, b, v, room, st) && Blank(s, b, j, st);
    NothingExtends(s, b, j, st);
    ValueStarts(s, a, b, v, room, st);
    TokenBehind(s, i, a, st);
    ValueReadable(s, i, a, b, v, depth, st);
    TokenBehind(s, b, j, st);
  }

  lemma {:induction false} ItemsReadable(s: bytes, i: nat, j: nat, items: seq<Json>, depth: nat, data: seq<Json>, st: Strategy)
    requires ItemsText(s, i, j, items, MAX_DEPTH - depth - 1, st) && j < |s| && s[j] == RBRACKET
    ensures i <= |s| && Items(s, i, depth, st, data) == Ok(Array(data + items), j + 1)
    ensures Token(s, i, st).Ok? && Token(s, i, st).value !in {RBRACKET, SLASH}
    decreases j - i, 2
  {
    hide Value, Token, Padded;
    if |items| == 1 {
      PaddedReadable(s, i, j, items[0], depth + 1, st);
      assert data + items == data + [items[0]];
    } else {
      var c: nat :| i <= c < j && Padded(s, i, c, items[0], MAX_DEPTH - depth - 1, st) && Mark(s, c, 0x2C)
                    && ItemsText(s, c + 1, j, items[1..], MAX_DEPTH - depth - 1, st);
      PaddedReadable(s, i, c, items[0], depth + 1, st);
      ItemsReadable(s, c + 1, j, items[1..], depth, data + [items[0]], st);
      ItemsFromToken(s, c + 1, depth, data + [items[0]], st);
      assert data + [items[0]] + items[1..] == data + items;
    }
  }

  /** A key with the spaces around it. */
  lemma KeyReadable(s: bytes, i: nat, j: nat, key: bytes, st: Strategy)
    requires PaddedKey(s, i, j, key, st) && j < |s| && s[j] == COLON
    ensures i <= |s| && Token(s, i, st).Ok?
    ensures var q := Token(s, i, st);
            q.value == QUOTE && String(s, q.next).Ok? && String(s, q.next).value == key
            && Token(s, String(s, q.next).next, st) == Ok(COLON, j + 1)
  {
    hide Token, String, Chars, Blank;
    var a: nat, b: nat :| Blank(s, i, a, st) && StringText(s, a, b, key) && Blank(s, b, j, st);
    TokenBehind(s, i, a, st);
    StringIs(s, a, b, key);
    TokenBehind(s, b, j, st);
  }

  /** One member, read from its opening quote. */
  lemma {:induction false} MemberReadable(s: bytes, i: nat, j: nat, m: Member, depth: nat, data: seq<Member>, st: Strategy)
    requires MemberText(s, i, j, m, MAX_DEPTH - depth - 1, st) && j < |s| && s[j] in {COMMA, RBRACE}
    ensures i <= |s| && Token(s, i, st).Ok? && Token(s, i, st).value == QUOTE
    ensures var q, data', next := Token(s, i, st), Insert(data, m.key, m.value), Token(s, j + 1, st);
            Members(s, q.next, QUOTE, depth, st, data) ==
              if s[j] == RBRACE then Ok(Object(data'), j + 1)
              else match next
                case Fail(e) => Fail(e)
                case Ok(d, o) => Members(s, o, d, depth, st, data')
    decreases j - i, 2
  {
    hide Value, Token, Padded, PaddedKey, String, Insert;
    var c: nat :| i <= c < j && PaddedKey(s, i, c, m.key, st) && Mark(s, c, 0x3A) && Padded(s, c + 1, j, m.value, MAX_DEPTH - depth - 1, st);
    KeyReadable(s, i, c, m.key, st);
    PaddedReadable(s, c + 1, j, m.value, depth + 1, st);
  }

  lemma {:induction false} MembersReadable(s: bytes, i: nat, j: nat, ms: seq<Member>, depth: nat, data: seq<Member>, st: Strategy)
    requires MembersText(s, i, j, ms, MAX_DEPTH - depth - 1, st) && j < |s| && s[j] == RBRACE
    ensures i <= |s| && Token(s, i, st).Ok? && Token(s, i, st).value == QUOTE
    ensures Members(s, Token(s, i, st).next, QUOTE, depth, st, data) == Ok(Object(Collected(data, ms)), j + 1)
    decreases j - i, 3
  {
    hide Members, Token, MemberText, Insert;
    var data', room := Insert(data, ms[0].key, ms[0].value), MAX_DEPTH - depth - 1;
    if |ms| == 1 {
      MemberReadable(s, i, j, ms[0], depth, data, st);
      assert ms[1..] == [];
    } else {
      var c: nat :| i <= c < j && MemberText(s, i, c, ms[0], room, st) && Mark(s, c, 0x2C) && MembersText(s, c + 1, j, ms[1..], room, st);
      MemberReadable(s, i, c, ms[0], depth, data, st);
      MembersReadable(s, c + 1, j, ms[1..], depth, data', st);
    }
  }

  // ----- the theorem -----

  /** In either strategy a document is accepted, with value v, if and only if it is a JSON text of v that
      nests within the limit. */
  lemma AcceptsExactlyTexts(s: bytes, v: Json, st: Strategy)
    ensures Document(s, st) == Ok(v, |s|) <==> IsText(s, v, st)
  {
    hide Value, ValueText, Blank, Garbage;
    BlankNothing(s, st);
    if Document(s, st) == Ok(v, |s|) {
      var a := ValueWritten(s, 0, 0, st);
      GarbageIsBlank(s, Value(s, 0, 0, st).next, st);
    }
    if IsText(s, v, st) {
      var a: nat, b: nat :| 0 <= a <= b <= |s| && Blank(s, 0, a, st) && ValueText(s, a, b, v, 200, st) && Blank(s, b, |s|, st);
      NothingExtends(s, b, |s|, st);
      ValueReadable(s, 0, a, b, v, 0, st);
      BlankPassed(s, b, |s|, st);
    }
  }

  lemma BlankNothing(s: bytes, st: Strategy)
    ensures Blank(s, 0, 0, st)
  {
  }
}
