/** JSON values as json11 holds them, and their serializer (json11.cpp, `dump`). */
module JsonValue {

  type byte = b: int | 0 <= b < 256
  type bytes = seq<byte>

  /** An object is the content of a std::map: members in ascending key order. A Double is the value
      strtod gives to its literal. */
  datatype Json =
    | Null
    | Bool(b: bool)
    | Int(n: int)
    | Double(literal: bytes)
    | Str(s: bytes)
    | Array(items: seq<Json>)
    | Object(members: seq<Member>)

  datatype Member = Member(key: bytes, value: Json)

  // ----- the characters the grammar names -----

  const QUOTE: byte := 0x22
  const BACKSLASH: byte := 0x5C
  const SLASH: byte := 0x2F
  const COMMA: byte := 0x2C
  const COLON: byte := 0x3A
  const MINUS: byte := 0x2D
  const PLUS: byte := 0x2B
  const DOT: byte := 0x2E
  const ZERO: byte := 0x30
  const SPACE: byte := 0x20
  const NEWLINE: byte := 0x0A
  const STAR: byte := 0x2A
  const LBRACKET: byte := 0x5B
  const RBRACKET: byte := 0x5D
  const LBRACE: byte := 0x7B
  const RBRACE: byte := 0x7D
  const LOWER_B: byte := 0x62
  const LOWER_E: byte := 0x65
  const UPPER_E: byte := 0x45
  const LOWER_F: byte := 0x66
  const LOWER_N: byte := 0x6E
  const LOWER_R: byte := 0x72
  const LOWER_T: byte := 0x74
  const LOWER_U: byte := 0x75

  const TRUE: bytes := [0x74, 0x72, 0x75, 0x65]
  const FALSE: bytes := [0x66, 0x61, 0x6C, 0x73, 0x65]
  const NULL: bytes := [0x6E, 0x75, 0x6C, 0x6C]

  /** A std::string is followed by a NUL, which may be read but not passed. */
  function At(s: bytes, i: nat): byte { if i < |s| then s[i] else 0 }

  predicate IsDigit(b: byte) { 0x30 <= b <= 0x39 }

  // ----- numbers -----

  function Digits(n: nat): (r: bytes)
    ensures |r| >= 1 && AllDigits(r)
  {
    if n < 10 then [(0x30 + n) as byte] else Digits(n / 10) + [(0x30 + n % 10) as byte]
  }

  /** `snprintf("%d")`. */
  function DumpInt(n: int): bytes {
    if n < 0 then [MINUS] + Digits(-n) else Digits(n)
  }

  predicate AllDigits(ds: bytes) { forall k | 0 <= k < |ds| :: IsDigit(ds[k]) }

  function DigitsValue(ds: bytes): nat
    requires AllDigits(ds)
  {
    if ds == [] then 0 else DigitsValue(ds[..|ds| - 1]) * 10 + (ds[|ds| - 1] as int - 0x30)
  }

  predicate IsIntegerLiteral(text: bytes) {
    var ds := if text != [] && text[0] == MINUS then text[1..] else text;
    ds != [] && AllDigits(ds)
  }

  /** What atoi, and strtod as long as a double is exact, make of an integer literal. */
  function LiteralValue(text: bytes): int
    requires IsIntegerLiteral(text)
  {
    if text[0] == MINUS then -(DigitsValue(text[1..]) as int) else DigitsValue(text)
  }

  const EXACT_DOUBLE_LIMIT := 0x20_0000_0000_0000

  datatype Number = Exact(n: int) | Text(literal: bytes)

  /** `number_value()`: a long integer literal is exact up to 2^53; other doubles stay literals. */
  function NumberOf(v: Json): Number
    requires v.Int? || v.Double?
  {
    match v
    case Int(n) => Exact(n)
    case Double(text) =>
      if IsIntegerLiteral(text) && -EXACT_DOUBLE_LIMIT <= LiteralValue(text) <= EXACT_DOUBLE_LIMIT
      then Exact(LiteralValue(text)) else Text(text)
  }

  /** `Json::operator==`: numbers are equal by value whatever their representation. */
  predicate Same(a: Json, b: Json)
    decreases a, 1
  {
    match a
    case Null => b.Null?
    case Bool(x) => b.Bool? && b.b == x
    case Int(_) => (b.Int? || b.Double?) && NumberOf(a) == NumberOf(b)
    case Double(_) => (b.Int? || b.Double?) && NumberOf(a) == NumberOf(b)
    case Str(s) => b.Str? && b.s == s
    case Array(items) => b.Array? && SameItems(items, b.items)
    case Object(members) => b.Object? && SameMembers(members, b.members)
  }

  predicate SameItems(a: seq<Json>, b: seq<Json>)
    decreases a, 0
  {
    if a == [] then b == [] else b != [] && Same(a[0], b[0]) && SameItems(a[1..], b[1..])
  }

  predicate SameMembers(a: seq<Member>, b: seq<Member>)
    decreases a, 0
  {
    if a == [] then b == []
    else b != [] && a[0].key == b[0].key && Same(a[0].value, b[0].value) && SameMembers(a[1..], b[1..])
  }

  // ----- objects as sorted maps -----

  /** std::string's order: bytes as unsigned, a prefix first. */
  predicate Less(a: bytes, b: bytes) {
    b != [] && (a == [] || a[0] < b[0] || (a[0] == b[0] && Less(a[1..], b[1..])))
  }

  predicate Ascending(members: seq<Member>) {
    |members| <= 1 || (Less(members[0].key, members[1].key) && Ascending(members[1..]))
  }

  /** `data[key] = value` on a std::map. */
  function Insert(members: seq<Member>, key: bytes, value: Json): seq<Member> {
    if members == [] then [Member(key, value)]
    else if members[0].key == key then [Member(key, value)] + members[1..]
    else if Less(key, members[0].key) then [Member(key, value)] + members
    else [members[0]] + Insert(members[1..], key, value)
  }

  /** The invariants of the C++ representation: ints fit 32 bits, maps are sorted. A Double comes from
      the parser only and is not dumped here. */
  predicate Valid(v: Json)
    decreases v, 1
  {
    match v
    case Int(n) => -0x8000_0000 <= n <= 0x7FFF_FFFF
    case Double(_) => false
    case Array(items) => forall x | x in items :: Valid(x)
    case Object(members) => Ascending(members) && forall m | m in members :: Valid(m.value)
    case _ => true
  }

  /** How many containers are open at the innermost value. */
  function Depth(v: Json): nat
    decreases v, 1
  {
    match v
    case Array(items) => DepthOfItems(items)
    case Object(members) => DepthOfMembers(members)
    case _ => 0
  }

  function DepthOfItems(items: seq<Json>): nat
    decreases items, 0
  {
    if items == [] then 0 else Max(1 + Depth(items[0]), DepthOfItems(items[1..]))
  }

  function DepthOfMembers(members: seq<Member>): nat
    decreases members, 0
  {
    if members == [] then 0 else Max(1 + Depth(members[0].value), DepthOfMembers(members[1..]))
  }

  function Max(a: nat, b: nat): nat { if a < b then b else a }

  // ----- dump -----

  function HexDigit(d: int): byte
    requires 0 <= d < 16
  {
    if d < 10 then 0x30 + d else 0x61 + d - 10
  }

  /** The escape of the byte at value[i], and how many bytes of `value` it stands for. */
  function Escape(value: bytes, i: nat): (r: (bytes, nat))
    requires i < |value|
    ensures 1 <= r.1 && i + r.1 <= |value|
  {
    var ch := value[i];
    if ch == BACKSLASH then ([BACKSLASH, BACKSLASH], 1)
    else if ch == QUOTE then ([BACKSLASH, QUOTE], 1)
    else if ch == 0x08 then ([BACKSLASH, LOWER_B], 1)
    else if ch == 0x0C then ([BACKSLASH, LOWER_F], 1)
    else if ch == 0x0A then ([BACKSLASH, LOWER_N], 1)
    else if ch == 0x0D then ([BACKSLASH, LOWER_R], 1)
    else if ch == 0x09 then ([BACKSLASH, LOWER_T], 1)
    else if ch <= 0x1F then ([BACKSLASH, LOWER_U, ZERO, ZERO, HexDigit(ch / 16), HexDigit(ch % 16)], 1)
    else if ch == 0xE2 && At(value, i + 1) == 0x80 && At(value, i + 2) == 0xA8 then
      ([BACKSLASH, LOWER_U, 0x32, 0x30, 0x32, 0x38], 3)
    else if ch == 0xE2 && At(value, i + 1) == 0x80 && At(value, i + 2) == 0xA9 then
      ([BACKSLASH, LOWER_U, 0x32, 0x30, 0x32, 0x39], 3)
    else ([ch], 1)
  }

  function EscapeFrom(value: bytes, i: nat): bytes
    requires i <= |value|
    decreases |value| - i
  {
    if i == |value| then [] else Escape(value, i).0 + EscapeFrom(value, i + Escape(value, i).1)
  }

  function DumpString(value: bytes): bytes { [QUOTE] + EscapeFrom(value, 0) + [QUOTE] }

  function Dump(v: Json): bytes
    decreases v, 1
  {
    match v
    case Null => NULL
    case Bool(b) => if b then TRUE else FALSE
    case Int(n) => DumpInt(n)
    case Double(text) => text
    case Str(s) => DumpString(s)
    case Array(items) => [LBRACKET] + DumpItems(items) + [RBRACKET]
    case Object(members) => [LBRACE] + DumpMembers(members) + [RBRACE]
  }

  function DumpItems(items: seq<Json>): bytes
    decreases items, 0
  {
    if items == [] then []
    else if |items| == 1 then Dump(items[0])
    else Dump(items[0]) + [COMMA, SPACE] + DumpItems(items[1..])
  }

  function DumpMember(m: Member): bytes
    decreases m, 0
  {
    DumpString(m.key) + [COLON, SPACE] + Dump(m.value)
  }

  function DumpMembers(members: seq<Member>): bytes
    decreases members, 0
  {
    if members == [] then []
    else if |members| == 1 then DumpMember(members[0])
    else DumpMember(members[0]) + [COMMA, SPACE] + DumpMembers(members[1..])
  }
}
