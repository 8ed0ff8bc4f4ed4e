/** Parsing what dump wrote gives the value back. */
module JsonRoundTrip {
  import opened JsonValue
  import opened JsonGrammar

  // ----- reading inside a longer text -----

  /** A character that is no space and no slash is the next token, in both strategies. */
  lemma TokenHere(s: bytes, i: nat, strategy: Strategy)
    requires i < |s| && !IsSpace(s[i]) && s[i] != SLASH
    ensures Token(s, i, strategy) == Ok(s[i], i + 1)
  {
  }

  lemma TokenAfterSpace(s: bytes, i: nat, strategy: Strategy)
    requires i + 1 < |s| && s[i] == SPACE && !IsSpace(s[i + 1]) && s[i + 1] != SLASH
    ensures Token(s, i, strategy) == Ok(s[i + 1], i + 2)
  {
    assert SkipSpace(s, i) == SkipSpace(s, i + 1) == i + 1;
  }

  /** The text t stands in s at i. */
  ghost predicate Stands(s: bytes, i: nat, t: bytes) {
    i + |t| <= |s| && s[i..i + |t|] == t
  }

  lemma StandsSplit(s: bytes, i: nat, a: bytes, b: bytes)
    requires Stands(s, i, a + b)
    ensures Stands(s, i, a) && Stands(s, i + |a|, b)
  {
    assert s[i..i + |a|] == s[i..i + |a + b|][..|a|];
    assert s[i + |a|..i + |a + b|] == s[i..i + |a + b|][|a|..];
  }

  lemma StandsAt(s: bytes, i: nat, t: bytes, k: nat)
    requires Stands(s, i, t) && k < |t|
    ensures i + k < |s| && s[i + k] == t[k]
  {
    assert s[i..i + |t|][k] == t[k];
  }

  // ----- numbers -----

  lemma {:induction false} DigitsValueOfDigits(n: nat)
    ensures DigitsValue(Digits(n)) == n
    ensures (n == 0 <==> Digits(n)[0] == ZERO) && (n == 0 ==> Digits(n) == [ZERO])
    decreases n
  {
    if n >= 10 {
      var d := Digits(n);
      DigitsValueOfDigits(n / 10);
      assert d[..|d| - 1] == Digits(n / 10);
    } else {
      assert Digits(n)[..0] == [];
    }
  }

  lemma {:induction false} SkipDigitsStops(s: bytes, i: nat, j: nat)
    requires i <= j <= |s| && AllDigits(s[i..j]) && !IsDigit(At(s, j))
    ensures SkipDigits(s, i) == j
    decreases j - i
  {
    if i < j {
      assert s[i..j][0] == s[i];
      var t := s[i + 1..j];
      forall k | 0 <= k < |t| ensures IsDigit(t[k]) { assert t[k] == s[i..j][k + 1]; }
      SkipDigitsStops(s, i + 1, j);
    }
  }

  /** What may follow a value in dumped text: nothing that would extend a number. */
  predicate Delimiter(b: byte) {
    !IsDigit(b) && b != DOT && b != LOWER_E && b != UPPER_E
  }

  lemma NumberReads(s: bytes, i: nat, n: int)
    requires -0x8000_0000 <= n <= 0x7FFF_FFFF
    requires Stands(s, i, DumpInt(n)) && Delimiter(At(s, i + |DumpInt(n)|))
    ensures var r := NumberAt(s, i); r.Ok? && r.next == i + |DumpInt(n)| && Same(Int(n), r.value)
  {
    hide NumberAt, IntegerPart, LiteralValue, IsIntegerLiteral, Digits, Delimiter, DumpInt;
    DumpedInt(n);
    StandsAt(s, i, DumpInt(n), 0);
    DumpedIntegerPart(s, i, n);
    PlainNumber(s, i, i + |DumpInt(n)|);
  }

  lemma DumpedIntegerPart(s: bytes, i: nat, n: int)
    requires Stands(s, i, DumpInt(n)) && Delimiter(At(s, i + |DumpInt(n)|)) && DumpInt(n) != []
    ensures i < |s| && IntegerPart(s, if DumpInt(n)[0] == MINUS then i + 1 else i) == Ok((), i + |DumpInt(n)|)
  {
    hide IntegerPart, Digits, Delimiter, Stands, IsIntegerLiteral, LiteralValue;
    DumpedInt(n);
    if n < 0 {
      SignStands(s, i, -n);
      IntegerPartReads(s, i + 1, -n);
    } else {
      StandsAt(s, i, Digits(n), 0);
      IntegerPartReads(s, i, n);
    }
  }

  lemma SignStands(s: bytes, i: nat, m: nat)
    requires Stands(s, i, [MINUS] + Digits(m))
    ensures i < |s| && Stands(s, i + 1, Digits(m))
  {
    StandsSplit(s, i, [MINUS], Digits(m));
  }

  /** A dumped int is a literal of its value. */
  lemma DumpedInt(n: int)
    ensures IsIntegerLiteral(DumpInt(n)) && LiteralValue(DumpInt(n)) == n
    ensures DumpInt(n) != [] && (DumpInt(n)[0] == MINUS <==> n < 0)
  {
    var m := if n < 0 then -n else n;
    DigitsValueOfDigits(m);
    if n < 0 {
      assert DumpInt(n)[1..] == Digits(m);
    }
  }

  lemma IntegerPartReads(s: bytes, start: nat, m: nat)
    requires Stands(s, start, Digits(m)) && Delimiter(At(s, start + |Digits(m)|))
    ensures IntegerPart(s, start) == Ok((), start + |Digits(m)|)
  {
    hide SkipDigits;
    DigitsValueOfDigits(m);
    StandsAt(s, start, Digits(m), 0);
    SkipDigitsStops(s, start, start + |Digits(m)|);
    assert IsDigit(Digits(m)[0]);
  }

  /** A number without fraction and exponent. */
  lemma PlainNumber(s: bytes, i: nat, j: nat)
    requires i < |s| && IntegerPart(s, if s[i] == MINUS then i + 1 else i) == Ok((), j)
    requires Delimiter(At(s, j))
    ensures IsIntegerLiteral(s[i..j])
    ensures NumberAt(s, i) == Ok(if j - i <= INT_DIGITS10 then Int(LiteralValue(s[i..j])) else Double(s[i..j]), j)
  {
    hide IntegerPart, LiteralValue;
    LiteralShape(s, i, j);
  }

  // ----- strings -----

  /** A pending code point that cannot join a surrogate pair. */
  predicate Settled(last: int) { -1 <= last < 0xD800 || 0xE000 <= last < 0x10000 }

  /** The parser at position i, having read value[..k], reads the escapes of the rest. */
  lemma {:induction false} EscapesRead(s: bytes, i: nat, value: bytes, k: nat, out: bytes, last: int)
    requires k <= |value| && Settled(last) && out + EncodeUtf8(last) == value[..k]
    requires Stands(s, i, EscapeFrom(value, k) + [QUOTE])
    ensures StringLoop(s, i, out, last) == Ok(value, i + |EscapeFrom(value, k)| + 1)
    decreases |value| - k
  {
    hide Stands, Escape;
    if k == |value| {
      StandsAt(s, i, [QUOTE], 0) by { assert [] + [QUOTE] == [QUOTE]; }
      assert value[..k] == value;
    } else {
      var (esc, n) := Escape(value, k);
      var rest := EscapeFrom(value, k + n);
      assert EscapeFrom(value, k) + [QUOTE] == esc + (rest + [QUOTE]);
      StandsSplit(s, i, esc, rest + [QUOTE]);
      var out', last' := OneEscapeRead(s, i, value, k, out, last);
      EscapesRead(s, i + |esc|, value, k + n, out', last');
    }
  }

  lemma HexDigitRead(d: int)
    requires 0 <= d < 16
    ensures IsHexDigit(HexDigit(d)) && HexValue(HexDigit(d)) == d
  {
  }

  /** Four hex digits after a backslash and a `u` become the pending code point. */
  lemma UnicodeEscapeRead(s: bytes, i: nat, esc: bytes, out: bytes, last: int)
    requires IsHex4(esc) && Stands(s, i, [BACKSLASH, LOWER_U] + esc) && -1 <= last < 0x10000
    ensures StringLoop(s, i, out, last) ==
              if IsLead(last) && IsTrail(Hex4(esc)) then StringLoop(s, i + 6, out + EncodeUtf8(Astral(last, Hex4(esc))), -1)
              else StringLoop(s, i + 6, out + EncodeUtf8(last), Hex4(esc))
  {
    StandsAt(s, i, [BACKSLASH, LOWER_U] + esc, 0);
    StandsAt(s, i, [BACKSLASH, LOWER_U] + esc, 1);
    StandsSplit(s, i, [BACKSLASH, LOWER_U], esc);
    assert Window(s, i + 2) == esc;
  }

  lemma SimpleEscapeRead(s: bytes, i: nat, c: byte, out: bytes, last: int)
    requires Stands(s, i, [BACKSLASH, c]) && SimpleEscape(c) >= 0 && -1 <= last < 0x10000
    ensures StringLoop(s, i, out, last) == StringLoop(s, i + 2, out + EncodeUtf8(last) + [SimpleEscape(c)], -1)
  {
    StandsAt(s, i, [BACKSLASH, c], 0);
    StandsAt(s, i, [BACKSLASH, c], 1);
  }

  lemma PlainRead(s: bytes, i: nat, c: byte, out: bytes, last: int)
    requires Stands(s, i, [c]) && c > 0x1F && c != QUOTE && c != BACKSLASH && -1 <= last < 0x10000
    ensures StringLoop(s, i, out, last) == StringLoop(s, i + 1, out + EncodeUtf8(last) + [c], -1)
  {
    StandsAt(s, i, [c], 0);
  }

  /** One step of the loop over the escape of value[k..]. */
  lemma OneEscapeRead(s: bytes, i: nat, value: bytes, k: nat, out: bytes, last: int) returns (out': bytes, last': int)
    requires k < |value| && Settled(last) && out + EncodeUtf8(last) == value[..k]
    requires Stands(s, i, Escape(value, k).0)
    ensures var (esc, n) := Escape(value, k);
            && Settled(last') && out' + EncodeUtf8(last') == value[..k + n]
            && i + |esc| <= |s| && StringLoop(s, i, out, last) == StringLoop(s, i + |esc|, out', last')
  {
    hide StringLoop;
    var (esc, n) := Escape(value, k);
    var ch := value[k];
    assert value[..k + 1] == value[..k] + [ch];
    out', last' := out + EncodeUtf8(last) + [ch], -1;
    assert out' + [] == out';
    if |esc| == 1 {
      PlainRead(s, i, ch, out, last);
    } else if |esc| == 2 {
      SimpleEscapeRead(s, i, esc[1], out, last);
    } else {
      out' := out + EncodeUtf8(last);
      var hex := esc[2..];
      assert esc == [BACKSLASH, LOWER_U] + hex;
      if n == 1 {
        HexDigitRead(ch / 16);
        HexDigitRead(ch % 16);
        last' := ch;
      } else {
        last' := if hex[3] == 0x38 then 0x2028 else 0x2029;
        assert value[..k + 3] == value[..k] + [0xE2, 0x80, value[k + 2]];
      }
      assert Hex4(hex) == last';
      UnicodeEscapeRead(s, i, hex, out, last);
    }
  }

  lemma StringReads(s: bytes, i: nat, value: bytes)
    requires Stands(s, i, DumpString(value))
    ensures s[i] == QUOTE && String(s, i + 1) == Ok(value, i + |DumpString(value)|)
  {
    assert DumpString(value) == [QUOTE] + (EscapeFrom(value, 0) + [QUOTE]);
    StandsSplit(s, i, [QUOTE], EscapeFrom(value, 0) + [QUOTE]);
    StandsAt(s, i, [QUOTE], 0);
    EscapesRead(s, i + 1, value, 0, [], -1);
  }

  // ----- whole values -----

  /** The first character of a dumped value starts a value, never garbage. */
  lemma DumpStarts(v: Json)
    requires Valid(v)
    ensures |Dump(v)| >= 1
    ensures var c := Dump(v)[0];
            !IsSpace(c) && c != SLASH && c != RBRACKET && c != RBRACE
    ensures v.Int? ==> Dump(v)[0] == MINUS || IsDigit(Dump(v)[0])
  {
    if v.Int? { DigitsValueOfDigits(if v.n < 0 then -v.n else v.n); }
  }

  lemma LessTransitive(a: bytes, b: bytes, c: bytes)
    requires Less(a, b) && Less(b, c)
    ensures Less(a, c)
  {
  }

  lemma LessIrreflexive(a: bytes)
    ensures !Less(a, a)
  {
  }

  lemma LessAsymmetric(a: bytes, b: bytes)
    requires Less(a, b)
    ensures !Less(b, a) && a != b
  {
    if Less(b, a) { LessTransitive(a, b, a); }
    LessIrreflexive(a);
  }

  /** Keys arriving in ascending order are appended. */
  lemma {:induction false} InsertLast(data: seq<Member>, key: bytes, value: Json)
    requires forall d | d in data :: Less(d.key, key)
    ensures Insert(data, key, value) == data + [Member(key, value)]
    decreases |data|
  {
    if data != [] {
      LessAsymmetric(data[0].key, key);
      InsertLast(data[1..], key, value);
      assert data + [Member(key, value)] == [data[0]] + (data[1..] + [Member(key, value)]);
    }
  }

  /** Reading what dump wrote: the equal value when it fits the depth limit, else the depth error. */
  lemma {:induction false} ValueReads(v: Json, s: bytes, i: nat, depth: nat, strategy: Strategy)
    requires Valid(v) && Stands(s, i, Dump(v)) && Delimiter(At(s, i + |Dump(v)|))
    ensures var r := Value(s, i, depth, strategy);
            if depth + Depth(v) <= MAX_DEPTH then r.Ok? && r.next == i + |Dump(v)| && Same(v, r.value)
            else r == Fail(TooDeep)
    decreases v, 2
  {
    hide Items, Members, NumberAt, String, Token, SameItems, SameMembers, DumpInt, DumpString, Delimiter;
    DumpStarts(v);
    StandsAt(s, i, Dump(v), 0);
    TokenHere(s, i, strategy);
    if depth <= MAX_DEPTH {
      match v
      case Null => StandsAt(s, i, NULL, 0);
      case Bool(b) =>
      case Int(n) => NumberReads(s, i, n);
      case Str(t) => StringReads(s, i, t);
      case Array(items) => ArrayReads(items, s, i, depth, strategy);
      case Object(members) => ObjectReads(members, s, i, depth, strategy);
    }
  }

  lemma ArrayOpens(s: bytes, i: nat, depth: nat, strategy: Strategy)
    requires i + 1 < |s| && s[i] == LBRACKET && !IsSpace(s[i + 1]) && s[i + 1] != SLASH && depth <= MAX_DEPTH
    ensures Value(s, i, depth, strategy) ==
              if s[i + 1] == RBRACKET then Ok(Array([]), i + 2) else Items(s, i + 1, depth, strategy, [])
  {
    TokenHere(s, i, strategy);
    TokenHere(s, i + 1, strategy);
    hide Items, Members, NumberAt, String, WordAt, Token;
  }

  lemma ObjectOpens(s: bytes, i: nat, depth: nat, strategy: Strategy)
    requires i + 1 < |s| && s[i] == LBRACE && !IsSpace(s[i + 1]) && s[i + 1] != SLASH && depth <= MAX_DEPTH
    ensures Value(s, i, depth, strategy) ==
              if s[i + 1] == RBRACE then Ok(Object([]), i + 2) else Members(s, i + 2, s[i + 1], depth, strategy, [])
  {
    TokenHere(s, i, strategy);
    TokenHere(s, i + 1, strategy);
    hide Items, Members, NumberAt, String, WordAt, Token;
  }

  lemma {:induction false} ArrayReads(items: seq<Json>, s: bytes, i: nat, depth: nat, strategy: Strategy)
    requires Valid(Array(items)) && Stands(s, i, Dump(Array(items))) && depth <= MAX_DEPTH
    ensures var r := Value(s, i, depth, strategy);
            if depth + DepthOfItems(items) <= MAX_DEPTH then r.Ok? && r.next == i + |Dump(Array(items))| && Same(Array(items), r.value)
            else r == Fail(TooDeep)
    decreases items, 2
  {
    assert Dump(Array(items)) == [LBRACKET] + (DumpItems(items) + [RBRACKET]);
    assert forall x | x in items :: Valid(x);
    hide Value, Items, Valid, Stands;
    StandsSplit(s, i, [LBRACKET], DumpItems(items) + [RBRACKET]);
    StandsAt(s, i, [LBRACKET], 0);
    if items == [] {
      StandsAt(s, i + 1, [] + [RBRACKET], 0);
      ArrayOpens(s, i, depth, strategy);
    } else {
      NextItemStarts(items, s, i + 1);
      ArrayOpens(s, i, depth, strategy);
      var got := ItemsRead(items, s, i + 1, depth, strategy, []);
      assert [] + got == got;
    }
  }

  lemma {:induction false} ObjectReads(members: seq<Member>, s: bytes, i: nat, depth: nat, strategy: Strategy)
    requires Valid(Object(members)) && Stands(s, i, Dump(Object(members))) && depth <= MAX_DEPTH
    ensures var r := Value(s, i, depth, strategy);
            if depth + DepthOfMembers(members) <= MAX_DEPTH then r.Ok? && r.next == i + |Dump(Object(members))| && Same(Object(members), r.value)
            else r == Fail(TooDeep)
    decreases members, 2
  {
    assert Dump(Object(members)) == [LBRACE] + (DumpMembers(members) + [RBRACE]);
    assert Ascending(members) && forall m | m in members :: Valid(m.value);
    hide Value, Members, Valid, Stands;
    StandsSplit(s, i, [LBRACE], DumpMembers(members) + [RBRACE]);
    StandsAt(s, i, [LBRACE], 0);
    if members == [] {
      StandsAt(s, i + 1, [] + [RBRACE], 0);
      ObjectOpens(s, i, depth, strategy);
    } else {
      FirstKeyQuoted(members, s, i + 1);
      ObjectOpens(s, i, depth, strategy);
      var got := MembersRead(members, s, i + 1, depth, strategy, []);
      assert [] + got == got;
    }
  }

  /** One item and the separator after it. */
  lemma ItemsStep(s: bytes, i: nat, depth: nat, strategy: Strategy, data: seq<Json>, j: nat)
    requires i <= |s| && j < |s|
    requires var r := Value(s, i, depth + 1, strategy); r.Ok? ==> r.next == j
    requires s[j] == RBRACKET || (s[j] == COMMA && j + 2 < |s| && s[j + 1] == SPACE && !IsSpace(s[j + 2]) && s[j + 2] != SLASH)
    ensures Items(s, i, depth, strategy, data) ==
              match Value(s, i, depth + 1, strategy)
              case Fail(e) => Fail(e)
              case Ok(v, _) => if s[j] == RBRACKET then Ok(Array(data + [v]), j + 1) else Items(s, j + 2, depth, strategy, data + [v])
  {
    hide Value, Token;
    TokenHere(s, j, strategy);
    if s[j] == COMMA { TokenAfterSpace(s, j + 1, strategy); }
  }

  /** From the position of an item to the closing bracket. */
  lemma {:induction false} ItemsRead(items: seq<Json>, s: bytes, i: nat, depth: nat, strategy: Strategy, data: seq<Json>) returns (got: seq<Json>)
    requires items != [] && (forall x | x in items :: Valid(x)) && depth <= MAX_DEPTH
    requires Stands(s, i, DumpItems(items) + [RBRACKET])
    ensures var r := Items(s, i, depth, strategy, data);
            if depth + DepthOfItems(items) <= MAX_DEPTH then
              r == Ok(Array(data + got), i + |DumpItems(items)| + 1) && SameItems(items, got)
            else r == Fail(TooDeep)
    decreases items, 1
  {
    hide Dump, Value, Valid, Items, Same, Depth, Stands;
    var first, j := items[0], i + |Dump(items[0])|;
    FirstItemStands(items, s, i);
    ValueReads(first, s, i, depth + 1, strategy);
    ItemsStep(s, i, depth, strategy, data, j);
    var r := Value(s, i, depth + 1, strategy);
    var v := if r.Ok? then r.value else Null;
    if |items| == 1 {
      got := [v];
    } else {
      var tail := ItemsRead(items[1..], s, j + 2, depth, strategy, data + [v]);
      got := [v] + tail;
      assert data + [v] + tail == data + got;
      assert got[1..] == tail;
    }
  }

  lemma Regroup(a: bytes, b: bytes, c: bytes, d: bytes)
    ensures a + b + c + d == a + (b + (c + d))
  {
  }

  lemma FirstItemStands(items: seq<Json>, s: bytes, i: nat)
    requires items != [] && (|items| > 1 ==> Valid(items[1])) && Stands(s, i, DumpItems(items) + [RBRACKET])
    ensures var first, j := items[0], i + |Dump(items[0])|;
            && Stands(s, i, Dump(first)) && j < |s|
            && (|items| == 1 ==> s[j] == RBRACKET)
            && (|items| > 1 ==> s[j] == COMMA && j + 2 < |s| && s[j + 1] == SPACE && !IsSpace(s[j + 2]) && s[j + 2] != SLASH
                                && Stands(s, j + 2, DumpItems(items[1..]) + [RBRACKET]))
  {
    hide *;
    var first, j := items[0], i + |Dump(items[0])|;
    var tail := if |items| == 1 then [RBRACKET] else [COMMA, SPACE] + (DumpItems(items[1..]) + [RBRACKET]);
    ItemsDumped(items, tail);
    StandsSplit(s, i, Dump(first), tail);
    StandsAt(s, j, tail, 0);
    if |items| > 1 {
      StandsAt(s, j, tail, 1);
      StandsSplit(s, j, [COMMA, SPACE], DumpItems(items[1..]) + [RBRACKET]);
      NextItemStarts(items[1..], s, j + 2);
    }
  }

  lemma ItemsDumped(items: seq<Json>, tail: bytes)
    requires items != []
    requires tail == if |items| == 1 then [RBRACKET] else [COMMA, SPACE] + (DumpItems(items[1..]) + [RBRACKET])
    ensures DumpItems(items) + [RBRACKET] == Dump(items[0]) + tail
  {
    hide Dump;
    if |items| == 1 {
    } else {
      Regroup(Dump(items[0]), [COMMA, SPACE], DumpItems(items[1..]), [RBRACKET]);
    }
  }

  lemma NextItemStarts(items: seq<Json>, s: bytes, i: nat)
    requires items != [] && Valid(items[0]) && Stands(s, i, DumpItems(items) + [RBRACKET])
    ensures i < |s| && !IsSpace(s[i]) && s[i] != SLASH && s[i] != RBRACKET
  {
    DumpStarts(items[0]);
    StandsAt(s, i, DumpItems(items) + [RBRACKET], 0);
    assert (DumpItems(items) + [RBRACKET])[0] == Dump(items[0])[0];
  }

  // ----- objects -----

  /** One member and the separator after it; k and m are where its colon and its end stand. */
  lemma MembersStep(s: bytes, i: nat, depth: nat, strategy: Strategy, data: seq<Member>, key: bytes, k: nat, m: nat)
    requires i <= k && k + 2 < |s| && m < |s|
    requires String(s, i) == Ok(key, k) && s[k] == COLON
    requires var r := Value(s, k + 1, depth + 1, strategy); r.Ok? ==> r.next == m
    requires s[m] == RBRACE || (s[m] == COMMA && m + 2 < |s| && s[m + 1] == SPACE && s[m + 2] == QUOTE)
    ensures Members(s, i, QUOTE, depth, strategy, data) ==
              match Value(s, k + 1, depth + 1, strategy)
              case Fail(e) => Fail(e)
              case Ok(v, _) =>
                if s[m] == RBRACE then Ok(Object(Insert(data, key, v)), m + 1)
                else Members(s, m + 3, QUOTE, depth, strategy, Insert(data, key, v))
  {
    hide Value, Token, String, Insert;
    TokenHere(s, k, strategy);
    TokenHere(s, m, strategy);
    if s[m] == COMMA { TokenAfterSpace(s, m + 1, strategy); }
  }

  lemma FirstMemberStands(members: seq<Member>, s: bytes, i: nat)
    requires members != [] && (forall x | x in members :: Valid(x.value)) && Stands(s, i, DumpMembers(members) + [RBRACE])
    ensures var m := members[0];
            var k := i + |DumpString(m.key)|;
            var e := k + 2 + |Dump(m.value)|;
            && e == i + |DumpMember(m)| < |s|
            && Stands(s, i, DumpString(m.key)) && s[k] == COLON && s[k + 1] == SPACE && Stands(s, k + 2, Dump(m.value))
            && (|members| == 1 ==> s[e] == RBRACE)
            && (|members| > 1 ==> s[e] == COMMA && e + 2 < |s| && s[e + 1] == SPACE && s[e + 2] == QUOTE
                                  && Stands(s, e + 2, DumpMembers(members[1..]) + [RBRACE]))
  {
    hide Dump, Valid, DumpString, Stands, DumpMembers;
    var m := members[0];
    var tail := if |members| == 1 then [RBRACE] else [COMMA, SPACE] + (DumpMembers(members[1..]) + [RBRACE]);
    MembersDumped(members, tail);
    var k := i + |DumpString(m.key)|;
    var e := k + 2 + |Dump(m.value)|;
    MemberStands(m, tail, s, i);
    StandsAt(s, e, tail, 0);
    if |members| > 1 {
      StandsAt(s, e, tail, 1);
      StandsSplit(s, e, [COMMA, SPACE], DumpMembers(members[1..]) + [RBRACE]);
      FirstKeyQuoted(members[1..], s, e + 2);
    }
  }

  lemma MembersDumped(members: seq<Member>, tail: bytes)
    requires members != []
    requires tail == if |members| == 1 then [RBRACE] else [COMMA, SPACE] + (DumpMembers(members[1..]) + [RBRACE])
    ensures DumpMembers(members) + [RBRACE] == DumpMember(members[0]) + tail
  {
    hide Dump, DumpMember;
    if |members| == 1 {
    } else {
      var a, b := DumpMember(members[0]), DumpMembers(members[1..]);
      Regroup(a, [COMMA, SPACE], b, [RBRACE]);
    }
  }

  lemma MemberStands(m: Member, tail: bytes, s: bytes, i: nat)
    requires Stands(s, i, DumpMember(m) + tail)
    ensures var k := i + |DumpString(m.key)|;
            var e := k + 2 + |Dump(m.value)|;
            && e == i + |DumpMember(m)| <= |s|
            && Stands(s, i, DumpString(m.key)) && s[k] == COLON && s[k + 1] == SPACE
            && Stands(s, k + 2, Dump(m.value)) && Stands(s, e, tail)
  {
    hide Dump, DumpString;
    var k := i + |DumpString(m.key)|;
    StandsSplit(s, i, DumpMember(m), tail);
    assert DumpMember(m) == DumpString(m.key) + ([COLON, SPACE] + Dump(m.value));
    hide DumpMember, Stands;
    StandsSplit(s, i, DumpString(m.key), [COLON, SPACE] + Dump(m.value));
    StandsAt(s, k, [COLON, SPACE] + Dump(m.value), 0);
    StandsAt(s, k, [COLON, SPACE] + Dump(m.value), 1);
    StandsSplit(s, k, [COLON, SPACE], Dump(m.value));
    StandsFits(s, k + 2, Dump(m.value));
  }

  lemma StandsFits(s: bytes, i: nat, t: bytes)
    requires Stands(s, i, t)
    ensures i + |t| <= |s|
  {
  }

  lemma FirstKeyQuoted(members: seq<Member>, s: bytes, i: nat)
    requires members != [] && Stands(s, i, DumpMembers(members) + [RBRACE])
    ensures i < |s| && s[i] == QUOTE
  {
    hide Dump;
    StandsAt(s, i, DumpMembers(members) + [RBRACE], 0);
    assert (DumpMembers(members) + [RBRACE])[0] == DumpString(members[0].key)[0] == QUOTE;
  }

  /** Everything collected so far has smaller keys than what follows. */
  ghost predicate AllLess(data: seq<Member>, key: bytes) {
    forall d | d in data :: Less(d.key, key)
  }

  lemma AllLessGrows(data: seq<Member>, members: seq<Member>, v: Json)
    requires |members| >= 2 && Ascending(members) && AllLess(data, members[0].key)
    ensures AllLess(data + [Member(members[0].key, v)], members[1].key)
  {
    forall d | d in data ensures Less(d.key, members[1].key) { LessTransitive(d.key, members[0].key, members[1].key); }
  }

  /** From behind the opening quote of a key to the closing brace. */
  lemma {:induction false} MembersRead(members: seq<Member>, s: bytes, i: nat, depth: nat, strategy: Strategy, data: seq<Member>) returns (got: seq<Member>)
    requires members != [] && (forall x | x in members :: Valid(x.value)) && depth <= MAX_DEPTH
    requires Ascending(members) && AllLess(data, members[0].key)
    requires Stands(s, i, DumpMembers(members) + [RBRACE])
    ensures var r := Members(s, i + 1, QUOTE, depth, strategy, data);
            if depth + DepthOfMembers(members) <= MAX_DEPTH then
              r == Ok(Object(data + got), i + |DumpMembers(members)| + 1) && SameMembers(members, got)
            else r == Fail(TooDeep)
    decreases members, 1
  {
    hide Dump, Value, Valid, Members, Same, Depth, Stands, DumpString, Less, AllLess, Insert;
    var m := members[0];
    var r := MemberRead(members, s, i, depth, strategy, data);
    var v := if r.Ok? then r.value else Null;
    if |members| == 1 {
      got := [Member(m.key, v)];
    } else {
      AllLessGrows(data, members, v);
      FirstMemberStands(members, s, i);
      var tail := MembersRead(members[1..], s, i + |DumpMember(m)| + 2, depth, strategy, data + [Member(m.key, v)]);
      got := [Member(m.key, v)] + tail;
      assert data + [Member(m.key, v)] + tail == data + got;
      assert got[1..] == tail;
    }
  }

  /** The first member of the list, up to where the loop goes on. */
  lemma {:induction false} MemberRead(members: seq<Member>, s: bytes, i: nat, depth: nat, strategy: Strategy, data: seq<Member>) returns (r: Parse<Json>)
    requires members != [] && (forall x | x in members :: Valid(x.value)) && depth <= MAX_DEPTH
    requires AllLess(data, members[0].key)
    requires Stands(s, i, DumpMembers(members) + [RBRACE])
    ensures var m := members[0];
            var e := i + |DumpMember(m)|;
            && (if depth + 1 + Depth(m.value) <= MAX_DEPTH then r.Ok? && Same(m.value, r.value) else r == Fail(TooDeep))
            && Members(s, i + 1, QUOTE, depth, strategy, data) ==
                 match r
                 case Fail(x) => Fail(x)
                 case Ok(v, _) =>
                   if |members| == 1 then Ok(Object(data + [Member(m.key, v)]), e + 1)
                   else Members(s, e + 3, QUOTE, depth, strategy, data + [Member(m.key, v)])
    decreases members, 0
  {
    hide Dump, Value, Valid, Members, Same, Depth, Stands, String, DumpString, Less, Insert;
    var m := members[0];
    var k, e := i + |DumpString(m.key)|, i + |DumpMember(m)|;
    FirstMemberStands(members, s, i);
    StringReads(s, i, m.key);
    ValueReads(m.value, s, k + 2, depth + 1, strategy);
    ValueAfterSpace(s, k + 1, depth + 1, strategy, m.value);
    MembersStep(s, i + 1, depth, strategy, data, m.key, k, e);
    r := Value(s, k + 2, depth + 1, strategy);
    if r.Ok? { InsertLast(data, m.key, r.value); }
  }

  /** A space in front of a value is skipped. */
  lemma ValueAfterSpace(s: bytes, i: nat, depth: nat, strategy: Strategy, v: Json)
    requires Valid(v) && i < |s| && s[i] == SPACE && Stands(s, i + 1, Dump(v))
    ensures Value(s, i, depth, strategy) == Value(s, i + 1, depth, strategy)
  {
    DumpStarts(v);
    StandsAt(s, i + 1, Dump(v), 0);
    TokenHere(s, i + 1, strategy);
    TokenAfterSpace(s, i, strategy);
    SameTokenSameValue(s, i, i + 1, depth, strategy);
  }

  lemma SameTokenSameValue(s: bytes, i: nat, j: nat, depth: nat, strategy: Strategy)
    requires i <= |s| && j <= |s| && Token(s, i, strategy) == Token(s, j, strategy)
    ensures Value(s, i, depth, strategy) == Value(s, j, depth, strategy)
  {
    hide Items, Members, NumberAt, WordAt, String, Token;
  }

  // ----- the theorem -----

  /** Parsing a dumped value consumes the whole text and returns an equal value, in either strategy,
      exactly when at most 200 containers are nested; otherwise the depth error is reported. */
  lemma ParseOfDump(v: Json, strategy: Strategy)
    requires Valid(v)
    ensures var r := Document(Dump(v), strategy);
            if Depth(v) <= 200 then r.Ok? && r.next == |Dump(v)| && Same(v, r.value)
            else r == Fail(TooDeep)
  {
    hide Dump, Valid, Same, Value;
    var s := Dump(v);
    assert s[0..0 + |s|] == s;
    ValueReads(v, s, 0, 0, strategy);
  }
}
