/** What the data structures of json11 mean: the order of keys, insertion into an object, equality of
    values, and the escapes that dump writes. */
module JsonLaws {
  import opened Wrappers
  import opened JsonValue
  import opened JsonGrammar
  import opened JsonRoundTrip
  import opened JsonText

  // ----- objects -----

  /** Keys are ordered by their first difference as unsigned bytes; a prefix comes first. */
  lemma {:induction false} LessByFirstDifference(a: bytes, b: bytes)
    ensures Less(a, b) <==> exists k | 0 <= k < |b| && k <= |a| :: a[..k] == b[..k] && (k == |a| || a[k] < b[k])
    decreases |a|
  {
    if a != [] && b != [] && a[0] == b[0] {
      LessByFirstDifference(a[1..], b[1..]);
      if k :| 0 <= k < |b[1..]| && k <= |a[1..]| && a[1..][..k] == b[1..][..k] && (k == |a[1..]| || a[1..][k] < b[1..][k]) {
        assert a[..k + 1] == [a[0]] + a[1..][..k] == [b[0]] + b[1..][..k] == b[..k + 1];
      }
      if k :| 0 <= k < |b| && k <= |a| && a[..k] == b[..k] && (k == |a| || a[k] < b[k]) {
        assert k > 0 && a[1..][..k - 1] == a[..k][1..] == b[..k][1..] == b[1..][..k - 1];
      }
    } else if b != [] && (a == [] || a[0] < b[0]) {
      assert a[..0] == b[..0];
    } else {
      forall k | 0 < k < |b| && k <= |a| ensures a[..k] != b[..k] { assert a[..k][0] == a[0] && b[..k][0] == b[0]; }
    }
  }

  function Lookup(members: seq<Member>, key: bytes): Option<Json> {
    if members == [] then None else if members[0].key == key then Some(members[0].value) else Lookup(members[1..], key)
  }

  /** `data[key] = value` changes that key and no other. */
  lemma {:induction false} InsertUpdates(members: seq<Member>, key: bytes, value: Json, other: bytes)
    ensures Lookup(Insert(members, key, value), other) == if other == key then Some(value) else Lookup(members, other)
    decreases |members|
  {
    var r := Insert(members, key, value);
    if members == [] || members[0].key == key {
      assert r[1..] == if members == [] then [] else members[1..];
    } else if Less(key, members[0].key) {
      assert r[1..] == members;
    } else {
      assert r[1..] == Insert(members[1..], key, value);
      InsertUpdates(members[1..], key, value, other);
    }
  }

  lemma LessTotal(a: bytes, b: bytes)
    ensures Less(a, b) || Less(b, a) || a == b
  {
    if a != [] && b != [] && a[0] == b[0] {
      LessTotal(a[1..], b[1..]);
      assert a == [a[0]] + a[1..] && b == [b[0]] + b[1..];
    }
  }

  /** Insertion keeps the keys in ascending order. */
  lemma {:induction false} InsertAscends(members: seq<Member>, key: bytes, value: Json)
    requires Ascending(members)
    ensures Ascending(Insert(members, key, value))
    decreases |members|
  {
    hide Less;
    if members != [] && members[0].key != key && !Less(key, members[0].key) {
      var tail := Insert(members[1..], key, value);
      LessTotal(key, members[0].key);
      InsertAscends(members[1..], key, value);
      assert tail != [] && Less(members[0].key, tail[0].key);
      assert ([members[0]] + tail)[1..] == tail;
    } else if members != [] && members[0].key != key {
      assert ([Member(key, value)] + members)[1..] == members;
    } else if members != [] {
      assert ([Member(key, value)] + members[1..])[1..] == members[1..];
    }
  }

  /** The last member of the text with a key, if there is one. */
  function LastOf(ms: seq<Member>, key: bytes): Option<Json> {
    if ms == [] then None else if ms[|ms| - 1].key == key then Some(ms[|ms| - 1].value) else LastOf(ms[..|ms| - 1], key)
  }

  /** The object read from a text holds, under each key, the last value written for it, in ascending order. */
  lemma {:induction false} CollectedIsLast(data: seq<Member>, ms: seq<Member>, key: bytes)
    ensures Lookup(Collected(data, ms), key) == if LastOf(ms, key).Some? then LastOf(ms, key) else Lookup(data, key)
    ensures Ascending(data) ==> Ascending(Collected(data, ms))
    decreases |ms|
  {
    if ms != [] {
      hide Insert;
      var next := Insert(data, ms[0].key, ms[0].value);
      InsertUpdates(data, ms[0].key, ms[0].value, key);
      if Ascending(data) { InsertAscends(data, ms[0].key, ms[0].value); }
      CollectedIsLast(next, ms[1..], key);
      LastOfRest(ms, key);
    }
  }

  lemma {:induction false} LastOfRest(ms: seq<Member>, key: bytes)
    requires ms != []
    ensures LastOf(ms, key) == if LastOf(ms[1..], key).Some? then LastOf(ms[1..], key) else if ms[0].key == key then Some(ms[0].value) else None
    decreases |ms|
  {
    if |ms| > 1 {
      assert ms[1..][|ms| - 2] == ms[|ms| - 1];
      assert ms[1..][..|ms| - 2] == ms[..|ms| - 1][1..];
      LastOfRest(ms[..|ms| - 1], key);
    } else {
      assert ms[1..] == [] && ms[..0] == [];
    }
  }

  // ----- equality -----

  /** Scalars are equal by kind and value, numbers by value whichever way they are held. */
  lemma SameScalars(a: Json, m: int, n: int, s: bytes, t: bytes, x: bool, y: bool)
    ensures Same(Null, a) <==> a == Null
    ensures Same(Bool(x), Bool(y)) <==> x == y
    ensures Same(Str(s), Str(t)) <==> s == t
    ensures Same(Int(m), Int(n)) <==> m == n
    ensures IsIntegerLiteral(t) && -0x20_0000_0000_0000 <= LiteralValue(t) <= 0x20_0000_0000_0000 ==>
              (Same(Int(m), Double(t)) <==> m == LiteralValue(t)) && (Same(Double(t), Int(m)) <==> m == LiteralValue(t))
    ensures Same(a, Bool(x)) ==> a.Bool?
    ensures Same(a, Str(s)) ==> a.Str?
    ensures Same(a, Int(m)) || Same(a, Double(s)) ==> a.Int? || a.Double?
  {
  }

  /** Lists are equal item by item. */
  lemma {:induction false} SameLists(a: seq<Json>, b: seq<Json>)
    ensures SameItems(a, b) <==> |a| == |b| && forall k | 0 <= k < |a| :: Same(a[k], b[k])
    ensures Same(Array(a), Array(b)) <==> SameItems(a, b)
    decreases |a|
  {
    if a != [] && b != [] {
      hide Same;
      SameLists(a[1..], b[1..]);
      assert (forall k | 0 <= k < |a| && k < |b| :: Same(a[k], b[k]))
        <==> Same(a[0], b[0]) && forall k | 0 <= k < |a[1..]| && k < |b[1..]| :: Same(a[1..][k], b[1..][k]) by {
        if forall k | 0 <= k < |a[1..]| && k < |b[1..]| :: Same(a[1..][k], b[1..][k]) {
          forall k | 0 < k < |a| && k < |b| ensures Same(a[k], b[k]) { assert Same(a[1..][k - 1], b[1..][k - 1]); }
        }
      }
    }
    ArraysByItems(a, b);
  }

  lemma ArraysByItems(a: seq<Json>, b: seq<Json>)
    ensures Same(Array(a), Array(b)) <==> SameItems(a, b)
  {
  }

  /** Objects are equal key by key and value by value. */
  lemma {:induction false} SameObjects(a: seq<Member>, b: seq<Member>)
    ensures SameMembers(a, b) <==> |a| == |b| && forall k | 0 <= k < |a| :: a[k].key == b[k].key && Same(a[k].value, b[k].value)
    ensures Same(Object(a), Object(b)) <==> SameMembers(a, b)
    decreases |a|
  {
    if a != [] && b != [] {
      hide Same;
      SameObjects(a[1..], b[1..]);
      if SameMembers(a, b) {
        forall k | 0 <= k < |a| ensures a[k].key == b[k].key && Same(a[k].value, b[k].value) {
          if k > 0 { assert a[k] == a[1..][k - 1] && b[k] == b[1..][k - 1]; }
        }
      }
    }
    ObjectsByMembers(a, b);
  }

  lemma ObjectsByMembers(a: seq<Member>, b: seq<Member>)
    ensures Same(Object(a), Object(b)) <==> SameMembers(a, b)
  {
  }

  // ----- dump -----

  /** The lower-case hex digit of d. */
  function LowerHex(d: int): int { if d < 10 then 0x30 + d else 0x61 + (d - 10) }

  /** What dump writes for the next character of a string: the short escape where json11 has one, \\u00 and
      two hex digits for another control character, \\u2028 or \\u2029 for the bytes of these, and
      otherwise the byte itself. */
  lemma EscapeTable(value: bytes, i: nat)
    requires i < |value|
    ensures var b := value[i];
            var separator := b == 0xE2 && i + 2 < |value| && value[i + 1] == 0x80 && value[i + 2] in {0xA8, 0xA9};
            && (b == 0x22 ==> Escape(value, i) == ([0x5C, 0x22], 1))
            && (b == 0x5C ==> Escape(value, i) == ([0x5C, 0x5C], 1))
            && (b == 0x08 ==> Escape(value, i) == ([0x5C, 0x62], 1))
            && (b == 0x0C ==> Escape(value, i) == ([0x5C, 0x66], 1))
            && (b == 0x0A ==> Escape(value, i) == ([0x5C, 0x6E], 1))
            && (b == 0x0D ==> Escape(value, i) == ([0x5C, 0x72], 1))
            && (b == 0x09 ==> Escape(value, i) == ([0x5C, 0x74], 1))
            && (b < 0x20 && b !in {0x08, 0x09, 0x0A, 0x0C, 0x0D} ==>
                  Escape(value, i).1 == 1 && |Escape(value, i).0| == 6 && Escape(value, i).0[..4] == [0x5C, 0x75, 0x30, 0x30]
                  && Escape(value, i).0[4] == LowerHex(b / 16) && Escape(value, i).0[5] == LowerHex(b % 16))
            && (separator ==> Escape(value, i) == ([0x5C, 0x75, 0x32, 0x30, 0x32, if value[i + 2] == 0xA8 then 0x38 else 0x39], 3))
            && (b >= 0x20 && b !in {0x22, 0x5C} && !separator ==> Escape(value, i) == ([b], 1))
  {
  }

  /** The texts of scalars and the frames of containers. */
  lemma DumpFrames(b: bool, s: bytes, items: seq<Json>, members: seq<Member>)
    ensures Dump(Null) == [0x6E, 0x75, 0x6C, 0x6C]
    ensures Dump(Bool(b)) == if b then [0x74, 0x72, 0x75, 0x65] else [0x66, 0x61, 0x6C, 0x73, 0x65]
    ensures Dump(Str(s)) == [0x22] + EscapeFrom(s, 0) + [0x22]
    ensures Dump(Array(items)) == [0x5B] + DumpItems(items) + [0x5D]
    ensures Dump(Object(members)) == [0x7B] + DumpMembers(members) + [0x7D]
    ensures |items| > 1 ==> DumpItems(items) == Dump(items[0]) + [0x2C, 0x20] + DumpItems(items[1..])
    ensures |members| > 1 ==> DumpMembers(members) == DumpMember(members[0]) + [0x2C, 0x20] + DumpMembers(members[1..])
    ensures |members| > 0 ==> DumpMember(members[0]) == [0x22] + EscapeFrom(members[0].key, 0) + [0x22] + [0x3A, 0x20] + Dump(members[0].value)
  {
  }

  /** What dump writes is a text of RFC 8259, of an equal value. */
  lemma DumpIsText(v: Json, st: Strategy) returns (r: Json)
    requires Valid(v) && Depth(v) <= 200
    ensures IsText(Dump(v), r, st) && Same(v, r)
  {
    hide Dump, Valid, Same, Document;
    ParseOfDump(v, st);
    r := Document(Dump(v), st).value;
    AcceptsExactlyTexts(Dump(v), r, st);
  }
}
