/** json11's `dump` overloads: loops that append to the output text. */
module JsonPrinter {
  import opened JsonValue

  method DumpStringTo(value: bytes, before: bytes) returns (out: bytes)
    ensures out == before + DumpString(value)
  {
    out := before + [QUOTE];
    var i := 0;
    while i < |value|
      invariant i <= |value|
      invariant out + EscapeFrom(value, i) == before + [QUOTE] + EscapeFrom(value, 0)
      decreases |value| - i
    {
      hide Escape, EscapeFrom;
      EscapeStep(value, i);
      ghost var was, at := out, i;
      out, i := DumpByteTo(value, i, out);
      Regroup(was, Escape(value, at).0, EscapeFrom(value, i));
    }
    Regroup(before, [QUOTE], EscapeFrom(value, 0));
    assert EscapeFrom(value, i) == [] && out == before + ([QUOTE] + EscapeFrom(value, 0));
    Regroup(before, [QUOTE] + EscapeFrom(value, 0), [QUOTE]);
    out := out + [QUOTE];
  }

  lemma Regroup(a: bytes, b: bytes, c: bytes)
    ensures a + (b + c) == a + b + c
  {
  }

  /** One round of the loop: the escape of the byte at i, or of the three bytes of U+2028 or U+2029. */
  method DumpByteTo(value: bytes, at: nat, before: bytes) returns (out: bytes, i: nat)
    requires at < |value|
    ensures out == before + Escape(value, at).0 && i == at + Escape(value, at).1
  {
    hide HexDigit;
    out, i := before, at;
    var ch := value[i];
    if ch == BACKSLASH {
      out := out + [BACKSLASH, BACKSLASH];
    } else if ch == QUOTE {
      out := out + [BACKSLASH, QUOTE];
    } else if ch == 0x08 {
      out := out + [BACKSLASH, LOWER_B];
    } else if ch == 0x0C {
      out := out + [BACKSLASH, LOWER_F];
    } else if ch == 0x0A {
      out := out + [BACKSLASH, LOWER_N];
    } else if ch == 0x0D {
      out := out + [BACKSLASH, LOWER_R];
    } else if ch == 0x09 {
      out := out + [BACKSLASH, LOWER_T];
    } else if ch <= 0x1F {
      out := out + [BACKSLASH, LOWER_U, ZERO, ZERO, HexDigit(ch / 16), HexDigit(ch % 16)];
    } else if ch == 0xE2 && At(value, i + 1) == 0x80 && At(value, i + 2) == 0xA8 {
      out := out + [BACKSLASH, LOWER_U, 0x32, 0x30, 0x32, 0x38];
      i := i + 2;
    } else if ch == 0xE2 && At(value, i + 1) == 0x80 && At(value, i + 2) == 0xA9 {
      out := out + [BACKSLASH, LOWER_U, 0x32, 0x30, 0x32, 0x39];
      i := i + 2;
    } else {
      out := out + [ch];
    }
    i := i + 1;
  }

  lemma EscapeStep(value: bytes, i: nat)
    requires i < |value|
    ensures EscapeFrom(value, i) == Escape(value, i).0 + EscapeFrom(value, i + Escape(value, i).1)
  {
  }

  /** `dump` of any value; std::map iterates in key order, which is the order members are held in. */
  method DumpTo(v: Json, before: bytes) returns (out: bytes)
    ensures out == before + Dump(v)
    decreases v, 1
  {
    match v
    case Null => out := before + NULL;
    case Bool(b) => out := before + if b then TRUE else FALSE;
    case Int(n) => out := before + DumpInt(n);
    case Double(text) => out := before + text;
    case Str(s) => out := DumpStringTo(s, before);
    case Array(items) => out := DumpItemsTo(items, before);
    case Object(members) => out := DumpMembersTo(members, before);
  }

  method DumpItemsTo(values: seq<Json>, before: bytes) returns (out: bytes)
    ensures out == before + [LBRACKET] + DumpItems(values) + [RBRACKET]
    decreases values, 0
  {
    hide *;
    var first := true;
    ghost var goal := before + [LBRACKET] + DumpItems(values);
    out := before + [LBRACKET];
    ItemsAtEnds(values);
    for i := 0 to |values|
      invariant first <==> i == 0
      invariant out + ItemsFrom(values, i) == goal
    {
      ItemsStep(values, i);
      Regroup(out, if first then [] else [COMMA, SPACE], Dump(values[i]) + ItemsFrom(values, i + 1));
      if !first {
        out := out + [COMMA, SPACE];
      }
      Regroup(out, Dump(values[i]), ItemsFrom(values, i + 1));
      out := DumpTo(values[i], out);
      first := false;
    }
    assert out == goal;
    out := out + [RBRACKET];
  }

  /** What is still to come when i items are written: a separator before each but the first of all. */
  function ItemsFrom(values: seq<Json>, i: nat): bytes
    requires i <= |values|
  {
    if i == 0 then DumpItems(values)
    else if i == |values| then []
    else [COMMA, SPACE] + DumpItems(values[i..])
  }

  lemma ItemsAtEnds(values: seq<Json>)
    ensures ItemsFrom(values, 0) == DumpItems(values) && ItemsFrom(values, |values|) == []
  {
  }

  lemma ItemsStep(values: seq<Json>, i: nat)
    requires i < |values|
    ensures ItemsFrom(values, i) == (if i == 0 then [] else [COMMA, SPACE]) + (Dump(values[i]) + ItemsFrom(values, i + 1))
  {
    hide Dump;
    var tail := values[i..];
    assert tail[1..] == values[i + 1..] && DumpItems(values) == DumpItems(values[0..]);
  }

  method DumpMemberTo(m: Member, before: bytes) returns (out: bytes)
    ensures out == before + DumpMember(m)
    decreases m, 0
  {
    hide Dump, DumpString;
    out := DumpStringTo(m.key, before);
    out := out + [COLON, SPACE];
    out := DumpTo(m.value, out);
  }

  method DumpMembersTo(values: seq<Member>, before: bytes) returns (out: bytes)
    ensures out == before + [LBRACE] + DumpMembers(values) + [RBRACE]
    decreases values, 0
  {
    hide *;
    var first := true;
    ghost var goal := before + [LBRACE] + DumpMembers(values);
    out := before + [LBRACE];
    MembersAtEnds(values);
    for i := 0 to |values|
      invariant first <==> i == 0
      invariant out + MembersFrom(values, i) == goal
    {
      MembersStep(values, i);
      Regroup(out, if first then [] else [COMMA, SPACE], DumpMember(values[i]) + MembersFrom(values, i + 1));
      if !first {
        out := out + [COMMA, SPACE];
      }
      Regroup(out, DumpMember(values[i]), MembersFrom(values, i + 1));
      out := DumpMemberTo(values[i], out);
      first := false;
    }
    assert out == goal;
    out := out + [RBRACE];
  }

  function MembersFrom(values: seq<Member>, i: nat): bytes
    requires i <= |values|
  {
    if i == 0 then DumpMembers(values)
    else if i == |values| then []
    else [COMMA, SPACE] + DumpMembers(values[i..])
  }

  lemma MembersAtEnds(values: seq<Member>)
    ensures MembersFrom(values, 0) == DumpMembers(values) && MembersFrom(values, |values|) == []
  {
  }

  lemma MembersStep(values: seq<Member>, i: nat)
    requires i < |values|
    ensures MembersFrom(values, i) == (if i == 0 then [] else [COMMA, SPACE]) + (DumpMember(values[i]) + MembersFrom(values, i + 1))
  {
    hide DumpMember;
    var tail := values[i..];
    assert tail[1..] == values[i + 1..] && DumpMembers(values) == DumpMembers(values[0..]);
  }
}
