/** What a format takes by the rules of the C standard (section 7.21.6.1 of ISO/IEC 9899:2011), and that
    the extractor takes exactly that: a relation between the characters of a format and C types, without
    the reader, its directives or its tags. */
module PrintfStandard {
  import opened Wrappers
  import opened PrintfFormat
  import opened PrintfArgs

  // ----- the standard -----

  /** Argument types after default promotion. ptrdiff_t, intmax_t and size_t are as wide as long. */
  datatype CType = CInt | CUnsigned | CLong | CUnsignedLong | CLongLong | CUnsignedLongLong | CDouble | CPointer

  datatype Modifier = NoModifier | ModHH | ModH | ModL | ModLL | ModJ | ModZ | ModT

  predicate ModifierText(t: string, m: Modifier) {
    match m
    case NoModifier => t == ""
    case ModHH => t == "hh"
    case ModH => t == "h"
    case ModL => t == "l"
    case ModLL => t == "ll"
    case ModJ => t == "j"
    case ModZ => t == "z"
    case ModT => t == "t"
  }

  ghost predicate ModifierIn(s: string, i: nat, j: nat, m: Modifier) { i <= j <= |s| && ModifierText(s[i..j], m) }

  /** The rows of the table: with this modifier the specifier takes an argument of type t. `b` is an
      extension; a modifier does not matter to `c`, `s`, `p` and the floating specifiers. */
  predicate Row(m: Modifier, spec: char, t: CType) {
    match t
    case CInt => (spec in {'d', 'i'} && m in {NoModifier, ModH, ModHH}) || spec == 'c'
    case CUnsigned => spec in {'u', 'o', 'x', 'X', 'b'} && m in {NoModifier, ModH, ModHH}
    case CLong => spec in {'d', 'i'} && m in {ModL, ModJ, ModZ, ModT}
    case CUnsignedLong => spec in {'u', 'o', 'x', 'X', 'b'} && m in {ModL, ModJ, ModZ, ModT}
    case CLongLong => spec in {'d', 'i'} && m == ModLL
    case CUnsignedLongLong => spec in {'u', 'o', 'x', 'X', 'b'} && m == ModLL
    case CDouble => spec in {'f', 'F', 'e', 'E', 'g', 'G'}
    case CPointer => spec in {'s', 'p'}
  }

  /** Flags between the percent sign at i and j. */
  ghost predicate FlagsIn(s: string, i: nat, j: nat) {
    i < j <= |s| && forall k | i < k < j :: s[k] in {'-', '+', ' ', '#', '0'}
  }

  ghost predicate DigitsIn(s: string, i: nat, j: nat) {
    i < j <= |s| && forall k | i <= k < j :: '0' <= s[k] <= '9'
  }

  /** A width: none, a number, or a star, which takes an int. */
  ghost predicate WidthIn(s: string, i: nat, j: nat, args: seq<CType>) {
    || (i == j <= |s| && args == [])
    || (DigitsIn(s, i, j) && s[i] != '0' && args == [])
    || (j == i + 1 <= |s| && s[i] == '*' && args == [CInt])
  }

  /** A precision: none, or a dot and then nothing, a number, or a star. */
  ghost predicate PrecisionIn(s: string, i: nat, j: nat, args: seq<CType>) {
    || (i == j <= |s| && args == [])
    || (i < j <= |s| && s[i] == '.'
        && (|| (j == i + 1 && args == [])
            || (DigitsIn(s, i + 1, j) && args == [])
            || (j == i + 2 && s[i + 1] == '*' && args == [CInt])))
  }

  /** The conversion itself: an argument by the table, or none for a percent sign. */
  predicate SpecIn(m: Modifier, spec: char, args: seq<CType>) {
    (spec == '%' && args == []) || (|args| == 1 && Row(m, spec, args[0]))
  }

  /** A directive, from its percent sign at i to its specifier at e, takes these arguments: those of its
      stars, then its own. */
  ghost predicate DirectiveIn(s: string, i: nat, e: nat, w: seq<CType>, p: seq<CType>, own: seq<CType>) {
    exists a: nat, b: nat, c: nat, m: Modifier | i < a <= b <= c <= e < |s| ::
      FlagsIn(s, i, a) && WidthIn(s, a, b, w) && PrecisionIn(s, b, c, p) && ModifierIn(s, c, e, m) && SpecIn(m, s[e], own)
  }

  /** From i on the format takes these arguments. */
  ghost predicate Takes(s: string, i: nat, args: seq<CType>)
    decreases |s| - i
  {
    && i <= |s|
    && if i == |s| then args == []
       else if s[i] != '%' then Takes(s, i + 1, args)
       else exists e: nat, w: seq<CType>, p: seq<CType>, own: seq<CType> | i < e < |s| && w + p + own <= args ::
              DirectiveIn(s, i, e, w, p, own) && Takes(s, e + 1, args[|w + p + own|..])
  }

  // ----- the extractor -----

  function Tag(t: CType): CVargType {
    match t
    case CInt => Int
    case CUnsigned => UInt
    case CLong => Long
    case CUnsignedLong => ULong
    case CLongLong => LongLong
    case CUnsignedLongLong => ULongLong
    case CDouble => Double
    case CPointer => Pointer
  }

  function Tags(args: seq<CType>): (r: seq<CVargType>)
    ensures |r| == |args| && forall k | 0 <= k < |r| :: r[k] == Tag(args[k])
  {
    seq(|args|, k requires 0 <= k < |args| => Tag(args[k]))
  }

  function LengthOf(m: Modifier): Length {
    match m
    case NoModifier => NoLength
    case ModHH => HH
    case ModH => H
    case ModL => L
    case ModLL => LL
    case ModJ => J
    case ModZ => Z
    case ModT => T
  }

  /** The extractor's table is the standard's, for every modifier and every specifier; a percent sign and
      any character that is no supported specifier take nothing. */
  lemma SpecTable(m: Modifier, spec: char, t: CType)
    ensures Row(m, spec, t) <==> SpecTypes(LengthOf(m), spec) == [Tag(t)]
    ensures SpecTypes(LengthOf(m), spec) == [] <==> spec !in {'d', 'i', 'u', 'o', 'x', 'X', 'b', 'f', 'F', 'e', 'E', 'g', 'G', 'c', 's', 'p'}
  {
  }

  /** The standard's `%a`, `%A` and `%n` are not supported, and take nothing. */
  lemma UnsupportedTakeNothing(m: Modifier)
    ensures SpecTypes(LengthOf(m), 'a') == SpecTypes(LengthOf(m), 'A') == SpecTypes(LengthOf(m), 'n') == []
  {
  }

  lemma SpecTags(m: Modifier, spec: char, args: seq<CType>)
    requires SpecIn(m, spec, args)
    ensures SpecTypes(LengthOf(m), spec) == Tags(args) && IsSpecifier(spec)
  {
    if spec == '%' {
      assert SpecTypes(LengthOf(m), '%') == [];
    } else {
      SpecTable(m, spec, args[0]);
      assert Tags(args) == [Tag(args[0])];
    }
  }

  lemma WidthField(s: string, i: nat, j: nat, args: seq<CType>) returns (f: Field)
    requires WidthIn(s, i, j, args)
    ensures i <= j <= |s| && s[i..j] == ShowField(f) && FieldTypes(f) == Tags(args) && (f.Digits? ==> IsNumber(f.ds))
  {
    if i == j {
      f := Absent;
    } else if s[i] == '*' {
      f := Star;
      assert s[i..j] == "*";
    } else {
      f := Digits(s[i..j]);
      assert forall k | 0 <= k < j - i :: s[i..j][k] == s[i + k];
    }
  }

  lemma PrecisionField(s: string, i: nat, j: nat, args: seq<CType>) returns (p: Option<Field>)
    requires PrecisionIn(s, i, j, args)
    ensures i <= j <= |s| && s[i..j] == ShowPrecision(p) && PrecisionTypes(p) == Tags(args)
    ensures p.Some? && p.value.Digits? ==> p.value.ds != "" && forall k | 0 <= k < |p.value.ds| :: IsDigit(p.value.ds[k])
  {
    if i == j {
      p := None;
    } else if j == i + 1 {
      p := Some(Absent);
      assert s[i..j] == ".";
    } else if s[i + 1] == '*' {
      p := Some(Star);
      assert s[i..j] == "." + "*";
    } else {
      var ds := s[i + 1..j];
      p := Some(Digits(ds));
      assert forall k | 0 <= k < |ds| :: ds[k] == s[i + 1 + k];
      assert s[i..j] == "." + ds;
    }
  }

  lemma ModifierShown(s: string, i: nat, j: nat, m: Modifier)
    requires ModifierIn(s, i, j, m)
    ensures i <= j <= |s| && s[i..j] == ShowLength(LengthOf(m))
  {
  }

  lemma FlagsShown(s: string, i: nat, j: nat)
    requires FlagsIn(s, i, j)
    ensures i < j <= |s| && AllFlags(s[i + 1..j])
  {
    var t := s[i + 1..j];
    assert forall k | 0 <= k < |t| :: t[k] == s[i + 1 + k];
  }

  lemma Cut3(s: string, i: nat, j: nat)
    requires i <= j <= |s|
    ensures s[i..] == s[i..j] + s[j..]
  {
  }

  /** The characters of one directive, behind its percent sign. */
  lemma DirectiveStands(s: string, i: nat, e: nat, w: seq<CType>, p: seq<CType>, own: seq<CType>) returns (d: Directive)
    requires DirectiveIn(s, i, e, w, p, own)
    ensures i < e < |s| && IsStandard(Conversion(d)) && s[i + 1..] == ShowDirective(d) + s[e + 1..]
    ensures DirectiveTypes(d) == Tags(w) + Tags(p) + Tags(own)
  {
    hide FlagsIn, WidthIn, PrecisionIn, ModifierIn, SpecIn, IsStandard, DirectiveTypes, ShowDirective;
    var a: nat, b: nat, c: nat, m: Modifier :| i < a <= b <= c <= e < |s|
      && FlagsIn(s, i, a) && WidthIn(s, a, b, w) && PrecisionIn(s, b, c, p) && ModifierIn(s, c, e, m) && SpecIn(m, s[e], own);
    d := PartsStand(s, i, a, b, c, e, m, w, p, own);
  }

  lemma PartsStand(s: string, i: nat, a: nat, b: nat, c: nat, e: nat, m: Modifier, w: seq<CType>, p: seq<CType>, own: seq<CType>)
    returns (d: Directive)
    requires i < a <= b <= c <= e < |s|
    requires FlagsIn(s, i, a) && WidthIn(s, a, b, w) && PrecisionIn(s, b, c, p) && ModifierIn(s, c, e, m) && SpecIn(m, s[e], own)
    ensures IsStandard(Conversion(d)) && s[i + 1..] == ShowDirective(d) + s[e + 1..]
    ensures DirectiveTypes(d) == Tags(w) + Tags(p) + Tags(own)
  {
    hide *;
    FlagsShown(s, i, a);
    var width := WidthField(s, a, b, w);
    var precision := PrecisionField(s, b, c, p);
    ModifierShown(s, c, e, m);
    SpecTags(m, s[e], own);
    d := Directive(s[i + 1..a], width, precision, LengthOf(m), s[e]);
    StandardParts(d);
    PartsJoin(s, i + 1, a, b, c, e, d);
  }

  lemma StandardParts(d: Directive)
    requires AllFlags(d.flags) && IsSpecifier(d.spec) && (d.width.Digits? ==> IsNumber(d.width.ds))
    requires d.precision.Some? && d.precision.value.Digits? ==>
               d.precision.value.ds != "" && forall k | 0 <= k < |d.precision.value.ds| :: IsDigit(d.precision.value.ds[k])
    ensures IsStandard(Conversion(d))
    ensures DirectiveTypes(d) == FieldTypes(d.width) + PrecisionTypes(d.precision) + SpecTypes(d.length, d.spec)
  {
  }

  lemma PartsJoin(s: string, i: nat, a: nat, b: nat, c: nat, e: nat, d: Directive)
    requires i <= a <= b <= c <= e < |s|
    requires s[i..a] == d.flags && s[a..b] == ShowField(d.width) && s[b..c] == ShowPrecision(d.precision)
    requires s[c..e] == ShowLength(d.length) && s[e] == d.spec
    ensures s[i..] == ShowDirective(d) + s[e + 1..]
  {
    hide ShowField, ShowPrecision, ShowLength;
    var l, q, f, rest := ShowLength(d.length), ShowPrecision(d.precision), ShowField(d.width), s[e + 1..];
    assert s[e..] == [d.spec] + rest;
    assert s[c..] == l + s[e..];
    assert s[b..] == q + s[c..];
    assert s[a..] == f + s[b..];
    assert s[i..] == d.flags + s[a..];
    Assoc(l, [d.spec], rest);
    Assoc(q, l + [d.spec], rest);
    Assoc(f, q + (l + [d.spec]), rest);
    Assoc(d.flags, f + (q + (l + [d.spec])), rest);
  }

  /** The extractor takes of a format exactly what the standard says. */
  lemma {:induction false} TakesIsTaken(s: string, i: nat, args: seq<CType>)
    requires Takes(s, i, args)
    ensures i <= |s| && Complete(s[i..]) && ArgTypes(s[i..]) == Tags(args)
    decreases |s| - i
  {
    hide Complete, ArgTypes, DirectiveIn, IsStandard, ShowDirective, DirectiveTypes;
    if i == |s| {
      NothingTaken();
      assert s[i..] == "" && Tags([]) == [];
    } else if s[i] != '%' {
      TakesIsTaken(s, i + 1, args);
      PlainFirst(s, i);
    } else {
      var e: nat, w: seq<CType>, p: seq<CType>, own: seq<CType> :| i < e < |s| && w + p + own <= args
        && DirectiveIn(s, i, e, w, p, own) && Takes(s, e + 1, args[|w + p + own|..]);
      var d := DirectiveStands(s, i, e, w, p, own);
      TakesIsTaken(s, e + 1, args[|w + p + own|..]);
      DirectiveFirst(s, i, e + 1, d);
      TagsJoin(w, p, own, args[|w + p + own|..]);
      assert args == w + p + own + args[|w + p + own|..];
    }
  }

  lemma TagsJoin(w: seq<CType>, p: seq<CType>, own: seq<CType>, rest: seq<CType>)
    ensures Tags(w + p + own + rest) == Tags(w) + Tags(p) + Tags(own) + Tags(rest)
  {
  }

  lemma PlainFirst(s: string, i: nat)
    requires i < |s| && s[i] != '%' && Complete(s[i + 1..])
    ensures Complete(s[i..]) && ArgTypes(s[i..]) == ArgTypes(s[i + 1..])
  {
    assert s[i..] == [s[i]] + s[i + 1..];
    PlainParses(s[i], s[i + 1..]);
    var rest := Parse(s[i + 1..]).value;
    assert ([Plain(s[i])] + rest)[1..] == rest;
  }

  lemma DirectiveFirst(s: string, i: nat, j: nat, d: Directive)
    requires i < j <= |s| && s[i] == '%' && IsStandard(Conversion(d)) && s[i + 1..] == ShowDirective(d) + s[j..] && Complete(s[j..])
    ensures Complete(s[i..]) && ArgTypes(s[i..]) == DirectiveTypes(d) + ArgTypes(s[j..])
  {
    hide IsStandard, ShowDirective, DirectiveTypes;
    assert s[i..] == "%" + s[i + 1..];
    DirectiveRead(d, s[j..]);
    ConversionParses(d, s[i + 1..], s[j..]);
    var rest := Parse(s[j..]).value;
    assert ([Conversion(d)] + rest)[1..] == rest;
  }

  /** `extract` on a format of the standard: for printf each argument under the tag of its type and with
      its value, of an unsigned long only the low 32 bits; for scanf each as a pointer. */
  method ExtractStandard(style: FormatStyle, format: string, ghost args: seq<CType>, va: seq<int>, out: array<CVargEntry>) returns (count: int)
    requires style != OtherStyle && NUL !in format && Takes(format, 0, args) && |args| <= |va| && |args| < out.Length
    modifies out
    ensures count == |args|
    ensures forall k | 0 <= k < count :: out[k].typ == if style == ScanF then Pointer else Tag(args[k])
    ensures forall k | 0 <= k < count ::
              out[k].value == if style == PrintF && args[k] == CUnsignedLong then va[k] % 0x1_0000_0000 else va[k]
    ensures out[count] == Entry(Void, 0) && out[count + 1..] == old(out[count + 1..])
  {
    hide Takes, Complete, ArgTypes, Boxed, Tag;
    TakesIsTaken(format, 0, args);
    assert format[0..] == format;
    count := Extract(style, format, va, out);
    forall k | 0 <= k < count
      ensures out[k] == Entry(if style == ScanF then Pointer else Tag(args[k]),
                              if style == PrintF && args[k] == CUnsignedLong then va[k] % 0x1_0000_0000 else va[k])
    {
      BoxedArgument(style == ScanF, args[k], va[k]);
    }
  }

  lemma BoxedArgument(capture: bool, t: CType, v: int)
    ensures Boxed(capture, Tag(t), v)
            == Entry(if capture then Pointer else Tag(t), if !capture && t == CUnsignedLong then v % 0x1_0000_0000 else v)
  {
  }
}
