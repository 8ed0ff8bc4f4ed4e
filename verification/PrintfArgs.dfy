/** The argument extractor: mp_vsnprintf driven with a null sink, so that all it does is walk the
    va_list and box each argument (printf.c, printf_scanf.c, va_type.h, VariadicAdaptor.cpp). */
module PrintfArgs {
  import opened Wrappers
  import opened PrintfFormat

  datatype CVargEntry = Entry(typ: CVargType, value: int)

  datatype Flag = ZeroPad | Left | Plus | Space | Hash | Char | Short | LongFlag | LongLongFlag | PrecisionFlag

  const NUL: char := 0 as char

  const UINT_RANGE := 0x1_0000_0000

  /** What the union keeps of an argument: its member for unsigned long is an unsigned int. */
  function Stored(t: CVargType, v: int): (r: int)
    ensures r == v <==> (t != ULong || 0 <= v < UINT_RANGE)
  {
    if t == ULong then v % UINT_RANGE else v
  }

  /** The entry of one argument: the scanf variant is compiled to tag every one of them as a pointer. */
  function Boxed(capture: bool, t: CVargType, v: int): (r: CVargEntry)
    ensures r.value == v <==> (capture || t != ULong || 0 <= v < UINT_RANGE)
  {
    if capture then Entry(Pointer, v) else Entry(t, Stored(t, v))
  }

  /** What a va_ macro evaluates to: the scanf variants of the numeric ones give zero. */
  function Evaluated(capture: bool, t: CVargType, v: int): int { if capture && t != Pointer then 0 else v }

  /** The number that digits stand for. */
  function NumberOf(ds: string): int {
    if ds == "" then 0 else NumberOf(ds[..|ds| - 1]) * 10 + (ds[|ds| - 1] as int - '0' as int)
  }

  /** The accumulating loop of _atoi on the digits at the start of s. */
  function Wrapped(s: string, value: nat): nat {
    if s == "" || !IsDigit(s[0]) then value else Wrapped(s[1..], (value * 10 + (s[0] as int - '0' as int)) % UINT_RANGE)
  }

  lemma WrappedStep(s: string, value: nat)
    ensures s != "" && IsDigit(s[0]) ==>
              && Wrapped(s, value) == Wrapped(s[1..], (value * 10 + (s[0] as int - '0' as int)) % UINT_RANGE)
              && DigitRun(s) == 1 + DigitRun(s[1..])
    ensures s == "" || !IsDigit(s[0]) ==> Wrapped(s, value) == value && DigitRun(s) == 0
  {
  }

  lemma FlagStep(s: string)
    ensures FlagRun(s) == if s == "" || !IsFlag(s[0]) then 0 else 1 + FlagRun(s[1..])
  {
  }

  lemma NoDigits()
    ensures NumberOf("") == 0
  {
  }

  /** Reducing at every digit is the same as reducing the number once. */
  lemma {:induction false} WrappedIsNumber(s: string, before: string)
    ensures Wrapped(s, NumberOf(before) % UINT_RANGE) == NumberOf(before + s[..DigitRun(s)]) % UINT_RANGE
    decreases |s|
  {
    hide NumberOf;
    WrappedStep(s, NumberOf(before) % UINT_RANGE);
    if s != "" && IsDigit(s[0]) {
      NumberOfMore(before, s[0]);
      WrappedIsNumber(s[1..], before + [s[0]]);
      assert before + [s[0]] + s[1..][..DigitRun(s[1..])] == before + s[..DigitRun(s)];
    } else {
      assert before + s[..0] == before;
    }
  }

  lemma NumberOfMore(ds: string, c: char)
    requires IsDigit(c)
    ensures NumberOf(ds + [c]) % UINT_RANGE == (NumberOf(ds) % UINT_RANGE * 10 + (c as int - '0' as int)) % UINT_RANGE
  {
    assert (ds + [c])[..|ds|] == ds;
    assert NumberOf(ds + [c]) == NumberOf(ds) * 10 + (c as int - '0' as int);
    WrapStep(NumberOf(ds), c as int - '0' as int);
  }

  lemma WrapStep(n: int, d: nat)
    ensures (n * 10 + d) % UINT_RANGE == (n % UINT_RANGE * 10 + d) % UINT_RANGE
  {
    var q := n / UINT_RANGE;
    assert n * 10 + d == (n % UINT_RANGE * 10 + d) + UINT_RANGE * (q * 10);
  }

  /** The width that a field stands for, its star taking the argument v: a negative one counts without
      its sign. */
  function WidthOf(capture: bool, f: Field, v: int): nat {
    match f
    case Absent => 0
    case Digits(ds) => NumberOf(ds) % UINT_RANGE
    case Star => var w := Evaluated(capture, Int, v); (if w < 0 then -w else w) % UINT_RANGE
  }

  /** The precision, likewise: a negative one counts as zero. */
  function PrecisionOf(capture: bool, p: Option<Field>, v: int): nat {
    match p
    case None => 0
    case Some(f) => if f == Star && Evaluated(capture, Int, v) < 0 then 0 else WidthOf(capture, f, v)
  }

  /** A star counts without its sign as a width, and as nothing when it is negative as a precision; digits
      count modulo 2^32; scanf's variant takes a star for zero. */
  lemma FieldValues(v: int, ds: string, c: char)
    requires IsDigit(c)
    ensures WidthOf(false, Star, v) == (if v < 0 then -v else v) % 0x1_0000_0000
    ensures PrecisionOf(false, Some(Star), v) == (if v < 0 then 0 else v % 0x1_0000_0000)
    ensures WidthOf(true, Star, v) == 0 == PrecisionOf(true, Some(Star), v)
    ensures WidthOf(false, Absent, v) == 0 == PrecisionOf(false, None, v) == PrecisionOf(false, Some(Absent), v)
    ensures WidthOf(false, Digits(ds), v) == NumberOf(ds) % 0x1_0000_0000 == PrecisionOf(false, Some(Digits(ds)), v)
    ensures NumberOf("") == 0 && NumberOf(ds + [c]) == 10 * NumberOf(ds) + (c as int - 48)
  {
    assert (ds + [c])[..|ds|] == ds;
  }

  /** A format and a va_list being walked. */
  class Extractor {
    const format: string
    const va: seq<int>
    const capture: bool
    const entries: array<CVargEntry>
    var at: nat
    var taken: nat
    var n: nat
    ghost var types: seq<CVargType>

    /** One entry has been written for each argument taken, in order. */
    ghost predicate Valid()
      reads this, entries
    {
      && at <= |format| && n == taken == |types| && n <= |va| && n < entries.Length
      && Filled()
    }

    ghost predicate Filled()
      requires n <= |types| && n <= |va| && n < entries.Length
      reads this`n, this`types, entries
    {
      forall k | 0 <= k < n :: entries[k] == Boxed(capture, types[k], va[k])
    }

    ghost function Ahead(): string
      reads this`at
    {
      if at <= |format| then format[at..] else ""
    }

    /** The argument that va_arg would take next. */
    ghost function NextArg(): int
      reads this`taken
    {
      if taken < |va| then va[taken] else 0
    }

    /** There are arguments and entries left for these types, and one entry for the sentinel. */
    ghost predicate RoomFor(more: nat)
      reads this`types
    {
      |types| + more <= |va| && |types| + more < entries.Length
    }

    constructor (format: string, va: seq<int>, capture: bool, entries: array<CVargEntry>)
      requires entries.Length > 0
      ensures Valid() && this.format == format && this.va == va && this.capture == capture && this.entries == entries
      ensures at == 0 && types == []
    {
      this.format, this.va, this.capture, this.entries := format, va, capture, entries;
      at, taken, n, types := 0, 0, 0, [];
    }

    /** `*format`, with the NUL at the end. */
    function Current(): (c: char)
      reads this`at
      ensures c == if Ahead() == "" then NUL else Ahead()[0]
    {
      if at < |format| then format[at] else NUL
    }

    /** `format++`. */
    method Advance()
      requires Valid() && Ahead() != ""
      modifies this`at
      ensures Valid() && at == old(at) + 1 && Ahead() == old(Ahead())[1..]
    {
      assert Ahead()[1..] == format[at + 1..];
      at := at + 1;
    }

    /** The va_ macros: take an argument, append its entry; the scanf variants evaluate to zero. */
    method Box(t: CVargType) returns (v: int)
      requires Valid() && RoomFor(1)
      modifies this`taken, this`n, this`types, entries
      ensures Valid() && types == old(types) + [t] && v == Evaluated(capture, t, old(NextArg()))
      ensures n >= old(n) && forall k | n <= k < entries.Length :: entries[k] == old(entries[k])
    {
      var val := va[taken];
      taken := taken + 1;
      entries[n] := Boxed(capture, t, val);
      n := n + 1;
      types := types + [t];
      v := Evaluated(capture, t, val);
    }

    method EvaluateFlags() returns (flags: set<Flag>)
      requires Valid()
      modifies this`at
      ensures Valid() && at >= old(at) && Ahead() == old(Ahead())[FlagRun(old(Ahead()))..]
      ensures flags <= {ZeroPad, Left, Plus, Space, Hash}
    {
      hide Valid, Ahead, FlagRun, Current;
      flags := {};
      var more := true;
      ghost var s, k := Ahead(), 0;
      while more
        invariant Valid() && old(at) <= at && 0 <= k <= |s| && Ahead() == s[k..]
        invariant FlagRun(s) == k + if more then FlagRun(Ahead()) else 0
        invariant flags <= {ZeroPad, Left, Plus, Space, Hash}
        decreases |Ahead()|, more
      {
        var c := Current();
        FlagStep(Ahead());
        if IsFlag(c) {
          flags := flags + {if c == '0' then ZeroPad else if c == '-' then Left else if c == '+' then Plus else if c == ' ' then Space else Hash};
          Advance();
          k := k + 1;
        } else {
          more := false;
        }
      }
    }

    /** `_atoi`, wrapping around as unsigned int does. */
    method Atoi() returns (value: nat)
      requires Valid()
      modifies this`at
      ensures Valid() && at >= old(at) && Ahead() == old(Ahead())[DigitRun(old(Ahead()))..]
      ensures value == NumberOf(old(Ahead())[..DigitRun(old(Ahead()))]) % UINT_RANGE
    {
      hide Valid, Ahead, NumberOf, DigitRun, Wrapped, Current;
      value := 0;
      ghost var s, k := Ahead(), 0;
      WrappedIsNumber(s, "");
      NoDigits();
      while IsDigit(Current())
        invariant Valid() && old(at) <= at && 0 <= k <= |s| && Ahead() == s[k..]
        invariant DigitRun(s) == k + DigitRun(Ahead()) && Wrapped(Ahead(), value) == Wrapped(s, 0)
        decreases |Ahead()|
      {
        WrappedStep(Ahead(), value);
        value := (value * 10 + (Current() as int - '0' as int)) % UINT_RANGE;
        Advance();
        k := k + 1;
      }
      WrappedStep(Ahead(), value);
      assert "" + s[..DigitRun(s)] == s[..DigitRun(s)];
    }

    /** A negative argument pads on the left. */
    method EvaluateWidth(before: set<Flag>) returns (flags: set<Flag>, width: nat)
      requires Valid() && RoomFor(|FieldTypes(FieldAt(Ahead()))|)
      modifies this`at, this`taken, this`n, this`types, entries
      ensures Valid() && at >= old(at) && Ahead() == old(Ahead())[|ShowField(FieldAt(old(Ahead())))|..]
      ensures types == old(types) + FieldTypes(FieldAt(old(Ahead()))) && before <= flags <= before + {Left}
      ensures width == WidthOf(capture, FieldAt(old(Ahead())), old(NextArg()))
      ensures n >= old(n) && forall k | n <= k < entries.Length :: entries[k] == old(entries[k])
    {
      hide Valid, Ahead, DigitRun, NumberOf, Current, NextArg;
      flags, width := before, 0;
      if IsDigit(Current()) {
        width := Atoi();
      } else if Current() == '*' {
        var w := Box(Int);
        if w < 0 {
          flags := flags + {Left};
          width := -w % UINT_RANGE;
        } else {
          width := w % UINT_RANGE;
        }
        Advance();
      }
    }

    method EvaluatePrecision(before: set<Flag>) returns (flags: set<Flag>, precision: nat)
      requires Valid() && RoomFor(|PrecisionTypes(PrecisionAt(Ahead()))|)
      modifies this`at, this`taken, this`n, this`types, entries
      ensures Valid() && at >= old(at) && Ahead() == old(Ahead())[|ShowPrecision(PrecisionAt(old(Ahead())))|..]
      ensures types == old(types) + PrecisionTypes(PrecisionAt(old(Ahead()))) && before <= flags <= before + {PrecisionFlag}
      ensures precision == PrecisionOf(capture, PrecisionAt(old(Ahead())), old(NextArg()))
      ensures n >= old(n) && forall k | n <= k < entries.Length :: entries[k] == old(entries[k])
    {
      hide Valid, Ahead, DigitRun, NumberOf, Current;
      flags, precision := before, 0;
      ghost var s := Ahead();
      if Current() == '.' {
        flags := flags + {PrecisionFlag};
        Advance();
        ghost var t := Ahead();
        if IsDigit(Current()) {
          precision := Atoi();
          assert s[1 + DigitRun(t)..] == t[DigitRun(t)..];
        } else if Current() == '*' {
          var prec := Box(Int);
          precision := if prec > 0 then prec % UINT_RANGE else 0;
          Advance();
          assert s[2..] == t[1..];
        }
      }
    }

    method EvaluateLength(before: set<Flag>) returns (flags: set<Flag>)
      requires Valid() && LongFlag !in before && LongLongFlag !in before
      modifies this`at
      ensures Valid() && at >= old(at) && Ahead() == old(Ahead())[|ShowLength(LengthAt(old(Ahead())))|..]
      ensures LongLongFlag in flags <==> LengthAt(old(Ahead())) == LL
      ensures LongFlag in flags <==> LengthAt(old(Ahead())) in {L, LL, T, J, Z}
    {
      hide Valid, Ahead, Current;
      flags := before;
      ghost var s := Ahead();
      assert |s| > 1 ==> s[1..][0] == s[1] && s[1..][1..] == s[2..];
      match Current()
      case 'l' =>
        flags := flags + {LongFlag};
        Advance();
        if Current() == 'l' {
          flags := flags + {LongLongFlag};
          Advance();
        }
      case 'h' =>
        flags := flags + {Short};
        Advance();
        if Current() == 'h' {
          flags := flags + {Char};
          Advance();
        }
      // ptrdiff_t, intmax_t and size_t are as wide as long
      case 't' => flags := flags + {LongFlag}; Advance();
      case 'j' => flags := flags + {LongFlag}; Advance();
      case 'z' => flags := flags + {LongFlag}; Advance();
      case _ =>
    }

    method EvaluateSpecifier(flags: set<Flag>, ghost length: Length)
      requires Valid() && Ahead() != "" && RoomFor(|SpecTypes(length, Ahead()[0])|)
      requires LongLongFlag in flags <==> length == LL
      requires LongFlag in flags <==> length in {L, LL, T, J, Z}
      modifies this`at, this`taken, this`n, this`types, entries
      ensures Valid() && at > old(at) && Ahead() == old(Ahead())[1..] && types == old(types) + SpecTypes(length, old(Ahead())[0])
      ensures n >= old(n) && forall k | n <= k < entries.Length :: entries[k] == old(entries[k])
    {
      hide Valid, Ahead, Current;
      var c := Current();
      if c in "diuxXob" {
        if c in "id" {
          if LongLongFlag in flags {
            var _ := Box(LongLong);
          } else if LongFlag in flags {
            var _ := Box(Long);
          } else {
            var _ := Box(Int);
          }
        } else if LongLongFlag in flags {
          var _ := Box(ULongLong);
        } else if LongFlag in flags {
          var _ := Box(ULong);
        } else {
          var _ := Box(UInt);
        }
      } else if c in "fFeEgG" {
        var _ := Box(Double);
      } else if c == 'c' {
        var _ := Box(Int);
      } else if c in "sp" {
        var _ := Box(Pointer);
      }
      Advance();
    }

    /** Flags, width and precision. */
    method EvaluateFields(ghost d: Directive) returns (flags: set<Flag>)
      requires Valid() && DirectiveAt(Ahead()).Some? && d == DirectiveAt(Ahead()).value.0
      requires RoomFor(|FieldTypes(d.width)| + |PrecisionTypes(d.precision)|)
      modifies this`at, this`taken, this`n, this`types, entries
      ensures Valid() && at >= old(at) && DirectiveTail(old(Ahead()), d, Ahead())
      ensures types == old(types) + FieldTypes(d.width) + PrecisionTypes(d.precision)
      ensures LongFlag !in flags && LongLongFlag !in flags
      ensures n >= old(n) && forall k | n <= k < entries.Length :: entries[k] == old(entries[k])
    {
      hide FlagRun, FieldAt, PrecisionAt, LengthAt, FieldTypes, PrecisionTypes, SpecTypes, ShowField, ShowPrecision, ShowLength;
      hide Valid, Ahead, DirectiveAt, DirectiveTypes, Rest, DirectiveTail;
      ghost var s1, s2, s3 := DirectiveStages(Ahead(), d);
      flags := EvaluateFlags();
      assert Ahead() == s1;
      var width, precision: nat;
      flags, width := EvaluateWidth(flags);
      assert Ahead() == s2;
      flags, precision := EvaluatePrecision(flags);
      assert Ahead() == s3;
    }

    /** What follows a percent sign. */
    method EvaluateDirective()
      requires Valid() && DirectiveAt(Ahead()).Some? && RoomFor(|DirectiveTypes(DirectiveAt(Ahead()).value.0)|)
      modifies this`at, this`taken, this`n, this`types, entries
      ensures Valid() && at > old(at) && Ahead() == DirectiveAt(old(Ahead())).value.1
      ensures types == old(types) + DirectiveTypes(DirectiveAt(old(Ahead())).value.0)
      ensures n >= old(n) && forall k | n <= k < entries.Length :: entries[k] == old(entries[k])
    {
      hide LengthAt, FieldTypes, PrecisionTypes, SpecTypes, ShowLength, Valid, Ahead, DirectiveAt;
      ghost var d := DirectiveAt(Ahead()).value.0;
      var flags := EvaluateFields(d);
      flags := EvaluateLength(flags);
      EvaluateSpecifier(flags, d.length);
    }

    /** `mp_vsnprintf` and `mp_vsnprintf_scanf`: whatever the argument values, exactly the arguments the
        format takes are boxed, in order, and a Void entry follows. */
    method Vsnprintf()
      requires Valid() && at == 0 && types == [] && NUL !in format
      requires Complete(format) && RoomFor(|ArgTypes(format)|)
      modifies this`at, this`taken, this`n, this`types, entries
      ensures types == ArgTypes(format) && taken == n == |types| < entries.Length && n <= |va|
      ensures forall k | 0 <= k < n :: entries[k] == Boxed(capture, types[k], va[k])
      ensures entries[n] == Entry(Void, 0)
      ensures forall k | n < k < entries.Length :: entries[k] == old(entries[k])
    {
      hide ArgTypes, Complete, DirectiveAt, DirectiveTypes, Boxed;
      assert Ahead() == format;
      while Current() != NUL
        invariant Valid() && Complete(Ahead()) && types + ArgTypes(Ahead()) == ArgTypes(format)
        invariant forall k | n <= k < entries.Length :: entries[k] == old(entries[k])
        decreases |format| - at
      {
        if Current() != '%' {
          PlainTakesNothing(Ahead());
          Advance();
          continue;
        }
        DirectiveTakes(Ahead());
        ghost var d := DirectiveAt(Ahead()[1..]).value;
        assert types + (DirectiveTypes(d.0) + ArgTypes(d.1)) == types + DirectiveTypes(d.0) + ArgTypes(d.1);
        Advance();
        EvaluateDirective();
      }
      assert at == |format| && Ahead() == "";
      NothingTaken();
      entries[n] := Entry(Void, 0);
    }
  }

  /** tail is what is left of s, which starts with directive d, when its precision has been read. */
  ghost predicate DirectiveTail(s: string, d: Directive, tail: string)
    requires DirectiveAt(s).Some?
  {
    && d.length == LengthAt(tail) && |ShowLength(d.length)| < |tail| && d.spec == tail[|ShowLength(d.length)|]
    && DirectiveAt(s).value.1 == tail[|ShowLength(d.length)| + 1..]
  }

  /** The suffixes of a directive that its parts are read from. */
  lemma DirectiveStages(s: string, d: Directive) returns (s1: string, s2: string, s3: string)
    requires DirectiveAt(s).Some? && d == DirectiveAt(s).value.0
    ensures s1 == s[FlagRun(s)..]
    ensures d.width == FieldAt(s1) && |ShowField(d.width)| <= |s1| && s2 == s1[|ShowField(d.width)|..]
    ensures d.precision == PrecisionAt(s2) && |ShowPrecision(d.precision)| <= |s2| && s3 == s2[|ShowPrecision(d.precision)|..]
    ensures DirectiveTail(s, d, s3)
  {
    s1 := s[FlagRun(s)..];
    s2 := s1[|ShowField(FieldAt(s1))|..];
    s3 := s2[|ShowPrecision(PrecisionAt(s2))|..];
  }

  lemma PlainTakesNothing(s: string)
    requires Complete(s) && s != "" && s[0] != '%'
    ensures Complete(s[1..]) && ArgTypes(s) == ArgTypes(s[1..])
  {
    var rest := Parse(s[1..]).value;
    assert ([Plain(s[0])] + rest)[1..] == rest;
  }

  lemma DirectiveTakes(s: string)
    requires Complete(s) && s != "" && s[0] == '%'
    ensures DirectiveAt(s[1..]).Some?
    ensures var d := DirectiveAt(s[1..]).value; Complete(d.1) && ArgTypes(s) == DirectiveTypes(d.0) + ArgTypes(d.1)
  {
    var d := DirectiveAt(s[1..]).value;
    var rest := Parse(d.1).value;
    assert ([Conversion(d.0)] + rest)[1..] == rest;
  }

  lemma NothingTaken()
    ensures Complete("") && ArgTypes("") == []
  {
  }

  lemma {:induction false} NoVoidArgument(pieces: seq<Piece>)
    ensures Void !in TypesOf(pieces)
  {
    if pieces != [] {
      NoVoidArgument(pieces[1..]);
      if pieces[0].Conversion? {
        var d := pieces[0].d;
        assert Void !in FieldTypes(d.width) && Void !in PrecisionTypes(d.precision) && Void !in SpecTypes(d.length, d.spec);
      }
    }
  }

  datatype FormatStyle = PrintF | ScanF | OtherStyle

  /** `CVargEntryLength` and the counting loops: entries up to the first Void one. */
  method CountEntries(out: array<CVargEntry>, ghost count: nat) returns (p: nat)
    requires count < out.Length && out[count].typ == Void && forall k | 0 <= k < count :: out[k].typ != Void
    ensures p == count
  {
    p := 0;
    while out[p].typ != Void
      invariant p <= count
      decreases count - p
    {
      p := p + 1;
    }
  }

  /** `extract`: the number of arguments, their entries and the sentinel; what lies behind is not touched. */
  method Extract(style: FormatStyle, format: string, va: seq<int>, out: array<CVargEntry>) returns (count: int)
    requires style != OtherStyle ==> NUL !in format && Complete(format) && |ArgTypes(format)| <= |va| && |ArgTypes(format)| < out.Length
    modifies out
    ensures style == OtherStyle ==> count == -1 && out[..] == old(out[..])
    ensures style != OtherStyle ==>
              && count == |ArgTypes(format)|
              && (forall k | 0 <= k < count :: out[k] == Boxed(style == ScanF, ArgTypes(format)[k], va[k]))
              && (forall k | 0 <= k < count ::
                    out[k].value == va[k] <==> style == ScanF || ArgTypes(format)[k] != ULong || 0 <= va[k] < UINT_RANGE)
              && out[count] == Entry(Void, 0)
              && out[count + 1..] == old(out[count + 1..])
  {
    hide ArgTypes, Complete;
    match style
    case OtherStyle => count := -1;
    case _ =>
      var walk := new Extractor(format, va, style == ScanF, out);
      walk.Vsnprintf();
      NoVoidBoxed(format);
      count := CountEntries(out, |ArgTypes(format)|);
  }

  lemma NoVoidBoxed(format: string)
    requires Complete(format)
    ensures Void !in ArgTypes(format)
  {
    NoVoidArgument(Parse(format).value);
  }

  /** The format "%lu" takes one unsigned long, and 2^32 comes out of printf's box as 0, out of scanf's
      as it was. */
  lemma UnsignedLongIsCut()
    ensures Complete("%lu") && ArgTypes("%lu") == [ULong]
    ensures Boxed(false, ULong, UINT_RANGE).value == 0 && Boxed(true, ULong, UINT_RANGE).value == UINT_RANGE
  {
    var d := Directive("", Absent, None, L, 'u');
    var pieces := [Conversion(d)];
    hide Complete, ArgTypes, Show, ShowDirective, TypesOf, DirectiveTypes;
    StandardFormatTakes(pieces);
    assert Show(pieces) == "%lu" by {
      ShowMore(Conversion(d), []);
      NothingShown();
      LongUnsignedShown(d);
      assert pieces + [] == pieces && "%" + "lu" + "" == "%lu";
    }
    assert TypesOf(pieces) == [ULong] by { OneConversion(d); }
  }

  lemma NothingShown()
    ensures Show([]) == "" && TypesOf([]) == []
  {
  }

  lemma LongUnsignedShown(d: Directive)
    requires d == Directive("", Absent, None, L, 'u')
    ensures ShowDirective(d) == "lu" && DirectiveTypes(d) == [ULong]
  {
    assert "l" + ['u'] == "lu" && "" + ("" + ("" + "lu")) == "lu";
  }

  lemma OneConversion(d: Directive)
    requires d == Directive("", Absent, None, L, 'u')
    ensures TypesOf([Conversion(d)]) == [ULong]
  {
    LongUnsignedShown(d);
    assert [Conversion(d)][1..] == [];
  }

  /** Both variants take the same arguments of a format written from standard pieces: the ones its
      pieces ask for. */
  lemma StandardFormatTakes(pieces: seq<Piece>)
    requires forall p | p in pieces :: IsStandard(p)
    ensures Complete(Show(pieces)) && ArgTypes(Show(pieces)) == TypesOf(pieces)
  {
    ShownIsParsed(pieces);
  }
}
