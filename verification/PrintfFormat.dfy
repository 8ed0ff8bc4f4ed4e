/** What a printf format asks for (printf.c, mp_vsnprintf): the directives it is made of, and the
    arguments each of them takes. */
module PrintfFormat {
  import opened Wrappers

  datatype CVargType = Void | Int | UInt | Long | ULong | LongLong | ULongLong | Double | Pointer

  /** A width or precision: left out, written in digits, or taken from an argument. */
  datatype Field = Absent | Digits(ds: string) | Star

  datatype Length = NoLength | L | LL | H | HH | T | J | Z

  datatype Directive = Directive(flags: string, width: Field, precision: Option<Field>, length: Length, spec: char)

  datatype Piece = Plain(c: char) | Conversion(d: Directive)

  predicate IsFlag(c: char) { c in "0-+ #" }

  predicate IsDigit(c: char) { '0' <= c <= '9' }

  // ----- the text of a format -----

  function ShowField(f: Field): string {
    match f case Absent => "" case Digits(ds) => ds case Star => "*"
  }

  function ShowPrecision(p: Option<Field>): string {
    match p case None => "" case Some(f) => "." + ShowField(f)
  }

  function ShowLength(l: Length): string {
    match l
    case NoLength => "" case L => "l" case LL => "ll" case H => "h" case HH => "hh" case T => "t" case J => "j" case Z => "z"
  }

  function ShowDirective(d: Directive): string {
    d.flags + (ShowField(d.width) + (ShowPrecision(d.precision) + (ShowLength(d.length) + [d.spec])))
  }

  function Show(pieces: seq<Piece>): string {
    if pieces == [] then ""
    else (match pieces[0] case Plain(c) => [c] case Conversion(d) => "%" + ShowDirective(d)) + Show(pieces[1..])
  }

  // ----- the arguments a format takes -----

  /** The type of the argument that the conversion itself takes, if it takes one. An unknown specifier
      takes none. */
  function SpecTypes(length: Length, spec: char): seq<CVargType> {
    if spec in "di" then
      [if length == LL then LongLong else if length in {L, T, J, Z} then Long else Int]
    else if spec in "uxXob" then
      [if length == LL then ULongLong else if length in {L, T, J, Z} then ULong else UInt]
    else if spec in "fFeEgG" then [Double]
    else if spec == 'c' then [Int]
    else if spec in "sp" then [Pointer]
    else []
  }

  function FieldTypes(f: Field): seq<CVargType> { if f == Star then [Int] else [] }

  function PrecisionTypes(p: Option<Field>): seq<CVargType> { if p.Some? then FieldTypes(p.value) else [] }

  function DirectiveTypes(d: Directive): seq<CVargType> {
    FieldTypes(d.width) + PrecisionTypes(d.precision) + SpecTypes(d.length, d.spec)
  }

  function TypesOf(pieces: seq<Piece>): seq<CVargType> {
    if pieces == [] then []
    else (match pieces[0] case Plain(_) => [] case Conversion(d) => DirectiveTypes(d)) + TypesOf(pieces[1..])
  }

  // ----- reading a format -----

  function FlagRun(s: string): (n: nat)
    ensures n <= |s| && (forall k | 0 <= k < n :: IsFlag(s[k])) && (n < |s| ==> !IsFlag(s[n]))
  {
    if s == "" || !IsFlag(s[0]) then 0 else 1 + FlagRun(s[1..])
  }

  function DigitRun(s: string): (n: nat)
    ensures n <= |s| && (forall k | 0 <= k < n :: IsDigit(s[k])) && (n < |s| ==> !IsDigit(s[n]))
  {
    if s == "" || !IsDigit(s[0]) then 0 else 1 + DigitRun(s[1..])
  }

  function FieldAt(s: string): (f: Field)
    ensures |ShowField(f)| <= |s| && s[..|ShowField(f)|] == ShowField(f)
  {
    if s == "" then Absent
    else if IsDigit(s[0]) then Digits(s[..DigitRun(s)])
    else if s[0] == '*' then Star
    else Absent
  }

  function PrecisionAt(s: string): (p: Option<Field>)
    ensures |ShowPrecision(p)| <= |s| && s[..|ShowPrecision(p)|] == ShowPrecision(p)
  {
    if s == "" || s[0] != '.' then None
    else
      var f := FieldAt(s[1..]);
      assert s[..1 + |ShowField(f)|] == "." + s[1..][..|ShowField(f)|];
      Some(f)
  }

  function LengthAt(s: string): (l: Length)
    ensures |ShowLength(l)| <= |s| && s[..|ShowLength(l)|] == ShowLength(l)
  {
    if s == "" then NoLength
    else if s[0] == 'l' then (if |s| > 1 && s[1] == 'l' then LL else L)
    else if s[0] == 'h' then (if |s| > 1 && s[1] == 'h' then HH else H)
    else if s[0] == 't' then T
    else if s[0] == 'j' then J
    else if s[0] == 'z' then Z
    else NoLength
  }

  function Rest(s: string, n: nat): string
    requires n <= |s|
  {
    s[n..]
  }

  /** The directive at the start of s (after the percent sign) and what follows it; None when the
      string ends before its specifier. */
  function DirectiveAt(s: string): (r: Option<(Directive, string)>)
    ensures r.Some? ==> |r.value.1| < |s|
  {
    var s1 := Rest(s, FlagRun(s));
    var s2 := Rest(s1, |ShowField(FieldAt(s1))|);
    var s3 := Rest(s2, |ShowPrecision(PrecisionAt(s2))|);
    var s4 := Rest(s3, |ShowLength(LengthAt(s3))|);
    if s4 == "" then None
    else Some((Directive(s[..FlagRun(s)], FieldAt(s1), PrecisionAt(s2), LengthAt(s3), s4[0]), Rest(s4, 1)))
  }

  /** The pieces of a format; None when its last directive is cut off. */
  function Parse(s: string): Option<seq<Piece>>
    decreases |s|
  {
    if s == "" then Some([])
    else if s[0] != '%' then
      var rest := Parse(s[1..]);
      if rest.None? then None else Some([Plain(s[0])] + rest.value)
    else
      var d := DirectiveAt(s[1..]);
      if d.None? then None
      else
        var rest := Parse(d.value.1);
        if rest.None? then None else Some([Conversion(d.value.0)] + rest.value)
  }

  predicate Complete(format: string) { Parse(format).Some? }

  /** The arguments a complete format takes, in order. */
  function ArgTypes(format: string): seq<CVargType>
    requires Complete(format)
  {
    TypesOf(Parse(format).value)
  }

  lemma Cut(t: string, s: string)
    requires |t| <= |s| && s[..|t|] == t
    ensures s == t + Rest(s, |t|)
  {
  }

  lemma Join(t: string, s: string)
    ensures |t| <= |t + s| && (t + s)[..|t|] == t && Rest(t + s, |t|) == s
  {
  }

  lemma Assoc(a: string, b: string, c: string)
    ensures a + b + c == a + (b + c)
  {
  }

  lemma DirectiveText(s: string)
    requires DirectiveAt(s).Some?
    ensures s == ShowDirective(DirectiveAt(s).value.0) + DirectiveAt(s).value.1
  {
    hide ShowField, ShowPrecision, ShowLength, FieldAt, PrecisionAt, LengthAt, FlagRun, Rest;
    var s1 := Rest(s, FlagRun(s));
    var s2 := Rest(s1, |ShowField(FieldAt(s1))|);
    var s3 := Rest(s2, |ShowPrecision(PrecisionAt(s2))|);
    var s4 := Rest(s3, |ShowLength(LengthAt(s3))|);
    var s5 := Rest(s4, 1);
    var flags, width, precision, length := s[..FlagRun(s)], ShowField(FieldAt(s1)), ShowPrecision(PrecisionAt(s2)), ShowLength(LengthAt(s3));
    Cut(flags, s);
    Cut(width, s1);
    Cut(precision, s2);
    Cut(length, s3);
    Cut(s4[..1], s4);
    assert s4[..1] == [s4[0]];
    Assoc(length, [s4[0]], s5);
    Assoc(precision, length + [s4[0]], s5);
    Assoc(width, precision + (length + [s4[0]]), s5);
    Assoc(flags, width + (precision + (length + [s4[0]])), s5);
  }

  lemma ShowMore(p: Piece, pieces: seq<Piece>)
    ensures Show([p] + pieces) == (match p case Plain(c) => [c] case Conversion(d) => "%" + ShowDirective(d)) + Show(pieces)
  {
    assert ([p] + pieces)[1..] == pieces;
  }

  /** Every complete format is the text of its pieces. */
  lemma {:induction false} ParsedShowsBack(s: string)
    requires Complete(s)
    ensures Show(Parse(s).value) == s
    decreases |s|
  {
    if s != "" {
      hide Show, ShowDirective, DirectiveAt;
      var pieces := Parse(s).value;
      Cut(s[..1], s);
      assert s[..1] == [s[0]];
      if s[0] != '%' {
        ParsedShowsBack(s[1..]);
        ShowMore(Plain(s[0]), Parse(s[1..]).value);
      } else {
        DirectiveText(s[1..]);
        var d := DirectiveAt(s[1..]).value;
        ParsedShowsBack(d.1);
        ShowMore(Conversion(d.0), Parse(d.1).value);
        Assoc("%", ShowDirective(d.0), d.1);
      }
    } else {
      assert Parse(s).value == [] && Show([]) == "";
    }
  }

  // ----- formats written on purpose -----

  predicate IsNumber(ds: string) { ds != "" && (forall k | 0 <= k < |ds| :: IsDigit(ds[k])) && ds[0] != '0' }

  predicate AllFlags(s: string) { forall k | 0 <= k < |s| :: IsFlag(s[k]) }

  predicate IsSpecifier(c: char) { c in "diuxXobfFeEgGcsp%" }

  /** A directive as the C standard has it, with one of the specifiers that are supported. */
  predicate IsStandard(p: Piece) {
    match p
    case Plain(c) => c != '%'
    case Conversion(d) =>
      && AllFlags(d.flags) && IsSpecifier(d.spec)
      && (d.width.Digits? ==> IsNumber(d.width.ds))
      && (d.precision.Some? && d.precision.value.Digits? ==>
            d.precision.value.ds != "" && forall k | 0 <= k < |d.precision.value.ds| :: IsDigit(d.precision.value.ds[k]))
  }

  lemma {:induction false} FlagsRead(flags: string, s: string)
    requires AllFlags(flags) && s != "" && !IsFlag(s[0])
    ensures FlagRun(flags + s) == |flags|
  {
    if flags == "" {
      assert flags + s == s;
    } else {
      assert (flags + s)[1..] == flags[1..] + s;
      FlagsRead(flags[1..], s);
    }
  }

  lemma {:induction false} DigitsRead(ds: string, s: string)
    requires (forall k | 0 <= k < |ds| :: IsDigit(ds[k])) && s != "" && !IsDigit(s[0])
    ensures DigitRun(ds + s) == |ds|
  {
    if ds == "" {
      assert ds + s == s;
    } else {
      assert (ds + s)[1..] == ds[1..] + s;
      DigitsRead(ds[1..], s);
    }
  }

  lemma FieldRead(f: Field, s: string)
    requires f.Digits? ==> f.ds != "" && forall k | 0 <= k < |f.ds| :: IsDigit(f.ds[k])
    requires s != "" && !IsDigit(s[0]) && s[0] != '*'
    ensures FieldAt(ShowField(f) + s) == f
  {
    match f
    case Absent => assert "" + s == s;
    case Star => assert ("*" + s)[0] == '*';
    case Digits(ds) =>
      DigitsRead(ds, s);
      assert (ds + s)[..|ds|] == ds && (ds + s)[0] == ds[0];
  }

  lemma PrecisionRead(p: Option<Field>, s: string)
    requires p.Some? && p.value.Digits? ==> p.value.ds != "" && forall k | 0 <= k < |p.value.ds| :: IsDigit(p.value.ds[k])
    requires s != "" && !IsDigit(s[0]) && s[0] != '*' && s[0] != '.'
    ensures PrecisionAt(ShowPrecision(p) + s) == p
  {
    if p.None? {
      assert "" + s == s;
    } else {
      FieldRead(p.value, s);
      assert ShowPrecision(p) + s == "." + (ShowField(p.value) + s);
      assert ("." + (ShowField(p.value) + s))[1..] == ShowField(p.value) + s;
    }
  }

  lemma LengthRead(l: Length, s: string)
    requires s != "" && s[0] !in "lhtjz"
    ensures LengthAt(ShowLength(l) + s) == l
  {
    var t := ShowLength(l) + s;
    assert t[|ShowLength(l)|] == s[0];
    assert forall k | 0 <= k < |ShowLength(l)| :: t[k] == ShowLength(l)[k];
  }

  /** A standard directive is read as it was written. */
  lemma DirectiveRead(d: Directive, s: string)
    requires IsStandard(Conversion(d))
    ensures DirectiveAt(ShowDirective(d) + s) == Some((d, s))
  {
    hide ShowField, ShowPrecision, ShowLength, FieldAt, PrecisionAt, LengthAt, FlagRun, Rest;
    var s5 := [d.spec] + s;
    var s4 := ShowLength(d.length) + s5;
    var s3 := ShowPrecision(d.precision) + s4;
    var s2 := ShowField(d.width) + s3;
    Assoc(ShowLength(d.length), [d.spec], s);
    Assoc(ShowPrecision(d.precision), ShowLength(d.length) + [d.spec], s);
    Assoc(ShowField(d.width), ShowPrecision(d.precision) + (ShowLength(d.length) + [d.spec]), s);
    Assoc(d.flags, ShowField(d.width) + (ShowPrecision(d.precision) + (ShowLength(d.length) + [d.spec])), s);
    assert ShowDirective(d) + s == d.flags + s2;
    LengthStarts(d.length, s5);
    LengthRead(d.length, s5);
    PrecisionStarts(d.precision, s4);
    PrecisionRead(d.precision, s4);
    FieldRead(d.width, s3);
    FieldStarts(d.width, s3);
    FlagsRead(d.flags, s2);
    Join(d.flags, s2);
    Join(ShowField(d.width), s3);
    Join(ShowPrecision(d.precision), s4);
    Join(ShowLength(d.length), s5);
    Join([d.spec], s);
  }

  /** The first character of what a part may be followed by. */
  predicate Late(c: char) { !IsFlag(c) && !IsDigit(c) && c != '*' }

  lemma LengthStarts(l: Length, s: string)
    requires s != "" && Late(s[0]) && s[0] != '.'
    ensures var t := ShowLength(l) + s; t != "" && Late(t[0]) && t[0] != '.'
  {
  }

  lemma PrecisionStarts(p: Option<Field>, s: string)
    requires s != "" && Late(s[0])
    ensures var t := ShowPrecision(p) + s; t != "" && Late(t[0])
  {
  }

  lemma FieldStarts(f: Field, s: string)
    requires f.Digits? ==> IsNumber(f.ds)
    requires s != "" && !IsFlag(s[0])
    ensures var t := ShowField(f) + s; t != "" && !IsFlag(t[0])
  {
  }

  lemma PlainParses(c: char, rest: string)
    requires c != '%' && Parse(rest).Some?
    ensures Parse([c] + rest) == Some([Plain(c)] + Parse(rest).value)
  {
    assert ([c] + rest)[1..] == rest;
  }

  lemma ConversionParses(d: Directive, s: string, rest: string)
    requires DirectiveAt(s) == Some((d, rest)) && Parse(rest).Some?
    ensures Parse("%" + s) == Some([Conversion(d)] + Parse(rest).value)
  {
    assert ("%" + s)[1..] == s;
  }

  /** A format written from standard pieces is read as those pieces, so it takes their arguments. */
  lemma {:induction false} ShownIsParsed(pieces: seq<Piece>)
    requires forall p | p in pieces :: IsStandard(p)
    ensures Parse(Show(pieces)) == Some(pieces)
  {
    if pieces == [] {
      assert Show(pieces) == "" && Parse("") == Some([]);
    } else {
      var rest := Show(pieces[1..]);
      ShownIsParsed(pieces[1..]);
      hide Show, ShowDirective, DirectiveAt, Parse;
      assert pieces == [pieces[0]] + pieces[1..] && pieces[0] in pieces;
      ShowMore(pieces[0], pieces[1..]);
      match pieces[0]
      case Plain(c) => PlainParses(c, rest);
      case Conversion(d) =>
        DirectiveRead(d, rest);
        Assoc("%", ShowDirective(d), rest);
        ConversionParses(d, ShowDirective(d) + rest, rest);
    }
  }
}
