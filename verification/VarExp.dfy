/** The expansion of ${...} in strings (StringExtras.cpp). */
module VarExp {
  import opened Wrappers

  /** A part of a template: a run of ordinary text, flagged when it holds a dollar that is followed by
      another character, or a variable, flagged when its name must be expanded first. */
  datatype Part = Literal(text: string, dollar: bool) | Variable(name: string, nested: bool)

  predicate Opens(s: string) { |s| >= 2 && s[0] == '$' && s[1] == '{' }

  predicate HasOpening(s: string) { exists k | 0 <= k < |s| :: Opens(s[k..]) }

  // ----- the parts of a template -----

  /** How much of s it takes to close `count` open braces. Every "${" opens one, a lone '{' none. */
  function Close(s: string, count: nat): (r: Option<nat>)
    ensures r.Some? ==> r.value <= |s| && (count > 0 ==> r.value > 0 && s[r.value - 1] == '}')
  {
    if count == 0 then Some(0)
    else if s == "" then None
    else if Opens(s) then Advance(2, Close(s[2..], count + 1))
    else Advance(1, Close(s[1..], if s[0] == '}' then count - 1 else count))
  }

  function Advance(n: nat, r: Option<nat>): Option<nat> {
    if r.Some? then Some(n + r.value) else None
  }

  /** Ordinary text in front of parts joins a literal that follows. */
  function Prepend(text: string, dollar: bool, parts: seq<Part>): seq<Part> {
    if text == "" then parts
    else if parts != [] && parts[0].Literal? then [Literal(text + parts[0].text, dollar || parts[0].dollar)] + parts[1..]
    else [Literal(text, dollar)] + parts
  }

  /** The parts of s, or None when a "${" is never closed. A dollar takes the next character with it,
      so the second dollar of "$$" opens nothing. */
  function Parts(s: string): (r: Option<seq<Part>>)
    ensures r.Some? ==> forall p | p in r.value :: p.Variable? ==> |p.name| < |s|
  {
    if s == "" then Some([])
    else if Opens(s) then
      var close := Close(s[2..], 1);
      if close.None? then None else
      var name, rest := s[2..][..close.value - 1], Parts(s[2..][close.value..]);
      if rest.None? then None else Some([Variable(name, HasOpening(name))] + rest.value)
    else
      var n := TextStep(s);
      var rest := Parts(s[n..]);
      if rest.None? then None else Some(Prepend(s[..n], n == 2, rest.value))
  }

  /** A dollar takes the next character with it. */
  function TextStep(s: string): (n: nat)
    requires s != "" && !Opens(s)
    ensures 1 <= n <= |s|
  {
    if s[0] == '$' && |s| >= 2 then 2 else 1
  }

  lemma TextSplits(s: string, rest: string)
    requires s != "" && !Opens(s) && rest == s[TextStep(s)..]
    ensures Parts(s).Some? <==> Parts(rest).Some?
    ensures Parts(rest).Some? ==> Parts(s).value == Prepend(s[..TextStep(s)], TextStep(s) == 2, Parts(rest).value)
  {
  }

  lemma VariableSplits(s: string, name: string, rest: string)
    requires Opens(s) && Close(s[2..], 1).Some?
    requires name == s[2..][..Close(s[2..], 1).value - 1] && rest == s[2..][Close(s[2..], 1).value..]
    ensures Parts(s).Some? <==> Parts(rest).Some?
    ensures Parts(rest).Some? ==> Parts(s).value == [Variable(name, HasOpening(name))] + Parts(rest).value
  {
  }

  /** The template the parts were split from. */
  function Rejoin(parts: seq<Part>): string {
    if parts == [] then ""
    else (match parts[0] case Literal(text, _) => text case Variable(name, _) => "${" + name + "}") + Rejoin(parts[1..])
  }

  /** Splitting loses nothing. */
  lemma {:induction false} SplitIsLossless(s: string)
    requires Parts(s).Some?
    ensures Rejoin(Parts(s).value) == s
  {
    if s == "" {
    } else if Opens(s) {
      hide Parts, Rejoin, Close;
      var k := Unclosed(s);
      var name, rest := s[2..][..k - 1], s[2..][k..];
      VariableSplits(s, name, rest);
      SplitIsLossless(rest);
      RejoinVariable(name, HasOpening(name), Parts(rest).value);
      OpeningText(s, k);
    } else {
      hide Parts, Rejoin, Prepend;
      var n := TextStep(s);
      TextSplits(s, s[n..]);
      SplitIsLossless(s[n..]);
      RejoinPrepend(s[..n], n == 2, Parts(s[n..]).value);
      assert s == s[..n] + s[n..];
    }
  }

  lemma OpeningText(s: string, k: nat)
    requires Opens(s) && 0 < k <= |s| - 2 && s[2..][k - 1] == '}'
    ensures s == "${" + s[2..][..k - 1] + "}" + s[2..][k..]
  {
    assert s[..2] == "${" && s == s[..2] + s[2..];
    assert s[2..] == s[2..][..k - 1] + "}" + s[2..][k..];
  }

  /** A "${" without its brace fails the split; otherwise this is where the brace is. */
  lemma Unclosed(s: string) returns (k: nat)
    requires Opens(s)
    ensures Close(s[2..], 1).None? ==> Parts(s).None?
    ensures Close(s[2..], 1).Some? ==> k == Close(s[2..], 1).value && 0 < k <= |s| - 2 && s[2..][k - 1] == '}'
  {
    k := if Close(s[2..], 1).Some? then Close(s[2..], 1).value else 0;
  }

  lemma RejoinVariable(name: string, nested: bool, parts: seq<Part>)
    ensures Rejoin([Variable(name, nested)] + parts) == "${" + name + "}" + Rejoin(parts)
  {
    assert ([Variable(name, nested)] + parts)[1..] == parts;
  }

  lemma RejoinPrepend(text: string, dollar: bool, parts: seq<Part>)
    ensures Rejoin(Prepend(text, dollar, parts)) == text + Rejoin(parts)
  {
    if text != "" && parts != [] && parts[0].Literal? {
      assert Prepend(text, dollar, parts)[1..] == parts[1..];
    }
  }

  // ----- expansion -----

  /** `varexp_post`: "$$" becomes "$". */
  function Post(s: string): string {
    if s == "" then ""
    else if |s| >= 2 && s[0] == '$' && s[1] == '$' then "$" + Post(s[2..])
    else [s[0]] + Post(s[1..])
  }

  /** The parts written out, variables looked up. */
  function Flat(parts: seq<Part>, find: string -> string, ghost bound: nat): string
    requires forall p | p in parts :: p.Variable? ==> |p.name| < bound
    decreases bound, |parts|
  {
    if parts == [] then ""
    else
      (match parts[0]
       case Literal(text, _) => text
       case Variable(name, nested) => assert parts[0] in parts; find(if nested then Expand(name, find) else name))
      + Flat(parts[1..], find, bound)
  }

  /** `varexp`: a nested name is shorter than the string it stands in, so this ends. */
  function Expand(s: string, find: string -> string): string
    decreases |s|
  {
    if Parts(s).None? then "" else Post(Flat(Parts(s).value, find, |s|))
  }

  /** The expansion depends on the lookup only through the values it gives. */
  lemma {:induction false} SameLookup(s: string, f: string -> string, g: string -> string)
    requires forall n :: f(n) == g(n)
    ensures Expand(s, f) == Expand(s, g)
    decreases |s|, 1
  {
    if Parts(s).Some? { SameFlat(Parts(s).value, f, g, |s|); }
  }

  lemma {:induction false} SameFlat(parts: seq<Part>, f: string -> string, g: string -> string, bound: nat)
    requires (forall n :: f(n) == g(n)) && forall p | p in parts :: p.Variable? ==> |p.name| < bound
    ensures Flat(parts, f, bound) == Flat(parts, g, bound)
    decreases bound, 0, |parts|
  {
    if parts != [] {
      hide Parts, Post, Expand;
      var p := parts[0];
      assert p in parts;
      if p.Variable? { SameLookup(p.name, f, g); }
      SameFlat(parts[1..], f, g, bound);
    }
  }

  // ----- nested names -----

  /** A scan that closes `few + more` braces has closed `few` of them before. */
  lemma {:induction false} ClosedBefore(s: string, few: nat, more: nat)
    requires more > 0 && Close(s, few + more).Some?
    ensures Close(s, few).Some? && Close(s, few).value < Close(s, few + more).value
    decreases |s|
  {
    if few > 0 {
      if Opens(s) {
        ClosedBefore(s[2..], few + 1, more);
      } else {
        ClosedBefore(s[1..], if s[0] == '}' then few - 1 else few, more);
      }
    }
  }

  /** A scan does not look past the brace it ends with. */
  lemma {:induction false} ScanIsLocal(s: string, count: nat, m: nat)
    requires Close(s, count).Some? && Close(s, count).value <= m <= |s|
    ensures Close(s[..m], count) == Close(s, count)
    decreases |s|
  {
    if count > 0 {
      var t := s[..m];
      if Opens(s) {
        ScanIsLocal(s[2..], count + 1, m - 2);
        assert t[2..] == s[2..][..m - 2];
      } else {
        ScanIsLocal(s[1..], if s[0] == '}' then count - 1 else count, m - 1);
        assert t[1..] == s[1..][..m - 1];
      }
    }
  }

  /** What stands before the closing brace of a scan splits, from any position on. */
  lemma {:induction false} SplitsWithin(s: string, count: nat, m: nat, i: nat)
    requires count > 0 && Close(s, count) == Some(m) && i < m
    ensures Parts(s[..m - 1][i..]).Some?
    decreases m - i, i
  {
    hide Parts;
    var t := s[..m - 1];
    if i == |t| {
      NothingSplits();
      assert t[i..] == "";
    } else if i > 0 {
      hide Close;
      CloseSteps(s, count);
      var n := if Opens(s) then 2 else 1;
      var next := if Opens(s) then count + 1 else if s[0] == '}' then count - 1 else count;
      if i < n {
        SplitsWithin(s, count, m, 2);
        TextSplits(t[1..], t[2..]);
      } else {
        SplitsWithin(s[n..], next, m - n, i - n);
        assert t[i..] == s[n..][..m - n - 1][i - n..];
      }
    } else {
      assert t[0..] == t;
      if Opens(t) {
        OpeningWithin(s, count, m);
        var k := Close(t[2..], 1).value;
        SplitsWithin(s, count, m, 2 + k);
        VariableSplits(t, t[2..][..k - 1], t[2 + k..]);
      } else {
        SplitsWithin(s, count, m, TextStep(t));
        TextSplits(t, t[TextStep(t)..]);
      }
    }
  }

  lemma NothingSplits()
    ensures Parts("") == Some([])
  {
  }

  lemma CloseSteps(s: string, count: nat)
    requires count > 0 && Close(s, count).Some?
    ensures s != ""
    ensures Opens(s) ==> Close(s, count) == Advance(2, Close(s[2..], count + 1))
    ensures !Opens(s) ==> Close(s, count) == Advance(1, Close(s[1..], if s[0] == '}' then count - 1 else count))
    ensures !Opens(s) && s[0] == '}' && count == 1 ==> Close(s, count) == Some(1)
  {
  }

  lemma OpeningWithin(s: string, count: nat, m: nat)
    requires count > 0 && Close(s, count) == Some(m) && Opens(s[..m - 1])
    ensures var t := s[..m - 1]; Close(t[2..], 1).Some? && 2 + Close(t[2..], 1).value <= |t|
  {
    var t := s[..m - 1];
    ClosedBefore(s[2..], 1, count);
    ScanIsLocal(s[2..], 1, m - 3);
    assert t[2..] == s[2..][..m - 3];
  }

  /** Only the outermost template can be unbalanced: every name in a template that splits, splits. */
  lemma {:induction false} NamesSplit(s: string, p: Part)
    requires Parts(s).Some? && p in Parts(s).value && p.Variable?
    ensures Parts(p.name).Some?
    decreases |s|
  {
    if Opens(s) {
      var tail := s[2..];
      var m := Close(tail, 1).value;
      var v := Variable(tail[..m - 1], HasOpening(tail[..m - 1]));
      assert Parts(s).value == [v] + Parts(tail[m..]).value;
      if p == v {
        SplitsWithin(tail, 1, m, 0);
        assert p.name == tail[..m - 1][0..];
      } else {
        NamesSplit(tail[m..], p);
      }
    } else {
      var n := TextStep(s);
      PrependKeeps(s[..n], n == 2, Parts(s[n..]).value, p);
      NamesSplit(s[n..], p);
    }
  }

  lemma PrependKeeps(text: string, dollar: bool, parts: seq<Part>, p: Part)
    requires p.Variable? && p in Prepend(text, dollar, parts)
    ensures p in parts
  {
  }

  // ----- escaping -----

  /** Every dollar doubled. */
  function Double(s: string): string {
    if s == "" then "" else (if s[0] == '$' then "$$" else [s[0]]) + Double(s[1..])
  }

  /** Escaped text, text with lone dollars as it stands, a variable looked up by a name as it is written,
      or by a name that is a template itself. */
  datatype Piece = Text(t: string) | Lone(u: string) | Var(name: string) | Nested(pieces: seq<Piece>)

  /** Every dollar is followed by a character that is neither a dollar nor an opening brace, or stands at
      the very end of the template. */
  predicate IsLone(u: string, last: bool) {
    && (forall k | 0 <= k < |u| - 1 && u[k] == '$' :: u[k + 1] != '$' && u[k + 1] != '{')
    && (u != "" && u[|u| - 1] == '$' ==> last)
  }

  /** A name that is looked up as it is written. */
  predicate IsSimple(name: string) { '}' !in name && !HasOpening(name) }

  /** The braces of a name balance, so that the one behind it closes the variable. */
  predicate Balanced(name: string) { Close(name + "}", 1) == Some(|name| + 1) }

  /** A template that stands for the pieces. */
  function Render(pieces: seq<Piece>): string {
    if pieces == [] then ""
    else
      (match pieces[0]
       case Text(t) => Double(t)
       case Lone(u) => u
       case Var(name) => "${" + name + "}"
       case Nested(name) => "${" + Render(name) + "}")
      + Render(pieces[1..])
  }

  /** What the pieces mean, names that are templates included. */
  function Meaning(pieces: seq<Piece>, find: string -> string): string {
    if pieces == [] then ""
    else
      (match pieces[0]
       case Text(t) => t
       case Lone(u) => u
       case Var(name) => find(name)
       case Nested(name) => find(Meaning(name, find)))
      + Meaning(pieces[1..], find)
  }

  /** What the expansion finds for a piece: its text, or the value of the variable. */
  function Value(p: Piece, find: string -> string): string {
    match p
    case Text(t) => t
    case Lone(u) => u
    case Var(name) => find(name)
    case Nested(name) => find(Expand(Render(name), find))
  }

  /** The text and the values that the expansion finds. */
  function Found(pieces: seq<Piece>, find: string -> string): string {
    if pieces == [] then ""
    else Value(pieces[0], find) + Found(pieces[1..], find)
  }

  /** What a template may name: simple names as they are, and balanced templates that hold an opening. */
  predicate WellNamed(pieces: seq<Piece>) {
    pieces == []
    || (&& (match pieces[0]
            case Text(_) => true
            case Lone(u) => IsLone(u, |pieces| == 1)
            case Var(name) => IsSimple(name)
            case Nested(name) => HasOpening(Render(name)) && Balanced(Render(name)) && WellNamed(name))
        && WellNamed(pieces[1..]))
  }

  /** Escaped text never opens anything. */
  lemma {:induction false} DoubledSplits(t: string, rest: string, find: string -> string, bound: nat)
    requires Parts(rest).Some? && |rest| <= bound
    ensures var whole := Parts(Double(t) + rest);
            && whole.Some? && (forall p | p in whole.value :: p.Variable? ==> |p.name| < bound)
            && Flat(whole.value, find, bound) == Double(t) + Flat(Parts(rest).value, find, bound)
  {
    hide Parts, Flat, Prepend;
    if t == "" {
      assert Double(t) + rest == rest;
    } else {
      var u := Double(t[1..]) + rest;
      DoubledSplits(t[1..], rest, find, bound);
      DoubledHead(t, rest);
      var v := Double(t) + rest;
      TextSplits(v, u);
      FlatPrepend(v[..TextStep(v)], TextStep(v) == 2, Parts(u).value, find, bound);
      assert v[..TextStep(v)] + Double(t[1..]) == Double(t);
    }
  }

  lemma DoubledHead(t: string, rest: string)
    requires t != ""
    ensures var v := Double(t) + rest;
            v != "" && !Opens(v) && v[TextStep(v)..] == Double(t[1..]) + rest && v[..TextStep(v)] + Double(t[1..]) == Double(t)
  {
    var head, tail := DoubleStep(t);
    Assoc(head, tail, rest);
    HeadSteps(head, tail + rest);
  }

  lemma HeadSteps(head: string, w: string)
    requires head == "$$" || (|head| == 1 && head[0] != '$')
    ensures var v := head + w; v != "" && !Opens(v) && v[TextStep(v)..] == w && v[..TextStep(v)] == head
  {
    var v := head + w;
    assert v[0] == head[0] && (|head| == 2 ==> v[1] == head[1]);
    assert v[..|head|] == head && v[|head|..] == w;
  }

  lemma FlatPrepend(text: string, dollar: bool, parts: seq<Part>, find: string -> string, bound: nat)
    requires forall p | p in parts :: p.Variable? ==> |p.name| < bound
    ensures forall p | p in Prepend(text, dollar, parts) :: p.Variable? ==> |p.name| < bound
    ensures Flat(Prepend(text, dollar, parts), find, bound) == text + Flat(parts, find, bound)
  {
    if text != "" && parts != [] && parts[0].Literal? {
      assert Prepend(text, dollar, parts)[1..] == parts[1..];
    }
  }

  lemma {:induction false} SimpleCloses(name: string, rest: string)
    requires IsSimple(name)
    ensures Close(name + "}" + rest, 1) == Some(|name| + 1)
  {
    var s := name + "}" + rest;
    if name != "" {
      assert !Opens(name[0..]) && name[0..] == name;
      assert !Opens(s);
      assert forall k | 0 <= k < |name[1..]| :: name[1..][k..] == name[k + 1..];
      SimpleCloses(name[1..], rest);
      assert s[1..] == name[1..] + "}" + rest;
    }
  }

  lemma SimpleIsBalanced(name: string)
    requires IsSimple(name)
    ensures Balanced(name)
  {
    SimpleCloses(name, "");
    assert name + "}" + "" == name + "}";
  }

  /** A scan that has found its brace does not depend on what follows. */
  lemma {:induction false} ScanExtends(s: string, count: nat, rest: string)
    requires Close(s, count).Some?
    ensures Close(s + rest, count) == Close(s, count)
    decreases |s|
  {
    if count > 0 {
      CloseSteps(s, count);
      var n := if Opens(s) then 2 else 1;
      ScanExtends(s[n..], if Opens(s) then count + 1 else if s[0] == '}' then count - 1 else count, rest);
      assert (s + rest)[n..] == s[n..] + rest;
      assert |s| >= 2 ==> (Opens(s + rest) <==> Opens(s));
      if |s| == 1 { assert s[1..] == ""; }
    }
  }

  lemma NameSplits(name: string, rest: string, find: string -> string, bound: nat)
    requires Balanced(name) && Parts(rest).Some? && |name| + 3 + |rest| <= bound
    ensures var whole := Parts("${" + name + "}" + rest);
            && whole.Some? && (forall p | p in whole.value :: p.Variable? ==> |p.name| < bound)
            && Flat(whole.value, find, bound)
               == find(if HasOpening(name) then Expand(name, find) else name) + Flat(Parts(rest).value, find, bound)
  {
    hide Parts, Flat, Close, HasOpening, Expand;
    var s := "${" + name + "}" + rest;
    ScanExtends(name + "}", 1, rest);
    assert s[2..] == (name + "}") + rest && s[2..][..|name|] == name && s[2..][|name| + 1..] == rest;
    VariableSplits(s, name, rest);
    FlatVariable(name, HasOpening(name), Parts(rest).value, find, bound);
  }

  lemma FlatVariable(name: string, nested: bool, parts: seq<Part>, find: string -> string, bound: nat)
    requires |name| < bound && forall p | p in parts :: p.Variable? ==> |p.name| < bound
    ensures Flat([Variable(name, nested)] + parts, find, bound)
            == find(if nested then Expand(name, find) else name) + Flat(parts, find, bound)
  {
    assert ([Variable(name, nested)] + parts)[1..] == parts;
  }

  // ----- which dollars survive -----

  /** A character of the meaning, and whether its dollar is written once: in a value, or alone in the
      text. */
  datatype Mark = Mark(c: char, value: bool)

  function MarkAll(s: string, value: bool): (r: seq<Mark>)
    ensures |r| == |s|
  {
    if s == "" then [] else [Mark(s[0], value)] + MarkAll(s[1..], value)
  }

  function Marks(pieces: seq<Piece>, find: string -> string): seq<Mark> {
    if pieces == [] then []
    else MarkAll(Value(pieces[0], find), !pieces[0].Text?) + Marks(pieces[1..], find)
  }

  /** What `varexp_post` is given: the dollars of the text are doubled, those of the values are not. */
  function Write(marks: seq<Mark>): string {
    if marks == [] then ""
    else (if marks[0].c == '$' && !marks[0].value then "$$" else [marks[0].c]) + Write(marks[1..])
  }

  function Plain(marks: seq<Mark>): (r: string)
    ensures |r| == |marks|
  {
    if marks == [] then "" else [marks[0].c] + Plain(marks[1..])
  }

  /** At most one dollar of each unbroken run of dollars comes from a value; `had` tells whether the
      run that the marks continue has had its one. */
  predicate OnePerRun(marks: seq<Mark>, had: bool) {
    marks == []
    || (if marks[0].c != '$' then OnePerRun(marks[1..], false)
        else if !marks[0].value then OnePerRun(marks[1..], had)
        else !had && OnePerRun(marks[1..], true))
  }

  lemma {:induction false} WriteText(t: string)
    ensures Write(MarkAll(t, false)) == Double(t)
  {
    if t != "" {
      assert MarkAll(t, false)[1..] == MarkAll(t[1..], false);
      WriteText(t[1..]);
    }
  }

  lemma {:induction false} WriteValue(v: string)
    ensures Write(MarkAll(v, true)) == v
  {
    if v != "" {
      assert MarkAll(v, true)[1..] == MarkAll(v[1..], true);
      WriteValue(v[1..]);
    }
  }

  lemma {:induction false} WriteJoins(a: seq<Mark>, b: seq<Mark>)
    ensures Write(a + b) == Write(a) + Write(b) && Plain(a + b) == Plain(a) + Plain(b)
  {
    if a == [] {
      assert a + b == b;
    } else {
      assert (a + b)[1..] == a[1..] + b && (a + b)[0] == a[0];
      WriteJoins(a[1..], b);
      Assoc(if a[0].c == '$' && !a[0].value then "$$" else [a[0].c], Write(a[1..]), Write(b));
      Assoc([a[0].c], Plain(a[1..]), Plain(b));
    }
  }

  lemma {:induction false} PlainOfAll(s: string, value: bool)
    ensures Plain(MarkAll(s, value)) == s
  {
    if s != "" {
      assert MarkAll(s, value)[1..] == MarkAll(s[1..], value);
      PlainOfAll(s[1..], value);
    }
  }

  lemma {:induction false} PlainIsFound(pieces: seq<Piece>, find: string -> string)
    ensures Plain(Marks(pieces, find)) == Found(pieces, find)
  {
    if pieces != [] {
      hide Value, Plain;
      PlainIsFound(pieces[1..], find);
      var text, value := Value(pieces[0], find), !pieces[0].Text?;
      WriteJoins(MarkAll(text, value), Marks(pieces[1..], find));
      PlainOfAll(text, value);
    } else {
      WriteNothing();
    }
  }

  /** A string after a dollar that is still alone, or after nothing. */
  function Lead(had: bool, w: string): string { if had then "$" + w else w }

  lemma PostOther(had: bool, c: char, w: string)
    requires c != '$'
    ensures Post(Lead(had, [c] + w)) == Lead(had, [c] + Post(w))
  {
    hide Post;
    PostOne(c, w);
    PostOne('$', [c] + w);
  }

  lemma PostText(had: bool, w: string)
    ensures Post(Lead(had, "$$" + w)) == "$" + Post(Lead(had, w))
  {
    hide Post;
    PostPair(Lead(had, w));
    assert "$" + ("$$" + w) == "$$" + ("$" + w);
  }

  lemma PostValue(w: string)
    ensures Post(Lead(true, "$" + w)) == "$" + Post(w)
  {
    hide Post;
    PostPair(w);
    assert "$" + ("$" + w) == "$$" + w;
  }

  lemma PostLead(had: bool)
    ensures Post(Lead(had, "")) == Lead(had, "")
  {
    assert "$" + "" == "$";
  }

  lemma WriteStep(marks: seq<Mark>)
    requires marks != []
    ensures Write(marks) == (if marks[0].c == '$' && !marks[0].value then "$$" else [marks[0].c]) + Write(marks[1..])
    ensures Plain(marks) == [marks[0].c] + Plain(marks[1..])
  {
  }

  /** Collapsing never leaves more than was meant. */
  lemma {:induction false} PostIsShort(marks: seq<Mark>, had: bool)
    ensures |Post(Lead(had, Write(marks)))| <= |marks| + if had then 1 else 0
    decreases |marks|
  {
    hide Post, Write, Plain;
    if marks == [] {
      assert Write(marks) == "" by { WriteNothing(); }
      PostLead(had);
    } else {
      WriteStep(marks);
      var m, w := marks[0], Write(marks[1..]);
      if m.c != '$' {
        PostOther(had, m.c, w);
        PostIsShort(marks[1..], false);
      } else if !m.value {
        PostText(had, w);
        PostIsShort(marks[1..], had);
      } else if had {
        PostValue(w);
        PostIsShort(marks[1..], false);
      } else {
        PostIsShort(marks[1..], true);
      }
    }
  }

  lemma WriteNothing()
    ensures Write([]) == "" == Plain([])
  {
  }

  /** Collapsing gives back what was meant exactly when no run of dollars has two from values. */
  lemma {:induction false} PostExact(marks: seq<Mark>, had: bool)
    ensures Post(Lead(had, Write(marks))) == Lead(had, Plain(marks)) <==> OnePerRun(marks, had)
    decreases |marks|
  {
    hide Post, Write, Plain;
    if marks == [] {
      WriteNothing();
      PostLead(had);
    } else {
      WriteStep(marks);
      var m, w, p := marks[0], Write(marks[1..]), Plain(marks[1..]);
      if m.c != '$' {
        PostOther(had, m.c, w);
        PostExact(marks[1..], false);
        CancelOther(had, m.c, Post(w), p);
      } else if !m.value {
        PostText(had, w);
        PostExact(marks[1..], had);
        CancelText(had, Post(Lead(had, w)), p);
      } else if had {
        PostValue(w);
        PostIsShort(marks[1..], false);
        assert |Lead(true, "$" + p)| == 2 + |p|;
      } else {
        PostExact(marks[1..], true);
      }
    }
  }

  lemma CancelOther(had: bool, c: char, a: string, b: string)
    ensures Lead(had, [c] + a) == Lead(had, [c] + b) <==> a == b
  {
    Cancel([c], a, b);
    Cancel("$", [c] + a, [c] + b);
  }

  lemma CancelText(had: bool, a: string, p: string)
    ensures "$" + a == Lead(had, "$" + p) <==> a == Lead(had, p)
  {
    Cancel("$", a, Lead(had, p));
  }

  lemma Cancel(a: string, b: string, c: string)
    ensures a + b == a + c <==> b == c
  {
    if a + b == a + c {
      assert b == (a + b)[|a|..] == (a + c)[|a|..] == c;
    }
  }

  /** A rendered template splits, and its parts write out the pieces with their text still escaped. */
  lemma {:induction false} RenderedFlat(pieces: seq<Piece>, find: string -> string, bound: nat)
    requires WellNamed(pieces) && |Render(pieces)| <= bound
    ensures var whole := Parts(Render(pieces));
            && whole.Some? && (forall p | p in whole.value :: p.Variable? ==> |p.name| < bound)
            && Flat(whole.value, find, bound) == Write(Marks(pieces, find))
  {
    hide Parts, Flat, Expand, Close, HasOpening, Balanced, IsSimple, Double, Write, MarkAll;
    if pieces == [] {
      NothingSplits();
      FlatNothing(find, bound);
      WriteNothing();
    } else {
      var p, rest := pieces[0], Render(pieces[1..]);
      RenderedFlat(pieces[1..], find, bound);
      match p
      case Lone(u) =>
        LoneSplits(u, rest, find, bound);
        ValueWritten(pieces, find);
      case Text(t) => DoubledSplits(t, rest, find, bound); WriteText(t); WriteJoins(MarkAll(t, false), Marks(pieces[1..], find));
      case Var(name) =>
        SimpleIsBalanced(name);
        SimpleOpensNothing(name);
        NameSplits(name, rest, find, bound);
        ValueWritten(pieces, find);
      case Nested(name) =>
        NameSplits(Render(name), rest, find, bound);
        ValueWritten(pieces, find);
    }
  }

  /** Text with lone dollars stands for itself. */
  lemma {:induction false} LoneSplits(u: string, rest: string, find: string -> string, bound: nat)
    requires IsLone(u, rest == "") && Parts(rest).Some? && |rest| <= bound
    ensures var whole := Parts(u + rest);
            && whole.Some? && (forall p | p in whole.value :: p.Variable? ==> |p.name| < bound)
            && Flat(whole.value, find, bound) == u + Flat(Parts(rest).value, find, bound)
    decreases |u|
  {
    hide Parts, Flat, Prepend;
    if u == "" {
      assert u + rest == rest;
    } else {
      var n := if u[0] == '$' && |u| >= 2 then 2 else 1;
      LoneHead(u, rest, n);
      LoneSplits(u[n..], rest, find, bound);
      TextSplits(u + rest, u[n..] + rest);
      FlatPrepend(u[..n], n == 2, Parts(u[n..] + rest).value, find, bound);
      Assoc(u[..n], u[n..], Flat(Parts(rest).value, find, bound));
    }
  }

  lemma LoneHead(u: string, rest: string, n: nat)
    requires u != "" && IsLone(u, rest == "") && n == if u[0] == '$' && |u| >= 2 then 2 else 1
    ensures var v := u + rest;
            !Opens(v) && TextStep(v) == n && v[..n] == u[..n] && v[n..] == u[n..] + rest && u[..n] + u[n..] == u
    ensures IsLone(u[n..], rest == "")
  {
    LoneStep(u, rest, n);
    LoneTail(u, n, rest == "");
    assert u[..n] + u[n..] == u;
    assert (u + rest)[..n] == u[..n] && (u + rest)[n..] == u[n..] + rest;
  }

  lemma LoneStep(u: string, rest: string, n: nat)
    requires u != "" && IsLone(u, rest == "") && n == if u[0] == '$' && |u| >= 2 then 2 else 1
    ensures !Opens(u + rest) && TextStep(u + rest) == n
  {
    var v := u + rest;
    assert v[0] == u[0] && (|u| >= 2 ==> v[1] == u[1]);
    if u[0] == '$' && |u| == 1 { assert v == u; }
  }

  lemma LoneTail(u: string, n: nat, last: bool)
    requires n <= |u| && IsLone(u, last)
    ensures IsLone(u[n..], last)
  {
    assert forall k | 0 <= k < |u[n..]| :: u[n..][k] == u[n + k];
  }

  lemma SimpleOpensNothing(name: string)
    requires IsSimple(name)
    ensures !HasOpening(name)
  {
  }

  lemma ValueWritten(pieces: seq<Piece>, find: string -> string)
    requires pieces != [] && !pieces[0].Text?
    ensures Write(Marks(pieces, find)) == Value(pieces[0], find) + Write(Marks(pieces[1..], find))
  {
    hide Value, Write;
    WriteValue(Value(pieces[0], find));
    WriteJoins(MarkAll(Value(pieces[0], find), true), Marks(pieces[1..], find));
  }

  lemma FlatNothing(find: string -> string, bound: nat)
    ensures Flat([], find, bound) == ""
  {
  }

  lemma PostPair(rest: string)
    ensures Post("$$" + rest) == "$" + Post(rest)
  {
    assert ("$$" + rest)[2..] == rest;
  }

  lemma PostOne(c: char, rest: string)
    requires c == '$' ==> rest == "" || rest[0] != '$'
    ensures Post([c] + rest) == [c] + Post(rest)
  {
    assert ([c] + rest)[1..] == rest;
  }

  lemma {:induction false} PostOfDouble(t: string, rest: string)
    ensures Post(Double(t) + rest) == t + Post(rest)
  {
    hide Post;
    if t == "" {
      assert Double(t) + rest == rest;
    } else {
      hide Double;
      var head, tail := DoubleStep(t);
      PostOfDouble(t[1..], rest);
      Assoc(head, tail, rest);
      Assoc([t[0]], t[1..], Post(rest));
      if t[0] == '$' {
        PostPair(tail + rest);
      } else {
        PostOne(t[0], tail + rest);
      }
    }
  }

  lemma DoubleStep(t: string) returns (head: string, tail: string)
    requires t != ""
    ensures head == (if t[0] == '$' then "$$" else [t[0]]) && tail == Double(t[1..]) && Double(t) == head + tail
    ensures [t[0]] + t[1..] == t
  {
    head, tail := if t[0] == '$' then "$$" else [t[0]], Double(t[1..]);
  }

  lemma Assoc(a: string, b: string, c: string)
    ensures a + b + c == a + (b + c)
  {
  }

  /** Any text, its dollars doubled, expands to itself, whatever the lookup does. */
  lemma DoublingEscapes(t: string, find: string -> string)
    ensures Expand(Double(t), find) == t
  {
    NothingSplits();
    DoubledSplits(t, "", find, |Double(t)|);
    assert Double(t) + "" == Double(t);
    FlatNothing(find, |Double(t)|);
    PostOfDouble(t, "");
  }

  /** Text without a dollar stays as it is. */
  lemma PlainTextExpands(t: string, find: string -> string)
    requires '$' !in t
    ensures Expand(t, find) == t
  {
    NothingDoubled(t);
    DoublingEscapes(t, find);
  }

  lemma {:induction false} NothingDoubled(t: string)
    requires '$' !in t
    ensures Double(t) == t
  {
    if t != "" {
      NothingDoubled(t[1..]);
    }
  }

  /** A template, lone dollars and nested names included, expands to its text and the values found if and
      only if no unbroken run of dollars holds two that are written once: `varexp_post` runs over the
      values too. */
  lemma TemplatesExpand(pieces: seq<Piece>, find: string -> string)
    requires WellNamed(pieces)
    ensures Expand(Render(pieces), find) == Found(pieces, find) <==> OnePerRun(Marks(pieces, find), false)
  {
    hide Flat, Parts, Render, Marks, Found, Write, Plain, WellNamed, OnePerRun;
    RenderedFlat(pieces, find, |Render(pieces)|);
    PlainIsFound(pieces, find);
    PostExact(Marks(pieces, find), false);
  }

  /** No name, at any depth, has a run of dollars with two from values. */
  predicate CleanNames(pieces: seq<Piece>, find: string -> string) {
    forall p | p in pieces && p.Nested? :: CleanNames(p.pieces, find) && OnePerRun(Marks(p.pieces, find), false)
  }

  /** Then every name is looked up as it is meant, at any depth. */
  lemma {:induction false} NamesAreMeant(pieces: seq<Piece>, find: string -> string)
    requires WellNamed(pieces) && CleanNames(pieces, find)
    ensures Found(pieces, find) == Meaning(pieces, find)
  {
    if pieces != [] {
      hide Expand, Render, Marks, OnePerRun, HasOpening, Balanced, IsSimple;
      var p := pieces[0];
      assert p in pieces && forall q | q in pieces[1..] :: q in pieces;
      NamesAreMeant(pieces[1..], find);
      if p.Nested? {
        NamesAreMeant(p.pieces, find);
        TemplatesExpand(p.pieces, find);
      }
    }
  }

  /** And the template expands to what it means, under the same condition on its own dollars. */
  lemma NestedTemplatesExpand(pieces: seq<Piece>, find: string -> string)
    requires WellNamed(pieces) && CleanNames(pieces, find)
    ensures Expand(Render(pieces), find) == Meaning(pieces, find) <==> OnePerRun(Marks(pieces, find), false)
  {
    hide *;
    NamesAreMeant(pieces, find);
    TemplatesExpand(pieces, find);
  }

  // ----- every template -----

  /** Every string that splits is a template of such pieces. */
  lemma {:induction false} EveryTemplate(s: string) returns (pieces: seq<Piece>)
    requires Parts(s).Some?
    ensures WellNamed(pieces) && Render(pieces) == s && (pieces == [] <==> s == "")
    decreases |s|
  {
    hide Parts, Close, HasOpening, Balanced, IsSimple, Opens, Render, WellNamed, Double, IsLone;
    NothingRendered();
    if s == "" {
      pieces := [];
    } else if Opens(s) {
      var k := Unclosed(s);
      var name, rest := s[2..][..k - 1], s[2..][k..];
      var p := NamePiece(s, k, name);
      NameSplitsToo(s, name, rest);
      if HasOpening(name) {
        var inner := EveryTemplate(name);
        p := Nested(inner);
      }
      var more := EveryTemplate(rest);
      pieces := [p] + more;
      OneMorePiece(p, more);
      OpeningText(s, k);
    } else {
      var n := TextStep(s);
      TextSplits(s, s[n..]);
      var more := EveryTemplate(s[n..]);
      var p := TextPiece(s, n);
      pieces := [p] + more;
      OneMorePiece(p, more);
      assert s == s[..n] + s[n..];
    }
  }

  lemma NothingRendered()
    ensures Render([]) == "" && WellNamed([])
  {
  }

  lemma OneMorePiece(p: Piece, more: seq<Piece>)
    requires WellNamed(more)
    requires match p
             case Text(_) => true
             case Lone(u) => more != [] || IsLone(u, true)
             case Var(name) => IsSimple(name)
             case Nested(name) => HasOpening(Render(name)) && Balanced(Render(name)) && WellNamed(name)
    requires p.Lone? && more != [] ==> IsLone(p.u, false)
    ensures WellNamed([p] + more) && Render([p] + more) == Written(p) + Render(more)
  {
    hide Close, HasOpening, Balanced, IsSimple, IsLone;
    assert ([p] + more)[1..] == more;
  }

  function Written(p: Piece): string {
    match p
    case Text(t) => Double(t)
    case Lone(u) => u
    case Var(name) => "${" + name + "}"
    case Nested(name) => "${" + Render(name) + "}"
  }

  /** The name in front of the closing brace: balanced, and simple if it opens nothing. */
  lemma NamePiece(s: string, k: nat, name: string) returns (p: Piece)
    requires Opens(s) && Close(s[2..], 1) == Some(k) && 0 < k <= |s| - 2 && s[2..][k - 1] == '}' && name == s[2..][..k - 1]
    ensures p == Var(name) && Balanced(name) && (!HasOpening(name) ==> IsSimple(name))
  {
    p := Var(name);
    ScanIsLocal(s[2..], 1, k);
    assert s[2..][..k] == name + "}";
    if !HasOpening(name) { NoBraceInside(name + "}", name); }
  }

  /** Without an opening the first closing brace closes. */
  lemma {:induction false} NoBraceInside(t: string, name: string)
    requires t == name + "}" && Close(t, 1) == Some(|t|) && !HasOpening(name)
    ensures '}' !in name
    decreases |name|
  {
    if name != "" {
      hide Close;
      CloseSteps(t, 1);
      assert !Opens(name[0..]) && name[0..] == name;
      assert !Opens(t) by { if |name| == 1 { assert t[1] == '}'; } else { assert t[1] == name[1]; } }
      assert forall k | 0 <= k < |name[1..]| :: name[1..][k..] == name[k + 1..];
      assert t[0] == name[0] && t[1..] == name[1..] + "}";
      if t[0] != '}' { NoBraceInside(t[1..], name[1..]); }
    }
  }

  lemma NameSplitsToo(s: string, name: string, rest: string)
    requires Parts(s).Some? && Opens(s) && Close(s[2..], 1).Some?
    requires name == s[2..][..Close(s[2..], 1).value - 1] && rest == s[2..][Close(s[2..], 1).value..]
    ensures Parts(name).Some? && Parts(rest).Some?
  {
    hide Close;
    VariableSplits(s, name, rest);
    var v := Variable(name, HasOpening(name));
    assert v in [v] + Parts(rest).value;
    hide Parts;
    NamesSplit(s, v);
  }

  /** One step of text: an escaped dollar, a lone one, or any other character. */
  lemma TextPiece(s: string, n: nat) returns (p: Piece)
    requires s != "" && !Opens(s) && n == TextStep(s)
    ensures p.Text? || (p.Lone? && IsLone(p.u, |s| == n))
    ensures Written(p) == s[..n]
  {
    if s[0] != '$' {
      p := Text([s[0]]);
      assert [s[0]][1..] == "" && Double("") == "" && Double([s[0]]) == [s[0]] + Double("") == s[..1];
    } else if n == 2 && s[1] == '$' {
      p := Text("$");
      assert "$"[1..] == "" && Double("") == "" && Double("$") == "$$" + "" == s[..2];
    } else {
      p := Lone(s[..n]);
    }
  }

  /** The openings "${" that begin in front of n, and the closing braces there. */
  function Openings(s: string, n: nat): nat
    requires n <= |s|
  {
    if n == 0 then 0 else Openings(s, n - 1) + if n < |s| && s[n - 1] == '$' && s[n] == '{' then 1 else 0
  }

  function Closings(s: string, n: nat): nat
    requires n <= |s|
  {
    if n == 0 then 0 else Closings(s, n - 1) + if s[n - 1] == '}' then 1 else 0
  }

  lemma {:induction false} CountsShift(s: string, n: nat)
    requires 0 < n <= |s|
    ensures Openings(s, n) == Openings(s[1..], n - 1) + if Opens(s) then 1 else 0
    ensures Closings(s, n) == Closings(s[1..], n - 1) + if s[0] == '}' then 1 else 0
    decreases n
  {
    if n == 1 {
      assert Openings(s, 0) == 0 && Closings(s, 0) == 0;
    } else {
      CountsShift(s, n - 1);
    }
  }

  /** The scan stops where the closing braces have caught up with the openings for the first time. */
  lemma {:induction false} CloseCounts(s: string, count: nat)
    requires count > 0
    ensures match Close(s, count)
            case None => forall n | 0 <= n <= |s| :: Closings(s, n) < count + Openings(s, n)
            case Some(m) =>
              && m <= |s| && Closings(s, m) == count + Openings(s, m)
              && forall n | 0 <= n < m :: Closings(s, n) < count + Openings(s, n)
    decreases |s|
  {
    hide Openings, Closings;
    NoCounts(s);
    if s != "" {
      CloseUnfolds(s, count);
      forall n | 0 < n <= |s|
        ensures Openings(s, n) == Openings(s[1..], n - 1) + (if Opens(s) then 1 else 0)
        ensures Closings(s, n) == Closings(s[1..], n - 1) + (if s[0] == '}' then 1 else 0)
      {
        CountsShift(s, n);
      }
      if Opens(s) {
        NoCounts(s[1..]);
        forall n | 0 < n <= |s| - 1
          ensures Openings(s[1..], n) == Openings(s[2..], n - 1) && Closings(s[1..], n) == Closings(s[2..], n - 1)
        {
          CountsShift(s[1..], n);
          assert s[1..][1..] == s[2..];
        }
        CloseCounts(s[2..], count + 1);
      } else {
        var next := if s[0] == '}' then count - 1 else count;
        if next == 0 { NoCounts(s[1..]); } else { CloseCounts(s[1..], next); }
      }
    }
  }

  lemma NoCounts(s: string)
    ensures Openings(s, 0) == 0 == Closings(s, 0)
  {
  }

  /** A template whose last "${" (behind any pieces) is never closed, because no stretch behind it has
      more closing braces than openings, expands to nothing. */
  lemma {:induction false} UnclosedExpandsToNothing(pieces: seq<Piece>, rest: string, find: string -> string)
    requires WellNamed(pieces) && (pieces != [] && pieces[|pieces| - 1].Lone? ==> IsLone(pieces[|pieces| - 1].u, false))
    requires forall n | 0 <= n <= |rest| :: Closings(rest, n) <= Openings(rest, n)
    ensures Expand(Render(pieces) + "${" + rest, find) == ""
  {
    hide Parts, Render, Close, WellNamed;
    UnclosedSplitsNot(pieces, rest);
  }

  lemma {:induction false} UnclosedSplitsNot(pieces: seq<Piece>, rest: string)
    requires WellNamed(pieces) && (pieces != [] && pieces[|pieces| - 1].Lone? ==> IsLone(pieces[|pieces| - 1].u, false))
    requires forall n | 0 <= n <= |rest| :: Closings(rest, n) <= Openings(rest, n)
    ensures Parts(Render(pieces) + "${" + rest).None?
    decreases |pieces|
  {
    hide Parts, Close, HasOpening, Balanced, IsSimple;
    if pieces == [] {
      var s := "${" + rest;
      assert Render(pieces) + "${" + rest == s && s[2..] == rest;
      CloseCounts(rest, 1);
      var _ := Unclosed(s);
    } else {
      var tail := Render(pieces[1..]) + "${" + rest;
      UnclosedSplitsNot(pieces[1..], rest);
      match pieces[0]
      case Text(t) =>
        Behind(Double(t), Render(pieces[1..]), rest);
        DoubledSplitsNot(t, tail);
      case Lone(u) =>
        Behind(u, Render(pieces[1..]), rest);
        LoneSplitsNot(u, tail);
      case Var(name) =>
        Behind("${" + name + "}", Render(pieces[1..]), rest);
        SimpleIsBalanced(name);
        NameSplitsNot(name, tail);
      case Nested(name) =>
        Behind("${" + Render(name) + "}", Render(pieces[1..]), rest);
        NameSplitsNot(Render(name), tail);
    }
  }

  lemma Behind(a: string, b: string, rest: string)
    ensures a + b + "${" + rest == a + (b + "${" + rest)
  {
  }

  lemma {:induction false} DoubledSplitsNot(t: string, rest: string)
    requires Parts(rest).None?
    ensures Parts(Double(t) + rest).None?
  {
    hide Parts;
    if t == "" {
      assert Double(t) + rest == rest;
    } else {
      DoubledSplitsNot(t[1..], rest);
      DoubledHead(t, rest);
      TextSplits(Double(t) + rest, Double(t[1..]) + rest);
    }
  }

  lemma {:induction false} LoneSplitsNot(u: string, rest: string)
    requires IsLone(u, false) && Parts(rest).None?
    ensures Parts(u + rest).None?
    decreases |u|
  {
    hide Parts;
    if u == "" {
      assert u + rest == rest;
    } else {
      NothingSplits();
      var n := if u[0] == '$' && |u| >= 2 then 2 else 1;
      LoneHead(u, rest, n);
      LoneSplitsNot(u[n..], rest);
      TextSplits(u + rest, u[n..] + rest);
    }
  }

  lemma NameSplitsNot(name: string, rest: string)
    requires Balanced(name) && Parts(rest).None?
    ensures Parts("${" + name + "}" + rest).None?
  {
    hide Parts, Close, HasOpening;
    var s := "${" + name + "}" + rest;
    ScanExtends(name + "}", 1, rest);
    assert s[2..] == (name + "}") + rest && s[2..][..|name|] == name && s[2..][|name| + 1..] == rest;
    VariableSplits(s, name, rest);
  }

  /** A string splits exactly when it is a template of pieces; any other one expands to nothing. */
  lemma SplitsExactly(s: string, find: string -> string)
    ensures Parts(s).Some? <==> exists pieces :: WellNamed(pieces) && Render(pieces) == s
    ensures (forall pieces | WellNamed(pieces) :: Render(pieces) != s) ==> Expand(s, find) == ""
  {
    hide Parts, Render, WellNamed;
    if Parts(s).Some? { var pieces := EveryTemplate(s); }
    if pieces :| WellNamed(pieces) && Render(pieces) == s { RenderedFlat(pieces, find, |s|); }
  }

  /** A value that is two dollars comes out as one. */
  lemma ValuesCollapse(find: string -> string)
    requires find("a") == "$$"
    ensures Expand(Render([Var("a")]), find) == "$" != Meaning([Var("a")], find)
  {
    var pieces := [Var("a")];
    assert !HasOpening("a");
    RenderedFlat(pieces, find, |Render(pieces)|);
    assert pieces[1..] == [] && Marks(pieces, find) == MarkAll("$$", true);
    WriteValue("$$");
    PostPair("");
  }

  /** A name whose value is two dollars is looked up as one. */
  lemma NamesCollapse(find: string -> string)
    requires find("a") == "$$" && find("$") == "x" && find("$$") == "y"
    ensures var pieces := [Nested([Var("a")])];
            WellNamed(pieces) && Expand(Render(pieces), find) == "x" && Meaning(pieces, find) == "y"
  {
    hide Expand, Render, Marks, Found, WellNamed;
    var name, pieces := [Var("a")], [Nested([Var("a")])];
    OneNested(name);
    ValuesCollapse(find);
    OneValue(pieces[0], find);
    OneXSurvives();
    TemplatesExpand(pieces, find);
    assert pieces[1..] == [] && name[1..] == [];
    assert Meaning(name, find) == "$$" + "" == "$$";
    assert Meaning(pieces, find) == "y" + "" == "y";
  }

  lemma OneXSurvives()
    ensures OnePerRun(MarkAll("x", true), false)
  {
  }

  lemma OneValue(p: Piece, find: string -> string)
    requires !p.Text?
    ensures Marks([p], find) == MarkAll(Value(p, find), true) && Found([p], find) == Value(p, find)
  {
    hide Value;
    assert [p][1..] == [];
    assert Value(p, find) + "" == Value(p, find);
    assert MarkAll(Value(p, find), true) + [] == MarkAll(Value(p, find), true);
  }

  lemma OneNested(name: seq<Piece>)
    requires name == [Var("a")]
    ensures WellNamed([Nested(name)])
  {
    hide Close;
    var t := "${a}";
    assert Render(name) == "${" + "a" + "}" + Render([]) == t by { assert name[1..] == []; }
    assert Opens(t[0..]);
    assert !HasOpening("a");
    NestedBraces(t + "}");
    assert IsSimple("a") && WellNamed([]) && name[1..] == [] && [Nested(name)][1..] == [];
    assert WellNamed(name);
    assert HasOpening(t) && Balanced(t);
  }

  /** The scan over "${a}}". */
  lemma NestedBraces(s: string)
    requires s == "${a}}"
    ensures Close(s, 1) == Some(5)
  {
    CloseUnfolds(s, 1);
    assert s[2..] == "a}}";
    CloseUnfolds("a}}", 2);
    assert "a}}"[1..] == "}}";
    CloseUnfolds("}}", 2);
    assert "}}"[1..] == "}";
    CloseUnfolds("}", 1);
  }

  // ----- the loops -----

  /** The scan for the closing brace: j runs over the characters, `nested` notes an opening. */
  method FindClose(s: string, start: nat) returns (closed: bool, j: nat, nested: bool)
    requires start <= |s|
    ensures closed <==> Close(s[start..], 1).Some?
    ensures closed ==> j == start + Close(s[start..], 1).value && (nested <==> HasOpening(s[start..j - 1]))
  {
    hide *;
    j, nested := start, false;
    var braceCount := 1;
    ScanStarts(s, start);
    while j < |s| && braceCount > 0
      invariant start <= j <= |s| && braceCount >= 0
      invariant braceCount == 0 ==> j > start && s[j - 1] == '}'
      invariant Scanned(s, start, j, braceCount, nested)
      decreases |s| - j
    {
      ScanRound(s, start, j, braceCount, nested);
      if s[j] == '$' && j + 1 < |s| && s[j + 1] == '{' {
        braceCount := braceCount + 1;
        nested := true;
        j := j + 2;
        continue;
      }
      if s[j] == '}' {
        braceCount := braceCount - 1;
      }
      j := j + 1;
    }
    closed := braceCount == 0;
    ScanEnds(s, start, j, braceCount, nested);
  }

  /** What the scan knows at j: the brace looked for is where the rest of the scan finds it, `nested`
      tells whether a "${" lies behind, and none starts right before j. */
  ghost predicate Scanned(s: string, start: nat, j: nat, count: nat, nested: bool)
    requires start <= j <= |s|
  {
    && Close(s[start..], 1) == Advance(j - start, Close(s[j..], count))
    && (nested <==> OpensIn(s, start, j))
    && (start < j ==> !Opens(s[j - 1..]))
  }

  lemma ScanEnds(s: string, start: nat, j: nat, count: nat, nested: bool)
    requires start <= j <= |s| && Scanned(s, start, j, count, nested) && (count == 0 || j == |s|)
    requires count == 0 ==> j > start && s[j - 1] == '}'
    ensures count == 0 <==> Close(s[start..], 1).Some?
    ensures count == 0 ==> j == start + Close(s[start..], 1).value && (nested <==> HasOpening(s[start..j - 1]))
  {
    hide OpensIn, HasOpening;
    CloseUnfolds(s[j..], count);
    if count == 0 {
      OpeningsOf(s, start, j - 1);
    }
  }

  lemma CloseUnfolds(s: string, count: nat)
    ensures Close(s, count) ==
            if count == 0 then Some(0) else if s == "" then None
            else if Opens(s) then Advance(2, Close(s[2..], count + 1))
            else Advance(1, Close(s[1..], if s[0] == '}' then count - 1 else count))
  {
  }

  /** Some "${" lies in s[start..j]. */
  predicate OpensIn(s: string, start: nat, j: nat)
    requires j <= |s|
  {
    exists k | start <= k < j - 1 :: Opens(s[k..])
  }

  lemma ScanStarts(s: string, start: nat)
    requires start <= |s|
    ensures Scanned(s, start, start, 1, false)
  {
  }

  /** One round of the scan. */
  lemma ScanRound(s: string, start: nat, j: nat, count: nat, nested: bool)
    requires start <= j < |s| && count > 0 && Scanned(s, start, j, count, nested)
    ensures s[j] == '$' && j + 1 < |s| && s[j + 1] == '{' ==> Scanned(s, start, j + 2, count + 1, true)
    ensures !(s[j] == '$' && j + 1 < |s| && s[j + 1] == '{') ==>
              Scanned(s, start, j + 1, if s[j] == '}' then count - 1 else count, nested)
  {
    hide Close;
    CloseUnfolds(s[j..], count);
    assert s[j..][1..] == s[j + 1..];
    if Opens(s[j..]) {
      assert s[j..][2..] == s[j + 2..];
    }
  }

  lemma OpeningsOf(s: string, start: nat, end: nat)
    requires start <= end < |s| && s[end] == '}'
    ensures HasOpening(s[start..end]) <==> OpensIn(s, start, end + 1)
  {
    var t := s[start..end];
    if k :| start <= k < end && Opens(s[k..]) {
      assert Opens(t[k - start..]);
    }
    if k :| 0 <= k < |t| && Opens(t[k..]) {
      assert Opens(s[start + k..]);
    }
  }

  /** `varexp_split`. The literal run under construction is s[data..i]; it is empty after a variable. */
  method VarexpSplit(s: string) returns (ok: bool, result: seq<Part>)
    ensures ok <==> Parts(s).Some?
    ensures ok ==> result == Parts(s).value
  {
    hide Parts, Prepend, Close, HasOpening;
    var data: nat, dollar := 0, false;
    result := [];
    var i: nat := 0;
    AtStart(Parts(s));
    assert s[0..] == s;
    while i < |s|
      invariant data <= i <= |s| && (data == i ==> !dollar)
      invariant Parts(s) == Resumed(result, s[data..i], dollar, Parts(s[i..]))
      decreases |s| - i
    {
      if s[i] == '$' && i + 1 < |s| {
        if s[i + 1] == '{' {
          assert s[i..][2..] == s[i + 2..];
          var closed, j, nested := FindClose(s, i + 2);
          if !closed {
            var _ := Unclosed(s[i..]);
            return false, result;
          }
          VariableRound(s, data, i, j, result, dollar);
          assert result + [] == result;
          if data < i {
            result := result + [Literal(s[data..i], dollar)];
          }
          result := result + [Variable(s[i + 2..j - 1], nested)];
          data, dollar := j, false;
          i := j;
          continue;
        }
        TextRound(s, data, i, 2, result, dollar);
        dollar := true;
        i := i + 2;
      } else {
        TextRound(s, data, i, 1, result, dollar);
        i := i + 1;
      }
    }
    assert s[i..] == "";
    NothingSplits();
    AtEnd(result, s[data..i], dollar);
    if data < i {
      result := result + [Literal(s[data..i], dollar)];
    }
    ok := true;
  }

  /** The parts of the whole, when `result` and a run of text are behind and `rest` is to come. */
  function Resumed(result: seq<Part>, text: string, dollar: bool, rest: Option<seq<Part>>): Option<seq<Part>> {
    if rest.None? then None else Some(result + Prepend(text, dollar, rest.value))
  }

  lemma AtStart(rest: Option<seq<Part>>)
    ensures Resumed([], "", false, rest) == rest
  {
    assert rest.Some? ==> [] + rest.value == rest.value;
  }

  lemma VariableRound(s: string, data: nat, i: nat, j: nat, result: seq<Part>, dollar: bool)
    requires data <= i && i + 2 < j <= |s| && Opens(s[i..]) && Close(s[i + 2..], 1) == Some((j - (i + 2)) as nat)
    ensures var name := s[i + 2..j - 1];
            Resumed(result, s[data..i], dollar, Parts(s[i..]))
            == Resumed(result + (if data < i then [Literal(s[data..i], dollar)] else []) + [Variable(name, HasOpening(name))],
                       s[j..j], false, Parts(s[j..]))
  {
    hide Parts, Close, Prepend, Resumed, HasOpening;
    var name := s[i + 2..j - 1];
    assert s[i..][2..] == s[i + 2..] && s[i + 2..][..j - (i + 2) - 1] == name && s[i + 2..][j - (i + 2)..] == s[j..];
    VariableSplits(s[i..], name, s[j..]);
    AfterVariable(result, s[data..i], dollar, name, Parts(s[j..]));
    assert s[data..i] == "" <==> data == i;
    assert s[j..j] == "";
  }

  lemma TextRound(s: string, data: nat, i: nat, n: nat, result: seq<Part>, dollar: bool)
    requires data <= i < |s| && !Opens(s[i..]) && n == TextStep(s[i..]) && (data == i ==> !dollar)
    ensures i + n <= |s|
    ensures Resumed(result, s[data..i], dollar, Parts(s[i..])) == Resumed(result, s[data..i + n], dollar || n == 2, Parts(s[i + n..]))
  {
    hide Parts, Prepend, Resumed, Opens;
    assert s[i..][n..] == s[i + n..] && s[i..][..n] == s[i..i + n];
    TextSplits(s[i..], s[i + n..]);
    AfterText(result, s[data..i], dollar, s[i..i + n], n == 2, Parts(s[i + n..]));
    assert s[data..i] + s[i..i + n] == s[data..i + n];
  }

  lemma AfterVariable(result: seq<Part>, text: string, dollar: bool, name: string, rest: Option<seq<Part>>)
    ensures var v := Variable(name, HasOpening(name));
            Resumed(result, text, dollar, if rest.None? then None else Some([v] + rest.value))
            == Resumed(result + (if text == "" then [] else [Literal(text, dollar)]) + [v], "", false, rest)
  {
    if rest.Some? {
      var v := Variable(name, HasOpening(name));
      var run := if text == "" then [] else [Literal(text, dollar)];
      assert ([v] + rest.value)[0] == v;
      assert Prepend(text, dollar, [v] + rest.value) == run + ([v] + rest.value);
      assert result + (run + ([v] + rest.value)) == result + run + [v] + rest.value;
    }
  }

  lemma AfterText(result: seq<Part>, text: string, dollar: bool, more: string, pair: bool, rest: Option<seq<Part>>)
    requires (text == "" ==> !dollar) && more != ""
    ensures Resumed(result, text, dollar, if rest.None? then None else Some(Prepend(more, pair, rest.value)))
            == Resumed(result, text + more, dollar || pair, rest)
  {
    if rest.Some? {
      var parts := rest.value;
      if text == "" {
        assert text + more == more;
      } else if parts != [] && parts[0].Literal? {
        assert text + (more + parts[0].text) == text + more + parts[0].text;
        assert Prepend(more, pair, parts)[1..] == parts[1..];
      } else {
        assert Prepend(more, pair, parts)[1..] == parts;
      }
    }
  }

  lemma AtEnd(result: seq<Part>, text: string, dollar: bool)
    ensures Resumed(result, text, dollar, Some([])) == Some(result + (if text == "" then [] else [Literal(text, dollar)]))
  {
    assert Prepend(text, dollar, []) == if text == "" then [] else [Literal(text, dollar)];
  }

  /** `varexp_post`. */
  method VarexpPost(s: string) returns (result: string)
    ensures result == Post(s)
  {
    hide Post;
    result := "";
    var i := 0;
    assert s[0..] == s;
    while i < |s|
      invariant i <= |s| && Post(s) == result + Post(s[i..])
      decreases |s| - i
    {
      if s[i] == '$' && i + 1 < |s| && s[i + 1] == '$' {
        assert s[i..] == "$$" + s[i + 2..];
        PostPair(s[i + 2..]);
        result := result + "$";
        i := i + 1;
      } else {
        assert s[i..] == [s[i]] + s[i + 1..];
        PostOne(s[i], s[i + 1..]);
        result := result + [s[i]];
      }
      i := i + 1;
    }
    PostNothing();
    assert s[i..] == "" && result + "" == result;
  }

  lemma PostNothing()
    ensures Post("") == ""
  {
  }

  /** `varexp`: an unbalanced template, which is one of no pieces, expands to nothing. */
  method Varexp(s: string, find: string -> string) returns (r: string)
    ensures r == Expand(s, find)
    ensures (forall pieces | WellNamed(pieces) :: Render(pieces) != s) ==> r == ""
    decreases |s|
  {
    hide Parts, Post, Flat, WellNamed, Render;
    SplitsExactly(s, find);
    var ok, parts := VarexpSplit(s);
    if !ok {
      return "";
    }
    var result := "";
    ghost var whole := Flat(parts, find, |s|);
    assert parts[0..] == parts;
    for i := 0 to |parts|
      invariant result + Flat(parts[i..], find, |s|) == whole
    {
      FlatStep(parts, i, find, |s|);
      assert parts[i] in parts;
      match parts[i]
      case Literal(text, _) => result := result + text;
      case Variable(name, nested) =>
        var key := name;
        if nested {
          key := Varexp(name, find);
        }
        result := result + find(key);
    }
    FlatNothing(find, |s|);
    assert result == whole;
    r := VarexpPost(result);
  }

  lemma FlatStep(parts: seq<Part>, i: nat, find: string -> string, bound: nat)
    requires i < |parts| && forall p | p in parts :: p.Variable? ==> |p.name| < bound
    ensures Flat(parts[i..], find, bound) ==
            (match parts[i]
             case Literal(text, _) => text
             case Variable(name, nested) => find(if nested then Expand(name, find) else name))
            + Flat(parts[i + 1..], find, bound)
  {
    assert parts[i..][1..] == parts[i + 1..];
  }
}
