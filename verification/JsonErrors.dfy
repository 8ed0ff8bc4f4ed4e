/** What the parser complains about is there: every error it reports is explained by characters of the
    text. */
module JsonErrors {
  import opened Wrappers
  import opened JsonValue
  import opened JsonGrammar
  import opened JsonText

  predicate Digit(b: byte) { 0x30 <= b <= 0x39 }

  ghost predicate Explained(s: bytes, e: Error) {
    match e
    case EndAfterCommentStart => s != [] && s[|s| - 1] == 0x2F
    case EndInsideComment => exists k: nat :: Opened(s, k)
    case MalformedComment => exists k: nat | k + 1 < |s| :: s[k] == 0x2F && At(s, k + 1) !in {0x2F, 0x2A}
    case EndOfInput => true
    case EndInString => exists k: nat :: Unclosed(s, k, |s|)
    case UnescapedInString(ch) => ch in s && ch < 0x20
    case BadUnicodeEscape(esc) => exists k: nat :: BadEscape(s, k, esc)
    case InvalidEscape(ch) => LetterAt(ch) == None && ch != 0x75 && exists k: nat | k + 1 < |s| :: s[k] == 0x5C && At(s, k + 1) == ch
    case LeadingZero => exists k: nat | k + 1 < |s| :: s[k] == 0x30 && Digit(At(s, k + 1))
    case InvalidInNumber(ch) => !Digit(ch) && exists k: nat | k < |s| :: s[k] == 0x2D && At(s, k + 1) == ch
    case NoFractionDigit => exists k: nat | k < |s| :: s[k] == 0x2E && !Digit(At(s, k + 1))
    case NoExponentDigit => exists k: nat | k < |s| :: s[k] in {0x65, 0x45} && !Digit(At(s, k + 1))
    case ExpectedWord(word, got) =>
      && word in {[0x74, 0x72, 0x75, 0x65], [0x66, 0x61, 0x6C, 0x73, 0x65], [0x6E, 0x75, 0x6C, 0x6C]}
      && got != word && |got| <= |word| && exists k: nat :: Starts(s, k, word[0], got)
    case ExpectedKey(ch) => ch in s && ch != 0x22
    case ExpectedColon(ch) => ch in s && ch != 0x3A
    case ExpectedCommaInObject(ch) => ch in s && ch !in {0x2C, 0x7D}
    case ExpectedCommaInList(ch) => ch in s && ch !in {0x2C, 0x5D}
    case ExpectedValue(ch) => ch in s && !Digit(ch) && ch !in {0x2D, 0x74, 0x66, 0x6E, 0x22, 0x7B, 0x5B}
    case TooDeep => Brackets(s) > 200
    case TrailingGarbage(ch) => ch in s && !White(ch)
  }

  /** A comment that is opened at k and never closed. */
  ghost predicate Opened(s: bytes, k: nat) {
    k + 1 < |s| && s[k] == 0x2F && s[k + 1] == 0x2A && forall p | k + 2 <= p < |s| - 1 :: !(s[p] == 0x2A && s[p + 1] == 0x2F)
  }

  /** From the quote at k up to j every quote is behind a backslash. */
  ghost predicate Unclosed(s: bytes, k: nat, j: nat) {
    k < |s| && j <= |s| && s[k] == 0x22 && forall p | k < p < j && s[p] == 0x22 :: s[p - 1] == 0x5C
  }

  ghost predicate BadEscape(s: bytes, k: nat, esc: bytes) {
    && k + 2 <= |s| && s[k] == 0x5C && s[k + 1] == 0x75 && esc == s[k + 2..if k + 6 <= |s| then k + 6 else |s|]
    && (|esc| < 4 || exists i | 0 <= i < 4 :: forall d :: !HexOf(esc[i], d))
  }

  ghost predicate Starts(s: bytes, k: nat, first: byte, got: bytes) {
    k + |got| <= |s| && s[k..k + |got|] == got && got != [] && got[0] == first
  }

  /** How many containers the text opens at most. */
  function Brackets(s: bytes): nat {
    if s == [] then 0 else Brackets(s[1..]) + if s[0] in {0x5B, 0x7B} then 1 else 0
  }

  // ----- comments -----

  lemma {:induction false} CommentErrors(s: bytes, k: nat, i: nat)
    requires k + 2 <= i <= |s| && s[k] == 0x2F && s[k + 1] == 0x2A && CommentEnd(s, i).Fail?
    requires forall p | k + 2 <= p < i && p + 1 < |s| :: !(s[p] == 0x2A && s[p + 1] == 0x2F)
    ensures CommentEnd(s, i).error == EndInsideComment && Opened(s, k)
    decreases |s| - i
  {
    if i <= |s| - 2 { CommentErrors(s, k, i + 1); }
  }

  lemma {:induction false} GarbageErrors(s: bytes, i: nat, st: Strategy)
    requires i <= |s| && Garbage(s, i, st).Fail?
    ensures Explained(s, Garbage(s, i, st).error)
    decreases |s| - i
  {
    hide Explained;
    var j := SkipSpace(s, i);
    var c := Comment(s, j);
    if c.Fail? {
      OneCommentError(s, j);
    } else {
      GarbageErrors(s, c.next, st);
    }
  }

  lemma OneCommentError(s: bytes, i: nat)
    requires i <= |s| && Comment(s, i).Fail?
    ensures Explained(s, Comment(s, i).error)
  {
    if i + 1 < |s| && s[i + 1] == STAR { CommentErrors(s, i, i + 2); }
  }

  lemma TokenErrors(s: bytes, i: nat, st: Strategy)
    requires i <= |s|
    ensures var r := Token(s, i, st); if r.Fail? then Explained(s, r.error) else r.value in s
  {
    hide Garbage;
    if Garbage(s, i, st).Fail? { GarbageErrors(s, i, st); }
  }

  // ----- strings, numbers and words -----

  lemma {:induction false} StringErrors(s: bytes, k: nat, i: nat, out: bytes, last: int)
    requires k < i <= |s| && Unclosed(s, k, i) && -1 <= last < 0x10000 && StringLoop(s, i, out, last).Fail?
    ensures Explained(s, StringLoop(s, i, out, last).error)
    decreases |s| - i
  {
    hide EncodeUtf8, Explained, LetterAt, SimpleEscape, HexOf;
    if i == |s| {
      EndOfString(s, k);
    } else if s[i] != QUOTE && s[i] > 0x1F {
      var ch := s[i];
      if ch != BACKSLASH {
        StringErrors(s, k, i + 1, out + EncodeUtf8(last) + [ch], -1);
      } else if i + 1 == |s| {
        EndOfString(s, k);
      } else if s[i + 1] == LOWER_U {
        var esc := Window(s, i + 2);
        if !IsHex4(esc) {
          BadEscapeExplained(s, i, esc);
        } else {
          UnclosedFurther(s, k, i);
          var pt := Hex4(esc);
          if IsLead(last) && IsTrail(pt) {
            StringErrors(s, k, i + 6, out + EncodeUtf8(Astral(last, pt)), -1);
          } else {
            StringErrors(s, k, i + 6, out + EncodeUtf8(last), pt);
          }
        }
      } else {
        LettersAgree(s[i + 1]);
        var c := SimpleEscape(s[i + 1]);
        if c < 0 { BadLetterExplained(s, i); } else { StringErrors(s, k, i + 2, out + EncodeUtf8(last) + [c], -1); }
      }
    } else {
      ControlExplained(s, i);
    }
  }

  lemma UnclosedFurther(s: bytes, k: nat, i: nat)
    requires k < i && i + 6 <= |s| && Unclosed(s, k, i) && s[i] == 0x5C && s[i + 1] == 0x75 && IsHex4(s[i + 2..i + 6])
    ensures Unclosed(s, k, i + 6)
  {
    var esc := s[i + 2..i + 6];
    assert esc[0] == s[i + 2] && esc[1] == s[i + 3] && esc[2] == s[i + 4] && esc[3] == s[i + 5];
    assert s[i + 2] != 0x22 && s[i + 3] != 0x22 && s[i + 4] != 0x22 && s[i + 5] != 0x22;
  }

  lemma EndOfString(s: bytes, k: nat)
    requires Unclosed(s, k, |s|)
    ensures Explained(s, EndInString)
  {
  }

  lemma ControlExplained(s: bytes, i: nat)
    requires i < |s|
    ensures s[i] <= 0x1F ==> Explained(s, UnescapedInString(s[i]))
  {
  }

  lemma BadLetterExplained(s: bytes, i: nat)
    requires i + 1 < |s| && s[i] == 0x5C && s[i + 1] != 0x75 && LetterAt(s[i + 1]) == None
    ensures Explained(s, InvalidEscape(s[i + 1]))
  {
    assert At(s, i + 1) == s[i + 1];
  }

  lemma BadEscapeExplained(s: bytes, i: nat, esc: bytes)
    requires i + 1 < |s| && s[i] == 0x5C && s[i + 1] == 0x75 && esc == Window(s, i + 2) && !IsHex4(esc)
    ensures Explained(s, BadUnicodeEscape(esc))
  {
    if |esc| == 4 {
      var p :| 0 <= p < 4 && !IsHexDigit(esc[p]);
      forall d ensures !HexOf(esc[p], d) { if HexOf(esc[p], d) { HexDecides(esc[p], d, d); } }
    }
    assert BadEscape(s, i, esc);
  }

  lemma NumberErrors(s: bytes, i: nat)
    requires i < |s| && (s[i] == 0x2D || Digit(s[i])) && NumberAt(s, i).Fail?
    ensures Explained(s, NumberAt(s, i).error)
  {
    hide SkipDigits;
    var start := if s[i] == MINUS then i + 1 else i;
    if IntegerPart(s, start).Fail? {
      assert At(s, start) == ZERO || s[i] == MINUS;
      assert At(s, start) == ZERO ==> s[start] == 0x30 && start + 1 < |s|;
    } else {
      var j := IntegerPart(s, start).next;
      if FractionPart(s, j).Fail? { assert s[j] == 0x2E; } else {
        var k := FractionPart(s, j).next;
        if ExponentPart(s, k).Fail? {
          ExponentError(s, k);
        }
      }
    }
  }

  lemma ExponentError(s: bytes, k: nat)
    requires k <= |s| && ExponentPart(s, k).Fail?
    ensures Explained(s, ExponentPart(s, k).error)
  {
    assert s[k] in {0x65, 0x45};
    assert !Digit(At(s, k + 1));
  }

  lemma WordErrors(s: bytes, i: nat, word: bytes, v: Json)
    requires i < |s| && word in {TRUE, FALSE, NULL} && s[i] == word[0] && WordAt(s, i, word, v).Fail?
    ensures Explained(s, WordAt(s, i, word, v).error)
  {
    var got := s[i..if i + |word| <= |s| then i + |word| else |s|];
    assert got[0] == s[i] && Starts(s, i, word[0], got);
  }

  // ----- values -----

  lemma {:induction false} BracketsFrom(s: bytes, i: nat, j: nat)
    requires i <= j <= |s|
    ensures Brackets(s[i..]) >= Brackets(s[j..])
    ensures i < j && s[i] in {0x5B, 0x7B} ==> Brackets(s[i..]) >= Brackets(s[j..]) + 1
    decreases j - i
  {
    if i < j {
      assert s[i..][1..] == s[i + 1..] && s[i..][0] == s[i];
      BracketsFrom(s, i + 1, j);
    }
  }

  /** Explained, where the depth error needs only the containers still missing. */
  ghost predicate ExplainedFrom(s: bytes, i: nat, depth: nat, e: Error)
    requires i <= |s|
  {
    if e == TooDeep then Brackets(s[i..]) + depth > 200 else Explained(s, e)
  }

  lemma DeeperFrom(s: bytes, i: nat, j: nat, depth: nat, e: Error)
    requires i < j <= |s| && s[i] in {0x5B, 0x7B} && ExplainedFrom(s, j, depth + 1, e)
    ensures ExplainedFrom(s, i, depth, e)
  {
    BracketsFrom(s, i, j);
  }

  lemma LaterFrom(s: bytes, i: nat, j: nat, depth: nat, e: Error)
    requires i <= j <= |s| && ExplainedFrom(s, j, depth, e)
    ensures ExplainedFrom(s, i, depth, e)
  {
    BracketsFrom(s, i, j);
  }

  lemma {:induction false} ValueErrors(s: bytes, i: nat, depth: nat, st: Strategy)
    requires i <= |s| && Value(s, i, depth, st).Fail?
    ensures ExplainedFrom(s, i, depth, Value(s, i, depth, st).error)
    decreases |s| - i, 0
  {
    hide Token, Items, Members, NumberAt, WordAt, StringLoop, Explained;
    TokenErrors(s, i, st);
    TokensAreNoDepth(s, i, st);
    if depth <= MAX_DEPTH && Token(s, i, st).Ok? {
      var ch, j := Token(s, i, st).value, Token(s, i, st).next;
      if ch == MINUS || IsDigit(ch) {
        NumberErrors(s, j - 1);
        NumbersAreNoDepth(s, j - 1);
      } else if ch == LOWER_T {
        WordErrors(s, j - 1, TRUE, Bool(true));
        WordsAreNoDepth(s, j - 1, TRUE, Bool(true));
      } else if ch == LOWER_F {
        WordErrors(s, j - 1, FALSE, Bool(false));
        WordsAreNoDepth(s, j - 1, FALSE, Bool(false));
      } else if ch == LOWER_N {
        WordErrors(s, j - 1, NULL, Null);
        WordsAreNoDepth(s, j - 1, NULL, Null);
      } else if ch == QUOTE {
        StringErrors(s, j - 1, j, [], -1);
        StringsAreNoDepth(s, j, [], -1);
      } else if ch == LBRACE || ch == LBRACKET {
        ContainerErrors(s, i, j, ch, depth, st);
      } else {
        NoValueExplained(s, ch);
      }
    }
  }

  lemma NoValueExplained(s: bytes, ch: byte)
    requires ch in s && ch != MINUS && !IsDigit(ch) && ch !in {LOWER_T, LOWER_F, LOWER_N, QUOTE, LBRACE, LBRACKET}
    ensures Explained(s, ExpectedValue(ch))
  {
  }

  lemma {:induction false} ContainerErrors(s: bytes, i: nat, j: nat, ch: byte, depth: nat, st: Strategy)
    requires i < j <= |s| && depth <= MAX_DEPTH && Token(s, i, st) == Ok(ch, j) && ch in {LBRACE, LBRACKET} && Value(s, i, depth, st).Fail?
    ensures ExplainedFrom(s, i, depth, Value(s, i, depth, st).error)
    decreases |s| - j, 2
  {
    hide Token, Items, Members, NumberAt, WordAt, String, Explained;
    TokenErrors(s, j, st);
    TokensAreNoDepth(s, j, st);
    if Token(s, j, st).Ok? {
      var c, k := Token(s, j, st).value, Token(s, j, st).next;
      var e := Value(s, i, depth, st).error;
      if ch == LBRACKET {
        ItemsErrors(s, k - 1, depth, st, []);
        DeeperFrom(s, j - 1, k - 1, depth, e);
      } else {
        MembersErrors(s, k, c, depth, st, []);
        DeeperFrom(s, j - 1, k, depth, e);
      }
      LaterFrom(s, i, j - 1, depth, e);
    }
  }

  lemma {:induction false} ItemsErrors(s: bytes, i: nat, depth: nat, st: Strategy, data: seq<Json>)
    requires i <= |s| && Items(s, i, depth, st, data).Fail?
    ensures ExplainedFrom(s, i, depth + 1, Items(s, i, depth, st, data).error)
    decreases |s| - i, 1
  {
    hide Token, Value, Explained;
    var r := Value(s, i, depth + 1, st);
    if r.Fail? {
      ValueErrors(s, i, depth + 1, st);
    } else {
      TokenErrors(s, r.next, st);
      TokensAreNoDepth(s, r.next, st);
      var t := Token(s, r.next, st);
      if t.Ok? && t.value == COMMA {
        TokenErrors(s, t.next, st);
        TokensAreNoDepth(s, t.next, st);
        var u := Token(s, t.next, st);
        if u.Ok? {
          ItemsErrors(s, u.next - 1, depth, st, data + [r.value]);
          LaterFrom(s, i, u.next - 1, depth + 1, Items(s, i, depth, st, data).error);
        }
      } else if t.Ok? {
        NoCommaExplained(s, t.value);
      }
    }
  }

  lemma NoCommaExplained(s: bytes, ch: byte)
    requires ch in s
    ensures ch !in {COMMA, RBRACKET} ==> Explained(s, ExpectedCommaInList(ch))
    ensures ch !in {COMMA, RBRACE} ==> Explained(s, ExpectedCommaInObject(ch))
    ensures ch != COLON ==> Explained(s, ExpectedColon(ch))
    ensures ch != QUOTE ==> Explained(s, ExpectedKey(ch))
  {
  }

  lemma {:induction false} MembersErrors(s: bytes, i: nat, ch: byte, depth: nat, st: Strategy, data: seq<Member>)
    requires 0 < i <= |s| && s[i - 1] == ch && Members(s, i, ch, depth, st, data).Fail?
    ensures ExplainedFrom(s, i, depth + 1, Members(s, i, ch, depth, st, data).error)
    decreases |s| - i, 1
  {
    hide Token, Value, Explained, String, Insert;
    NoCommaExplained(s, ch);
    if ch == QUOTE {
      KeyErrors(s, i);
      var key := String(s, i);
      if key.Ok? {
        TokenErrors(s, key.next, st);
        TokensAreNoDepth(s, key.next, st);
        var colon := Token(s, key.next, st);
        if colon.Ok? {
          NoCommaExplained(s, colon.value);
          if colon.value == COLON { MemberErrors(s, i, colon.next, key.value, depth, st, data); }
        }
      }
    }
  }

  lemma KeyErrors(s: bytes, i: nat)
    requires 0 < i <= |s| && s[i - 1] == QUOTE
    ensures String(s, i).Fail? ==> Explained(s, String(s, i).error) && String(s, i).error != TooDeep
  {
    hide Explained, StringLoop;
    if String(s, i).Fail? {
      StringErrors(s, i - 1, i, [], -1);
      StringsAreNoDepth(s, i, [], -1);
    }
  }

  /** What follows a colon at k - 1. */
  lemma {:induction false} MemberErrors(s: bytes, i: nat, k: nat, key: bytes, depth: nat, st: Strategy, data: seq<Member>)
    requires 0 < i < k <= |s| && String(s, i).Ok? && String(s, i).value == key && Token(s, String(s, i).next, st) == Ok(COLON, k)
    requires Members(s, i, QUOTE, depth, st, data).Fail?
    ensures ExplainedFrom(s, i, depth + 1, Members(s, i, QUOTE, depth, st, data).error)
    decreases |s| - i, 0
  {
    hide Token, Value, Explained, String, Insert;
    var e := Members(s, i, QUOTE, depth, st, data).error;
    var r := Value(s, k, depth + 1, st);
    if r.Fail? {
      ValueErrors(s, k, depth + 1, st);
      LaterFrom(s, i, k, depth + 1, e);
    } else {
      TokenErrors(s, r.next, st);
      TokensAreNoDepth(s, r.next, st);
      var t := Token(s, r.next, st);
      if t.Ok? && t.value == COMMA {
        TokenErrors(s, t.next, st);
        TokensAreNoDepth(s, t.next, st);
        var u := Token(s, t.next, st);
        if u.Ok? {
          MembersErrors(s, u.next, u.value, depth, st, Insert(data, key, r.value));
          LaterFrom(s, i, u.next, depth + 1, e);
        }
      } else if t.Ok? {
        NoCommaExplained(s, t.value);
      }
    }
  }

  // ----- only nesting is too deep -----

  lemma {:induction false} CommentsAreNoDepth(s: bytes, i: nat)
    requires 2 <= i <= |s|
    ensures CommentEnd(s, i) != Fail(TooDeep)
    decreases |s| - i
  {
    if i <= |s| - 2 { CommentsAreNoDepth(s, i + 1); }
  }

  lemma {:induction false} GarbageIsNoDepth(s: bytes, i: nat, st: Strategy)
    requires i <= |s|
    ensures Garbage(s, i, st) != Fail(TooDeep)
    decreases |s| - i
  {
    var j := SkipSpace(s, i);
    if j + 1 < |s| && s[j + 1] == STAR { CommentsAreNoDepth(s, j + 2); }
    var c := Comment(s, j);
    if st.COMMENTS? && c.Ok? && c.value { GarbageIsNoDepth(s, c.next, st); }
  }

  lemma TokensAreNoDepth(s: bytes, i: nat, st: Strategy)
    requires i <= |s|
    ensures Token(s, i, st) != Fail(TooDeep)
  {
    GarbageIsNoDepth(s, i, st);
  }

  lemma {:induction false} StringsAreNoDepth(s: bytes, i: nat, out: bytes, last: int)
    requires i <= |s| && -1 <= last < 0x10000
    ensures StringLoop(s, i, out, last) != Fail(TooDeep)
    decreases |s| - i
  {
    hide EncodeUtf8;
    if i + 1 < |s| && s[i] == BACKSLASH && s[i + 1] == LOWER_U && IsHex4(Window(s, i + 2)) {
      var pt := Hex4(Window(s, i + 2));
      if IsLead(last) && IsTrail(pt) {
        StringsAreNoDepth(s, i + 6, out + EncodeUtf8(Astral(last, pt)), -1);
      } else {
        StringsAreNoDepth(s, i + 6, out + EncodeUtf8(last), pt);
      }
    } else if i + 1 < |s| && s[i] == BACKSLASH && s[i + 1] != LOWER_U && SimpleEscape(s[i + 1]) >= 0 {
      StringsAreNoDepth(s, i + 2, out + EncodeUtf8(last) + [SimpleEscape(s[i + 1])], -1);
    } else if i < |s| && s[i] != BACKSLASH {
      StringsAreNoDepth(s, i + 1, out + EncodeUtf8(last) + [s[i]], -1);
    }
  }

  lemma NumbersAreNoDepth(s: bytes, i: nat)
    requires i < |s|
    ensures NumberAt(s, i) != Fail(TooDeep)
  {
    hide SkipDigits;
  }

  lemma WordsAreNoDepth(s: bytes, i: nat, word: bytes, v: Json)
    requires i < |s| && word != []
    ensures WordAt(s, i, word, v) != Fail(TooDeep)
  {
  }

  // ----- the theorem -----

  /** Whatever error a document is refused with, the text explains it; and a text that is refused is none. */
  lemma ErrorsAreExplained(s: bytes, st: Strategy)
    requires Document(s, st).Fail?
    ensures Explained(s, Document(s, st).error) && forall v :: !IsText(s, v, st)
  {
    hide Value, Garbage, Explained, IsText;
    forall v ensures !IsText(s, v, st) { AcceptsExactlyTexts(s, v, st); }
    var r := Value(s, 0, 0, st);
    if r.Fail? {
      ValueErrors(s, 0, 0, st);
      WholeText(s, r.error);
    } else if Garbage(s, r.next, st).Fail? {
      GarbageErrors(s, r.next, st);
    } else {
      var j := Garbage(s, r.next, st).next;
      GarbageIsBlank(s, r.next, st);
      TrailingExplained(s, j);
    }
  }

  lemma WholeText(s: bytes, e: Error)
    requires ExplainedFrom(s, 0, 0, e)
    ensures Explained(s, e)
  {
    assert s[0..] == s;
  }

  lemma TrailingExplained(s: bytes, j: nat)
    requires j < |s| && !White(s[j])
    ensures Explained(s, TrailingGarbage(s[j]))
  {
  }
}
