/** json11's parser object: a cursor, the first error, and methods that move the cursor. Each method
    is tied to the function of JsonGrammar that says what it reads. */
module JsonParser {
  import opened Wrappers
  import opened JsonValue
  import opened JsonGrammar

  class JsonParser {
    const str: bytes
    const strategy: Strategy
    var i: nat
    var err: Option<Error>
    var failed: bool

    /** The cursor stays within the input; an error is recorded exactly when the parse failed. */
    ghost predicate Valid()
      reads this
    {
      i <= |str| && (failed <==> err.Some?)
    }

    /** The state after reading something whose specification is r, started without an error; an error
        that was there before is kept as it was. */
    ghost predicate After<T>(was: Option<Error>, r: Parse<T>)
      reads this
    {
      && Valid()
      && if was.Some? then err == was
         else match r
           case Ok(_, next) => err == None && i == next
           case Fail(e) => err == Some(e)
    }

    constructor (str: bytes, strategy: Strategy)
      ensures Valid() && this.str == str && this.strategy == strategy && i == 0 && err == None
    {
      this.str, this.strategy := str, strategy;
      i, err, failed := 0, None, false;
    }

    /** `fail`: only the first error is recorded. */
    method SetError(e: Error)
      requires Valid()
      modifies this`err, this`failed
      ensures Valid() && err == if old(err).Some? then old(err) else Some(e)
    {
      if !failed {
        err := Some(e);
      }
      failed := true;
    }

    method ConsumeWhitespace()
      requires Valid()
      modifies this`i
      ensures Valid() && i == SkipSpace(str, old(i))
    {
      while IsSpace(At(str, i))
        invariant i <= |str| && SkipSpace(str, i) == SkipSpace(str, old(i))
        decreases |str| - i
      {
        i := i + 1;
      }
    }

    method ConsumeLine()
      requires Valid()
      modifies this`i
      ensures Valid() && i == LineEnd(str, old(i))
    {
      while i < |str| && str[i] != NEWLINE
        invariant i <= |str| && LineEnd(str, i) == LineEnd(str, old(i))
        decreases |str| - i
      {
        i := i + 1;
      }
    }

    /** The text of a multi-line comment, up to and including its closing mark. */
    method ConsumeBlock() returns (closed: bool)
      requires Valid() && i >= 2
      modifies this
      ensures After(old(err), CommentEnd(str, old(i))) && i >= old(i)
      ensures closed ==> i > old(i)
      ensures old(err) == None ==> (closed <==> CommentEnd(str, old(i)).Ok?)
    {
      if i > |str| - 2 {
        SetError(EndInsideComment);
        return false;
      }
      while !(str[i] == STAR && str[i + 1] == SLASH)
        invariant old(i) <= i <= |str| - 2 && CommentEnd(str, i) == CommentEnd(str, old(i))
        invariant Valid() && err == old(err)
        decreases |str| - i
      {
        assert CommentEnd(str, i) == CommentEnd(str, i + 1);
        i := i + 1;
        if i > |str| - 2 {
          SetError(EndInsideComment);
          return false;
        }
      }
      i := i + 2;
      closed := true;
    }

    method ConsumeComment() returns (found: bool)
      requires Valid()
      modifies this
      ensures After(old(err), Comment(str, old(i))) && i >= old(i)
      ensures found ==> i > old(i)
      ensures old(err) == None && Comment(str, old(i)).Ok? ==> found == Comment(str, old(i)).value
    {
      hide LineEnd, CommentEnd;
      found := false;
      if At(str, i) == SLASH {
        i := i + 1;
        if i == |str| {
          SetError(EndAfterCommentStart);
          return false;
        }
        if str[i] == SLASH {
          i := i + 1;
          ConsumeLine();
          found := true;
        } else if str[i] == STAR {
          i := i + 1;
          found := ConsumeBlock();
        } else {
          SetError(MalformedComment);
          return false;
        }
      }
    }

    method ConsumeGarbage()
      requires Valid()
      modifies this
      ensures After(old(err), Garbage(str, old(i), strategy)) && i >= old(i)
    {
      ConsumeWhitespace();
      if strategy == COMMENTS {
        var found := true;
        while found
          invariant Valid() && i >= old(i) && err == old(err)
          invariant found ==> !IsSpace(At(str, i))
          invariant if found then Garbage(str, i, strategy) == Garbage(str, old(i), strategy)
                    else old(err) == None && Garbage(str, old(i), strategy) == Ok((), i)
          decreases found, |str| - i
        {
          hide Comment;
          ghost var at := i;
          found := ConsumeComment();
          if failed {
            return;
          }
          ConsumeWhitespace();
          AfterComment(at, found, i);
        }
      }
    }

    /** One round of the comment loop. */
    lemma AfterComment(at: nat, found: bool, now: nat)
      requires at <= |str| && strategy == COMMENTS && !IsSpace(At(str, at))
      requires var c := Comment(str, at); c.Ok? && found == c.value && now == SkipSpace(str, c.next)
      ensures if found then Garbage(str, at, strategy) == Garbage(str, now, strategy) else Garbage(str, at, strategy) == Ok((), now)
    {
    }

    /** `get_next_token`: 0 when there is none. */
    method GetNextToken() returns (ch: byte)
      requires Valid()
      modifies this
      ensures After(old(err), Token(str, old(i), strategy)) && i >= old(i)
      ensures old(err) == None && Token(str, old(i), strategy).Ok? ==> ch == Token(str, old(i), strategy).value
      ensures err.Some? ==> ch == 0
    {
      hide Garbage;
      ConsumeGarbage();
      if failed {
        return 0;
      }
      if i == |str| {
        SetError(EndOfInput);
        return 0;
      }
      ch := str[i];
      i := i + 1;
    }
  
    /** `encode_utf8` appends to `out`. */
    method WriteUtf8(pt: int, out: bytes) returns (r: bytes)
      requires pt < 0x11_0000
      ensures r == out + EncodeUtf8(pt)
    {
      r := out;
      if pt < 0 {
        return;
      }
      if pt < 0x80 {
        r := r + [pt];
      } else if pt < 0x800 {
        r := r + [pt / 0x40 + 0xC0];
        r := r + [pt % 0x40 + 0x80];
      } else if pt < 0x10000 {
        r := r + [pt / 0x1000 + 0xE0];
        r := r + [pt / 0x40 % 0x40 + 0x80];
        r := r + [pt % 0x40 + 0x80];
      } else {
        r := r + [pt / 0x40000 + 0xF0];
        r := r + [pt / 0x1000 % 0x40 + 0x80];
        r := r + [pt / 0x40 % 0x40 + 0x80];
        r := r + [pt % 0x40 + 0x80];
      }
    }

    /** The four digits after a backslash and a `u`, which the cursor has passed. */
    method ParseUnicodeEscape(before: bytes, pending: int) returns (ok: bool, out: bytes, last: int)
      requires Valid() && i >= 2 && str[i - 2] == BACKSLASH && str[i - 1] == LOWER_U && -1 <= pending < 0x10000
      modifies this
      ensures Valid() && i >= old(i) && -1 <= last < 0x10000
      ensures ok ==> err == old(err) && StringLoop(str, old(i) - 2, before, pending) == StringLoop(str, i, out, last)
      ensures !ok ==> err.Some? && (if old(err).Some? then err == old(err) else StringLoop(str, old(i) - 2, before, pending) == Fail(err.value))
    {
      hide EncodeUtf8, Hex4;
      ok, out, last := false, before, pending;
      var esc := Window(str, i);
      if !IsHex4(esc) {
        SetError(BadUnicodeEscape(esc));
        return;
      }
      ok := true;
      var pt := Hex4(esc);
      if IsLead(last) && IsTrail(pt) {
        out := WriteUtf8(Astral(last, pt), out);
        last := -1;
      } else {
        out := WriteUtf8(last, out);
        last := pt;
      }
      i := i + 4;
    }

    /** `parse_string`, after the opening quote; empty when it fails. */
    method ParseString() returns (text: bytes)
      requires Valid()
      modifies this
      ensures After(old(err), String(str, old(i))) && i >= old(i)
      ensures old(err) == None && String(str, old(i)).Ok? ==> text == String(str, old(i)).value
    {
      var out: bytes, last: int := [], -1;
      ghost var spec := String(str, i);
      while true
        invariant Valid() && i >= old(i) && err == old(err)
        invariant -1 <= last < 0x10000 && StringLoop(str, i, out, last) == spec
        decreases |str| - i
      {
        hide EncodeUtf8, Hex4;
        if i == |str| {
          SetError(EndInString);
          return [];
        }
        var ch := str[i];
        i := i + 1;
        if ch == QUOTE {
          text := WriteUtf8(last, out);
          return;
        }
        if ch <= 0x1F {
          SetError(UnescapedInString(ch));
          return [];
        }
        if ch != BACKSLASH {
          out := WriteUtf8(last, out);
          last := -1;
          out := out + [ch];
          continue;
        }
        if i == |str| {
          SetError(EndInString);
          return [];
        }
        ch := str[i];
        i := i + 1;
        if ch == LOWER_U {
          var ok: bool;
          ok, out, last := ParseUnicodeEscape(out, last);
          if !ok {
            return [];
          }
          continue;
        }
        out := WriteUtf8(last, out);
        last := -1;
        var c := SimpleEscape(ch);
        if c < 0 {
          SetError(InvalidEscape(ch));
          return [];
        }
        out := out + [c];
      }
    }

    method ConsumeDigits()
      requires Valid()
      modifies this`i
      ensures Valid() && i == SkipDigits(str, old(i))
    {
      while IsDigit(At(str, i))
        invariant i <= |str| && SkipDigits(str, i) == SkipDigits(str, old(i))
        decreases |str| - i
      {
        i := i + 1;
      }
    }

    method ParseIntegerPart()
      requires Valid()
      modifies this
      ensures After(old(err), IntegerPart(str, old(i))) && i >= old(i)
    {
      hide SkipDigits;
      if At(str, i) == ZERO {
        i := i + 1;
        if IsDigit(At(str, i)) {
          SetError(LeadingZero);
        }
      } else if IsDigit(At(str, i)) {
        ConsumeDigits();
      } else {
        SetError(InvalidInNumber(At(str, i)));
      }
    }

    method ParseFraction()
      requires Valid()
      modifies this
      ensures After(old(err), FractionPart(str, old(i))) && i >= old(i)
    {
      hide SkipDigits;
      if At(str, i) == DOT {
        i := i + 1;
        if !IsDigit(At(str, i)) {
          SetError(NoFractionDigit);
          return;
        }
        ConsumeDigits();
      }
    }

    method ParseExponent()
      requires Valid()
      modifies this
      ensures After(old(err), ExponentPart(str, old(i))) && i >= old(i)
    {
      hide SkipDigits;
      if At(str, i) == LOWER_E || At(str, i) == UPPER_E {
        i := i + 1;
        if At(str, i) == PLUS || At(str, i) == MINUS {
          i := i + 1;
        }
        if !IsDigit(At(str, i)) {
          SetError(NoExponentDigit);
          return;
        }
        ConsumeDigits();
      }
    }

    /** `parse_number`. */
    method ParseNumber() returns (v: Json)
      requires Valid() && i < |str| && err == None
      modifies this
      ensures After(None, NumberAt(str, old(i))) && i >= old(i)
      ensures NumberAt(str, old(i)).Ok? ==> v == NumberAt(str, old(i)).value
    {
      hide IntegerPart, FractionPart, ExponentPart, LiteralValue;
      var start := i;
      if str[i] == MINUS {
        i := i + 1;
      }
      ParseIntegerPart();
      if failed {
        return Null;
      }
      if At(str, i) != DOT && At(str, i) != LOWER_E && At(str, i) != UPPER_E && i - start <= INT_DIGITS10 {
        LiteralShape(str, start, i);
        return Int(LiteralValue(str[start..i]));
      }
      ParseFraction();
      if failed {
        return Null;
      }
      ParseExponent();
      if failed {
        return Null;
      }
      v := Double(str[start..i]);
    }

    /** `expect`: steps back to the character just read and compares the whole word. */
    method Expect(word: bytes, res: Json) returns (v: Json)
      requires Valid() && i > 0 && err == None && word != []
      modifies this
      ensures After(None, WordAt(str, old(i) - 1, word, res)) && i >= old(i) - 1
      ensures WordAt(str, old(i) - 1, word, res).Ok? ==> v == WordAt(str, old(i) - 1, word, res).value
    {
      i := i - 1;
      if i + |word| <= |str| && str[i..i + |word|] == word {
        i := i + |word|;
        v := res;
      } else {
        SetError(ExpectedWord(word, str[i..if i + |word| <= |str| then i + |word| else |str|]));
        v := Null;
      }
    }
  
    /** `parse_json`. No call, however deeply nested, goes past depth MAX_DEPTH + 1. */
    method ParseJson(depth: nat) returns (v: Json)
      requires Valid() && depth <= MAX_DEPTH + 1
      modifies this
      ensures After(old(err), Value(str, old(i), depth, strategy)) && i >= old(i)
      ensures old(err) == None && Value(str, old(i), depth, strategy).Ok? ==> v == Value(str, old(i), depth, strategy).value
      decreases MAX_DEPTH + 1 - depth, 1
    {
      hide Token, NumberAt, WordAt, String, Items, Members;
      if depth > MAX_DEPTH {
        SetError(TooDeep);
        return Null;
      }
      var ch := GetNextToken();
      if failed {
        return Null;
      }
      if ch == MINUS || IsDigit(ch) {
        i := i - 1;
        v := ParseNumber();
      } else if ch == LOWER_T {
        v := Expect(TRUE, Bool(true));
      } else if ch == LOWER_F {
        v := Expect(FALSE, Bool(false));
      } else if ch == LOWER_N {
        v := Expect(NULL, Null);
      } else if ch == QUOTE {
        var text := ParseString();
        v := Str(text);
      } else if ch == LBRACE {
        v := ParseObject(depth);
      } else if ch == LBRACKET {
        v := ParseArray(depth);
      } else {
        SetError(ExpectedValue(ch));
        v := Null;
      }
    }

    /** What follows an opening bracket. */
    ghost function ArrayRest(at: nat, depth: nat): Parse<Json>
      requires at <= |str|
    {
      match Token(str, at, strategy)
      case Fail(e) => Fail(e)
      case Ok(c, k) => if c == RBRACKET then Ok(Array([]), k) else Items(str, k - 1, depth, strategy, [])
    }

    ghost function ObjectRest(at: nat, depth: nat): Parse<Json>
      requires at <= |str|
    {
      match Token(str, at, strategy)
      case Fail(e) => Fail(e)
      case Ok(c, k) => if c == RBRACE then Ok(Object([]), k) else Members(str, k, c, depth, strategy, [])
    }

    /** The list branch of `parse_json`. A failed token is not looked at before the cursor steps back
        once more, so the loop may run on a failed parser; it then returns at the next check. */
    method ParseArray(depth: nat) returns (v: Json)
      requires Valid() && depth <= MAX_DEPTH && err == None && i > 0
      modifies this
      ensures After(None, ArrayRest(old(i), depth)) && i >= old(i) - 1
      ensures ArrayRest(old(i), depth).Ok? ==> v == ArrayRest(old(i), depth).value
      decreases MAX_DEPTH + 1 - depth, 0
    {
      hide Token, Value, Items;
      ghost var spec := ArrayRest(i, depth);
      var data := [];
      var ch := GetNextToken();
      if ch == RBRACKET {
        return Array(data);
      }
      while true
        invariant Valid() && i >= old(i)
        invariant err.Some? ==> spec == Fail(err.value)
        invariant err == None ==> i > old(i) && spec == Items(str, i - 1, depth, strategy, data)
        decreases err == None, |str| - i
      {
        ItemsUnfold(i - 1, depth, data);
        i := i - 1;
        var item := ParseJson(depth + 1);
        data := data + [item];
        if failed {
          return Null;
        }
        ch := GetNextToken();
        if ch == RBRACKET {
          return Array(data);
        }
        if ch != COMMA {
          SetError(ExpectedCommaInList(ch));
          return Null;
        }
        ch := GetNextToken();
      }
    }

    lemma ItemsUnfold(at: nat, depth: nat, data: seq<Json>)
      requires at <= |str|
      ensures var r, item := Items(str, at, depth, strategy, data), Value(str, at, depth + 1, strategy);
              if item.Fail? then r == Fail(item.error) else
              var more := data + [item.value];
              var token := Token(str, item.next, strategy);
              if token.Fail? then r == Fail(token.error)
              else if token.value == RBRACKET then r == Ok(Array(more), token.next)
              else if token.value != COMMA then r == Fail(ExpectedCommaInList(token.value)) else
              var start := Token(str, token.next, strategy);
              if start.Fail? then r == Fail(start.error) else r == Items(str, start.next - 1, depth, strategy, more)
    {
    }

    /** The object branch of `parse_json`. */
    method ParseObject(depth: nat) returns (v: Json)
      requires Valid() && depth <= MAX_DEPTH && err == None
      modifies this
      ensures After(None, ObjectRest(old(i), depth)) && i >= old(i)
      ensures ObjectRest(old(i), depth).Ok? ==> v == ObjectRest(old(i), depth).value
      decreases MAX_DEPTH + 1 - depth, 0
    {
      hide Token, Value, String, Members, Insert;
      ghost var spec := ObjectRest(i, depth);
      var data := [];
      var ch := GetNextToken();
      if ch == RBRACE {
        return Object(data);
      }
      while true
        invariant Valid() && i >= old(i)
        invariant err.Some? ==> ch == 0 && spec == Fail(err.value)
        invariant err == None ==> spec == Members(str, i, ch, depth, strategy, data)
        decreases err == None, |str| - i
      {
        if err == None { MembersUnfold(i, ch, depth, data); }
        if ch != QUOTE {
          SetError(ExpectedKey(ch));
          return Null;
        }
        var key := ParseString();
        if failed {
          return Null;
        }
        ch := GetNextToken();
        if ch != COLON {
          SetError(ExpectedColon(ch));
          return Null;
        }
        var value := ParseJson(depth + 1);
        data := Insert(data, key, value);
        if failed {
          return Null;
        }
        ch := GetNextToken();
        if ch == RBRACE {
          return Object(data);
        }
        if ch != COMMA {
          SetError(ExpectedCommaInObject(ch));
          return Null;
        }
        ch := GetNextToken();
      }
    }

    lemma MembersUnfold(at: nat, ch: byte, depth: nat, data: seq<Member>)
      requires at <= |str|
      ensures var r, key := Members(str, at, ch, depth, strategy, data), String(str, at);
              if ch != QUOTE then r == Fail(ExpectedKey(ch))
              else if key.Fail? then r == Fail(key.error) else
              var colon := Token(str, key.next, strategy);
              if colon.Fail? then r == Fail(colon.error)
              else if colon.value != COLON then r == Fail(ExpectedColon(colon.value)) else
              var item := Value(str, colon.next, depth + 1, strategy);
              if item.Fail? then r == Fail(item.error) else
              var more := Insert(data, key.value, item.value);
              var token := Token(str, item.next, strategy);
              if token.Fail? then r == Fail(token.error)
              else if token.value == RBRACE then r == Ok(Object(more), token.next)
              else if token.value != COMMA then r == Fail(ExpectedCommaInObject(token.value)) else
              var start := Token(str, token.next, strategy);
              if start.Fail? then r == Fail(start.error) else r == Members(str, start.next, start.value, depth, strategy, more)
    {
      hide Value, Token, String, Insert;
    }
  }

  /** `Json::parse`: on every input and in both strategies it ends with the cursor inside the input,
      and returns what Document says, the first error included. */
  method Parse(input: bytes, strategy: Strategy) returns (v: Json, err: Option<Error>)
    ensures match Document(input, strategy)
            case Ok(value, _) => err == None && v == value
            case Fail(e) => err == Some(e) && v == Null
  {
    hide Value, Garbage;
    var parser := new JsonParser(input, strategy);
    v := parser.ParseJson(0);
    parser.ConsumeGarbage();
    if parser.failed {
      return Null, parser.err;
    }
    if parser.i != |input| {
      parser.SetError(TrailingGarbage(input[parser.i]));
      return Null, parser.err;
    }
    err := None;
  }
}
