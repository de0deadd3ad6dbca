/** Which patterns the parser accepts, as what, and what it reports otherwise; and
    that printing and parsing undo each other. */
module PatternProofs {
  import opened Wrappers
  import opened Pattern

  // A pattern, stated apart from the parser.

  ghost predicate Placeholder(text: string, token: string) {
    '}' !in token && "{" + token + "}" <= text
  }

  /** `text` is, element by element, brace-free literals and closed placeholders. */
  ghost predicate SpellsAll(text: string, es: seq<Element>, read: Reader)
    decreases |es|
  {
    if es == [] then text == ""
    else
      match es[0]
      case Literal(t) =>
        && t != "" && '{' !in t && t <= text && (|es| > 1 ==> es[1].Field?)
        && SpellsAll(text[|t|..], es[1..], read)
      case Field(_, _) =>
        exists token :: Placeholder(text, token) && read(token) == Ok(es[0]) && SpellsAll(text[|token| + 2..], es[1..], read)
  }

  /** `rest` starts with a placeholder that is not closed or not accepted. */
  ghost predicate Refused(rest: string, e: PatternError, read: Reader) {
    && rest != "" && rest[0] == '{'
    && if '}' !in rest then e == UnclosedBrace else exists token :: Placeholder(rest, token) && read(token) == Err(e)
  }

  /** The first faulty placeholder has the error `e`: all before it is well spelled. */
  ghost predicate FirstFault(text: string, front: string, es: seq<Element>, e: PatternError, read: Reader) {
    front <= text && SpellsAll(front, es, read) && Refused(text[|front|..], e, read)
  }

  /** The parser stops collecting a literal at the end or at an opening brace. */
  lemma ParsePending(u: string, literal: string, read: Reader)
    requires u == "" || u[0] == '{'
    ensures Parse(u, literal, read) == Prepend(Flush(literal), Parse(u, "", read))
  {
    if u == "" {
      assert Flush(literal) + [] == Flush(literal);
    } else {
      var close := IndexOf(u[1..], '}');
      if close < |u| - 1 {
        var field, rest := read(u[1..][..close]), Parse(u[close + 2..], "", read);
        PrependThen(Flush(literal), [], field, rest);
        assert Flush(literal) + [] == Flush(literal);
      }
    }
  }

  lemma AtPlaceholder(text: string, token: string, read: Reader)
    requires Placeholder(text, token)
    ensures Parse(text, "", read) == Then([], read(token), Parse(text[|token| + 2..], "", read))
  {
    ParseField(token, text[|token| + 2..], "", read);
    assert text == "{" + token + "}" + text[|token| + 2..];
  }

  lemma LiteralThen(t: string, u: string, read: Reader)
    requires t != "" && '{' !in t && (u == "" || u[0] == '{')
    ensures Parse(t + u, "", read) == Prepend([Literal(t)], Parse(u, "", read))
  {
    ParseLiteral(t, u, "", read);
    ParsePending(u, t, read);
    assert "" + t == t;
  }

  lemma SpelledLiteral(front: string, es: seq<Element>, read: Reader) returns (t: string, tail: string)
    requires SpellsAll(front, es, read) && es != [] && es[0].Literal?
    ensures front == t + tail && t != "" && '{' !in t && es[0] == Literal(t)
    ensures SpellsAll(tail, es[1..], read) && (tail == "" || tail[0] == '{')
  {
    t := es[0].text;
    tail := front[|t|..];
    StartsWithBrace(tail, es[1..], read);
  }

  lemma BehindPlaceholder(text: string, token: string)
    requires Placeholder(text, token)
    ensures text == "{" + token + "}" + text[|token| + 2..]
  {
  }

  lemma SpelledField(front: string, es: seq<Element>, read: Reader) returns (token: string, tail: string)
    requires SpellsAll(front, es, read) && es != [] && es[0].Field?
    ensures '}' !in token && front == "{" + token + "}" + tail && read(token) == Ok(es[0]) && SpellsAll(tail, es[1..], read)
  {
    token :| Placeholder(front, token) && read(token) == Ok(es[0]) && SpellsAll(front[|token| + 2..], es[1..], read);
    tail := front[|token| + 2..];
    BehindPlaceholder(front, token);
  }

  /** A well-spelled front is read as its elements, whatever placeholder comes next. */
  lemma {:induction false} FrontIsRead(front: string, es: seq<Element>, rest: string, read: Reader)
    requires SpellsAll(front, es, read) && (rest == "" || rest[0] == '{')
    ensures Parse(front + rest, "", read) == Prepend(es, Parse(rest, "", read))
    decreases |es|
  {
    var last := Parse(rest, "", read);
    if es == [] {
      assert front + rest == rest && (last.Ok? ==> [] + last.value == last.value);
    } else if es[0].Literal? {
      var t, tail := SpelledLiteral(front, es, read);
      FrontIsRead(tail, es[1..], rest, read);
      ConcatThree(t, tail, rest);
      LiteralThen(t, tail + rest, read);
      PrependTwice(es, last);
    } else {
      var token, tail := SpelledField(front, es, read);
      FrontIsRead(tail, es[1..], rest, read);
      ConcatThree("{" + token + "}", tail, rest);
      ParseField(token, tail + rest, "", read);
      PrependTwice(es, last);
    }
  }

  lemma ConcatThree(a: string, b: string, c: string)
    ensures a + b + c == a + (b + c)
  {
  }

  lemma StartsWithBrace(text: string, es: seq<Element>, read: Reader)
    requires SpellsAll(text, es, read) && (es != [] ==> es[0].Field?)
    ensures text == "" || text[0] == '{'
  {
  }

  lemma PrependTwice(es: seq<Element>, last: Parsed<seq<Element>>)
    requires es != []
    ensures Prepend([es[0]], Prepend(es[1..], last)) == Prepend(es, last)
    ensures Then([], Ok(es[0]), Prepend(es[1..], last)) == Prepend(es, last)
  {
    if last.Ok? {
      assert es + last.value == [es[0]] + (es[1..] + last.value) && [] + [es[0]] == [es[0]];
    }
  }

  /** Whatever the parser makes of a text, it is spelled that way. */
  ghost predicate Explained(text: string, r: Parsed<seq<Element>>, read: Reader) {
    match r
    case Ok(es) => SpellsAll(text, es, read)
    case Err(e) => exists front, es :: FirstFault(text, front, es, e, read)
  }

  ghost predicate ReadsFields(read: Reader) {
    forall token :: read(token).Ok? ==> read(token).value.Field?
  }

  lemma LiteralInFront(t: string, tail: string, es: seq<Element>, read: Reader)
    requires t != "" && '{' !in t && SpellsAll(tail, es, read) && (es != [] ==> es[0].Field?)
    ensures SpellsAll(t + tail, [Literal(t)] + es, read)
  {
    assert (t + tail)[|t|..] == tail && ([Literal(t)] + es)[1..] == es;
  }

  lemma FieldInFront(token: string, tail: string, field: Element, es: seq<Element>, read: Reader)
    requires '}' !in token && field.Field? && read(token) == Ok(field) && SpellsAll(tail, es, read)
    ensures SpellsAll("{" + token + "}" + tail, [field] + es, read)
  {
    var s := "{" + token + "}" + tail;
    assert Placeholder(s, token) && s[|token| + 2..] == tail && ([field] + es)[1..] == es;
  }

  /** A literal and a placeholder in front of a well-spelled rest. */
  lemma SpellsInFront(literal: string, token: string, tail: string, field: Element, es: seq<Element>, read: Reader)
    requires '{' !in literal && '}' !in token && field.Field? && read(token) == Ok(field) && SpellsAll(tail, es, read)
    ensures SpellsAll(literal + ("{" + token + "}" + tail), Flush(literal) + ([field] + es), read)
  {
    var s, fs := "{" + token + "}" + tail, [field] + es;
    FieldInFront(token, tail, field, es, read);
    if literal != "" {
      LiteralInFront(literal, s, fs, read);
    } else {
      assert literal + s == s && Flush(literal) + fs == fs;
    }
  }

  lemma LiteralAlone(literal: string, read: Reader)
    requires '{' !in literal
    ensures SpellsAll(literal, Flush(literal), read)
  {
    if literal != "" {
      assert literal[|literal|..] == "" && Flush(literal)[1..] == [];
    }
  }

  lemma FaultBehind(front: string, rest: string, es: seq<Element>, e: PatternError, read: Reader)
    requires SpellsAll(front, es, read) && Refused(rest, e, read)
    ensures Explained(front + rest, Err(e), read)
  {
    assert (front + rest)[|front|..] == rest;
    assert FirstFault(front + rest, front, es, e, read);
  }

  lemma FaultOf(text: string, e: PatternError, read: Reader) returns (front: string, rest: string, es: seq<Element>)
    requires Explained(text, Err(e), read)
    ensures text == front + rest && SpellsAll(front, es, read) && Refused(rest, e, read)
  {
    front, es :| FirstFault(text, front, es, e, read);
    rest := text[|front|..];
  }

  lemma ExplainFault(literal: string, s: string, e: PatternError, read: Reader)
    requires '{' !in literal && Refused(s, e, read)
    ensures Explained(literal + s, Err(e), read)
  {
    LiteralAlone(literal, read);
    FaultBehind(literal, s, Flush(literal), e, read);
  }

  lemma ExplainLater(literal: string, token: string, tail: string, field: Element, e: PatternError, read: Reader)
    requires '{' !in literal && '}' !in token && field.Field? && read(token) == Ok(field)
    requires Explained(tail, Err(e), read)
    ensures Explained(literal + ("{" + token + "}" + tail), Err(e), read)
  {
    var front, rest, es := FaultOf(tail, e, read);
    SpellsInFront(literal, token, front, field, es, read);
    FaultBehind(literal + ("{" + token + "}" + front), rest, Flush(literal) + ([field] + es), e, read);
    ConcatThree("{" + token + "}", front, rest);
    ConcatThree(literal, "{" + token + "}" + front, rest);
  }

  lemma NoClosing(s: string)
    requires s != "" && s[0] == '{' && IndexOf(s[1..], '}') == |s| - 1
    ensures '}' !in s
  {
    assert s == [s[0]] + s[1..];
  }

  lemma ExplainPlaceholder(s: string, literal: string, token: string, tail: string, read: Reader)
    requires '{' !in literal && '}' !in token && s == "{" + token + "}" + tail && ReadsFields(read)
    requires Explained(tail, Parse(tail, "", read), read)
    ensures Explained(literal + s, Then(Flush(literal), read(token), Parse(tail, "", read)), read)
  {
    var field, rest := read(token), Parse(tail, "", read);
    if field.Err? {
      assert Placeholder(s, token);
      ExplainFault(literal, s, field.error, read);
    } else if rest.Err? {
      ExplainLater(literal, token, tail, field.value, rest.error, read);
    } else {
      SpellsInFront(literal, token, tail, field.value, rest.value, read);
      assert Flush(literal) + [field.value] + rest.value == Flush(literal) + ([field.value] + rest.value);
    }
  }

  // The induction, for any relation of texts to results that the parser's three ends respect.

  type Judge = (string, Parsed<seq<Element>>) -> bool

  ghost predicate EndCase(ok: Judge, l: string) {
    '{' !in l ==> ok(l, Ok(Flush(l)))
  }

  ghost predicate OpenCase(ok: Judge, l: string, t: string) {
    '{' !in l && t != "" && t[0] == '{' && '}' !in t ==> ok(l + t, Err(UnclosedBrace))
  }

  ghost predicate TokenCase(ok: Judge, read: Reader, l: string, token: string, tail: string) {
    '{' !in l && '}' !in token && ok(tail, Parse(tail, "", read)) ==>
      ok(l + ("{" + token + "}" + tail), Then(Flush(l), read(token), Parse(tail, "", read)))
  }

  ghost predicate Respected(ok: Judge, read: Reader) {
    && (forall l :: EndCase(ok, l)) && (forall l, t :: OpenCase(ok, l, t))
    && (forall l, token, tail :: TokenCase(ok, read, l, token, tail))
  }

  lemma ParseChar(s: string, literal: string, read: Reader)
    requires s != "" && s[0] != '{'
    ensures Parse(s, literal, read) == Parse(s[1..], literal + [s[0]], read)
    ensures literal + [s[0]] + s[1..] == literal + s
  {
  }

  lemma ParseBrace(s: string, literal: string, read: Reader) returns (token: string, tail: string)
    requires s != "" && s[0] == '{'
    ensures '}' !in s ==> Parse(s, literal, read) == Err(UnclosedBrace)
    ensures '}' in s ==> '}' !in token && s == "{" + token + "}" + tail
    ensures '}' in s ==> Parse(s, literal, read) == Then(Flush(literal), read(token), Parse(tail, "", read))
  {
    var close := IndexOf(s[1..], '}');
    token, tail := "", "";
    if close == |s| - 1 {
      NoClosing(s);
    } else {
      token, tail := s[1..][..close], s[close + 2..];
    }
  }

  lemma {:induction false} ParseJudged(s: string, literal: string, read: Reader, ok: Judge)
    requires '{' !in literal && Respected(ok, read)
    ensures ok(literal + s, Parse(s, literal, read))
    decreases |s|
  {
    if s == "" {
      assert EndCase(ok, literal) && literal + s == literal;
    } else if s[0] != '{' {
      ParseJudged(s[1..], literal + [s[0]], read, ok);
      ParseChar(s, literal, read);
    } else {
      var token, tail := ParseBrace(s, literal, read);
      if '}' in s {
        ParseJudged(tail, "", read, ok);
        assert "" + tail == tail && TokenCase(ok, read, literal, token, tail);
      } else {
        assert OpenCase(ok, literal, s);
      }
    }
  }

  lemma ParseExplained(s: string, read: Reader)
    requires ReadsFields(read)
    ensures Explained(s, Parse(s, "", read), read)
  {
    var ok: Judge := (text, r) => Explained(text, r, read);
    forall l ensures EndCase(ok, l) {
      if '{' !in l {
        LiteralAlone(l, read);
      }
    }
    forall l, t ensures OpenCase(ok, l, t) {
      if '{' !in l && t != "" && t[0] == '{' && '}' !in t {
        ExplainFault(l, t, UnclosedBrace, read);
      }
    }
    forall l, token, tail ensures TokenCase(ok, read, l, token, tail) {
      if '{' !in l && '}' !in token && Explained(tail, Parse(tail, "", read), read) {
        ExplainPlaceholder("{" + token + "}" + tail, l, token, tail, read);
      }
    }
    ParseJudged(s, "", read, ok);
    assert "" + s == s;
  }

  /** A pattern is accepted with given elements exactly if it is spelled by them. */
  lemma PatternGrammar(pattern: string, es: seq<Element>, limit: nat)
    ensures ParseAll(pattern, limit) == Ok(es) <==> SpellsAll(pattern, es, Tokens(limit))
  {
    ParseExplained(pattern, Tokens(limit));
    if SpellsAll(pattern, es, Tokens(limit)) {
      FrontIsRead(pattern, es, "", Tokens(limit));
      assert pattern + "" == pattern && es + [] == es;
    }
  }

  /** Otherwise the error is that of the first faulty placeholder. */
  lemma PatternErrors(pattern: string, e: PatternError, limit: nat)
    ensures ParseAll(pattern, limit) == Err(e) <==> exists front, es :: FirstFault(pattern, front, es, e, Tokens(limit))
  {
    var read := Tokens(limit);
    ParseExplained(pattern, read);
    forall front, es | FirstFault(pattern, front, es, e, read) ensures ParseAll(pattern, limit) == Err(e) {
      var rest := pattern[|front|..];
      FrontIsRead(front, es, rest, read);
      assert pattern == front + rest;
      RefusedFails(rest, e, read);
    }
  }

  lemma RefusedFails(rest: string, e: PatternError, read: Reader)
    requires Refused(rest, e, read)
    ensures Parse(rest, "", read) == Err(e)
  {
    if '}' in rest {
      var token :| Placeholder(rest, token) && read(token) == Err(e);
      AtPlaceholder(rest, token, read);
    } else {
      IndexOfUnique(rest[1..], '}', |rest| - 1);
    }
  }

  // ---- Printing and parsing ----------------------------------------------------------

  lemma NormalTail(es: seq<Element>, limit: nat)
    requires Normal(es, limit) && es != []
    ensures NormalElement(es[0], limit) && Normal(es[1..], limit)
    ensures es[0].Literal? && es[1..] != [] ==> es[1..][0].Field?
  {
    assert forall i :: 0 <= i < |es| - 1 ==> es[1..][i] == es[i + 1];
  }

  lemma {:induction false} PrintedIsSpelledAll(es: seq<Element>, limit: nat)
    requires Normal(es, limit)
    ensures SpellsAll(PrintAll(es), es, Tokens(limit))
    decreases |es|
  {
    if es != [] {
      var rest := es[1..];
      NormalTail(es, limit);
      PrintedIsSpelledAll(rest, limit);
      assert es == [es[0]] + rest;
      if es[0].Literal? {
        LiteralInFront(es[0].text, PrintAll(rest), rest, Tokens(limit));
      } else {
        TokenRoundTrip(es[0].kind, es[0].spec, limit);
        FieldInFront(PrintToken(es[0].kind, es[0].spec), PrintAll(rest), es[0], rest, Tokens(limit));
      }
    }
  }

  /** Printing a normal list of elements and parsing it gives the list back. */
  lemma PatternRoundTrip(es: seq<Element>, limit: nat)
    requires Normal(es, limit)
    ensures ParseAll(PrintAll(es), limit) == Ok(es)
  {
    PrintedIsSpelledAll(es, limit);
    PatternGrammar(PrintAll(es), es, limit);
  }

  lemma ParsedTokenNormal(token: string, limit: nat)
    requires '}' !in token && limit > 0 && ParseToken(token, limit).Ok?
    ensures ParseToken(token, limit).value.Field? && NormalElement(ParseToken(token, limit).value, limit)
  {
    var pos := IndexOf(token, ':');
    var spec := if pos < |token| then token[pos + 1..] else "";
    assert '}' !in spec;
    ParsedSpecNormal(spec, limit);
  }

  /** What a reader accepts is a field in normal form. */
  ghost predicate ReadsNormal(read: Reader, limit: nat) {
    forall token :: '}' !in token && read(token).Ok? ==> read(token).value.Field? && NormalElement(read(token).value, limit)
  }

  lemma NormalJoin(literal: string, field: Element, rest: seq<Element>, limit: nat)
    requires '{' !in literal && field.Field? && NormalElement(field, limit) && Normal(rest, limit)
    ensures Normal(Flush(literal) + [field] + rest, limit)
  {
  }

  lemma {:induction false} ParsedNormal(s: string, literal: string, read: Reader, limit: nat)
    requires '{' !in literal && ReadsNormal(read, limit) && Parse(s, literal, read).Ok?
    ensures Normal(Parse(s, literal, read).value, limit)
    decreases |s|
  {
    if s == "" {
    } else if s[0] != '{' {
      ParsedNormal(s[1..], literal + [s[0]], read, limit);
    } else {
      var close := IndexOf(s[1..], '}');
      var token := s[1..][..close];
      ParsedNormal(s[close + 2..], "", read, limit);
      NormalJoin(literal, read(token).value, Parse(s[close + 2..], "", read).value, limit);
    }
  }

  /** Every accepted pattern parses to a list in normal form, and reparsing its
      canonical text gives the same elements: the parser is onto the normal lists. */
  lemma AcceptedPatternIsNormal(pattern: string, limit: nat)
    requires limit > 0 && ParseAll(pattern, limit).Ok?
    ensures Normal(ParseAll(pattern, limit).value, limit)
    ensures ParseAll(PrintAll(ParseAll(pattern, limit).value), limit) == ParseAll(pattern, limit)
  {
    var read := Tokens(limit);
    forall token | '}' !in token && read(token).Ok?
      ensures read(token).value.Field? && NormalElement(read(token).value, limit)
    {
      ParsedTokenNormal(token, limit);
    }
    ParsedNormal(pattern, "", read, limit);
    PatternRoundTrip(ParseAll(pattern, limit).value, limit);
  }
}
