/**
 Printing a document and parsing it back (Core/crypto/json.c). To this parser ':' and ',' are only whitespace, so what
 stands between two values is a gap made of any of them: every document of section 2 of RFC 8259 is printed by some
 value below. The text of a string is as it stands in the document, its escapes in place.
 */
module JsonPrint {
  import opened Json

  datatype Value = Str(text: string) | Prim(text: string) | Box(kind: Kind, body: Body)

  datatype Body = End(gap: string) | Item(gap: string, value: Value, rest: Body)

  // ---- What may be printed ----

  predicate IsGap(s: string) {
    forall k :: 0 <= k < |s| ==> IsSpace(s[k]) || s[k] == ':' || s[k] == ','
  }

  /** Every quote is escaped, and no escape is left open. */
  predicate IsText(s: string) {
    if s == "" then true
    else if s[0] == '\\' then |s| >= 2 && IsText(s[2..])
    else s[0] != '"' && IsText(s[1..])
  }

  /** A number or a literal name: printable, no structural character, nothing that would open something else. */
  predicate IsPrimitive(s: string) {
    && s != "" && s[0] !in ['{', '[', '"']
    && forall k :: 0 <= k < |s| ==> IsPrintable(s[k]) && !IsDelimiter(s[k])
  }

  predicate Lexical(v: Value) {
    match v
    case Str(s) => IsText(s)
    case Prim(s) => IsPrimitive(s)
    case Box(kind, body) => (kind == Object || kind == Array) && LexicalBody(body)
  }

  /** A primitive needs something after it to end it. */
  predicate LexicalBody(b: Body) {
    match b
    case End(gap) => IsGap(gap)
    case Item(gap, value, rest) =>
      IsGap(gap) && Lexical(value) && LexicalBody(rest) && (value.Prim? && rest.Item? ==> rest.gap != "")
  }

  function Print(v: Value): (r: string)
    ensures r != "" || v == Prim("")
  {
    match v
    case Str(s) => "\"" + s + "\""
    case Prim(s) => s
    case Box(kind, body) =>
      (if kind == Object then "{" else "[") + PrintBody(body) + (if kind == Object then "}" else "]")
  }

  function PrintBody(b: Body): string {
    match b
    case End(gap) => gap
    case Item(gap, value, rest) => gap + Print(value) + PrintBody(rest)
  }

  // ---- What the parser should make of it ----

  function Count(v: Value): nat {
    if v.Box? then 1 + CountBody(v.body) else 1
  }

  function CountBody(b: Body): nat {
    match b
    case End(_) => 0
    case Item(_, value, rest) => Count(value) + CountBody(rest)
  }

  function Height(v: Value): nat {
    if v.Box? then 1 + HeightBody(v.body) else 0
  }

  function HeightBody(b: Body): nat {
    match b
    case End(_) => 0
    case Item(_, value, rest) => if Height(value) >= HeightBody(rest) then Height(value) else HeightBody(rest)
  }

  function Len(b: Body): nat {
    if b.End? then 0 else 1 + Len(b.rest)
  }

  /** The tokens of a value printed at this offset, numbered from `base`, under this parent. */
  function Toks(v: Value, at: nat, base: nat, parent: int): (r: seq<Tok>)
    ensures |r| == Count(v)
  {
    match v
    case Str(s) => [Tok(String, at + 1, at + 1 + |s|, 0, parent)]
    case Prim(s) => [Tok(Primitive, at, at + |s|, 0, parent)]
    case Box(kind, body) =>
      [Tok(kind, at, at + |Print(v)|, Len(body), parent)] + BodyToks(body, at + 1, base + 1, base)
  }

  function BodyToks(b: Body, at: nat, base: nat, parent: int): (r: seq<Tok>)
    ensures |r| == CountBody(b)
  {
    match b
    case End(_) => []
    case Item(gap, value, rest) =>
      Toks(value, at + |gap|, base, parent)
      + BodyToks(rest, at + |gap| + |Print(value)|, base + Count(value), parent)
  }

  // ---- Substrings ----

  predicate At(js: string, i: nat, s: string) {
    i + |s| <= |js| && js[i..i + |s|] == s
  }

  lemma AtConcat(js: string, i: nat, a: string, b: string)
    requires At(js, i, a + b)
    ensures At(js, i, a) && At(js, i + |a|, b)
  {
    assert js[i..i + |a|] == js[i..i + |a + b|][..|a|];
    assert js[i + |a|..i + |a| + |b|] == js[i..i + |a + b|][|a|..];
  }

  lemma AtChar(js: string, i: nat, s: string, k: nat)
    requires At(js, i, s) && k < |s|
    ensures js[i + k] == s[k]
  {}

  // ---- One step at a time ----

  lemma {:induction false} GapIsSkipped(js: string, max: nat, p: Parser, gap: string)
    requires p.Valid() && IsGap(gap) && At(js, p.i, gap)
    ensures ParseFrom(js, max, p) == ParseFrom(js, max, p.(i := p.i + |gap|))
    decreases |gap|
  {
    if gap != "" {
      hide ParseFrom, AddTok, StringEnd, PrimitiveEnd;
      AtChar(js, p.i, gap, 0);
      AtConcat(js, p.i, gap[..1], gap[1..]);
      assert gap[..1] + gap[1..] == gap;
      Turn(js, max, p, p.(i := p.i + 1));
      GapIsSkipped(js, max, p.(i := p.i + 1), gap[1..]);
    }
  }

  /** Where a string that starts at i ends: at the first quote that no backslash hides. */
  lemma {:induction false} StringEndsAt(js: string, i: nat, e: nat)
    requires i <= e < |js|
    ensures StringEnd(js, i) == e <==> js[e] == '"' && IsText(js[i..e])
    decreases e - i
  {
    if i < e {
      if js[i] == '\\' {
        if i + 2 <= e {
          StringEndsAt(js, i + 2, e);
          assert js[i..e][2..] == js[i + 2..e];
        }
      } else {
        StringEndsAt(js, i + 1, e);
        assert js[i..e][1..] == js[i + 1..e];
      }
    }
  }

  lemma StringEnds(js: string, i: nat, s: string)
    requires IsText(s) && At(js, i, s + "\"")
    ensures StringEnd(js, i) == i + |s|
  {
    AtConcat(js, i, s, "\"");
    AtChar(js, i + |s|, "\"", 0);
    StringEndsAt(js, i, i + |s|);
  }

  /** Which characters are what, by the documents of one: blanks, primitives, and what makes no document. */
  lemma OneCharacter(c: char)
    ensures Parse([c], 1) == Ok([]) <==> c in {' ', '\t', '\r', '\n', ':', ','}
    ensures Parse([c], 1) == Ok([Tok(Primitive, 0, 1, 0, -1)])
       <==> 32 < c as int < 127 && c !in {':', ',', ']', '}', '{', '[', '"'}
    ensures Parse([c], 1) == Ok([]) || Parse([c], 1) == Ok([Tok(Primitive, 0, 1, 0, -1)]) || Parse([c], 1).Err?
  {
    var js, p := [c], Parser(0, [], []);
    assert StringEnd(js, 1) == 1 && PrimitiveEnd(js, 1) == Ok(1);
    assert AddTok(p, Primitive, 0, 1) == [Tok(Primitive, 0, 1, 0, -1)];
    var s := Step(js, 1, p);
    if s.Ok? {
      assert s.value.i == 1;
      assert ParseFrom(js, 1, s.value) == if s.value.stack != [] then Err(Einval) else Ok(s.value.toks);
    }
  }

  lemma {:induction false} PrimitiveEnds(js: string, i: nat, s: string)
    requires At(js, i, s) && Ended(js, i + |s|)
    requires forall k :: 0 <= k < |s| ==> IsPrintable(s[k]) && !IsDelimiter(s[k])
    ensures PrimitiveEnd(js, i) == Ok(i + |s|)
    decreases |s|
  {
    if s != "" {
      AtChar(js, i, s, 0);
      AtConcat(js, i, s[..1], s[1..]);
      assert s[..1] + s[1..] == s;
      PrimitiveEnds(js, i + 1, s[1..]);
    }
  }

  /** The container in hand has n more children. */
  function Grow(toks: seq<Tok>, stack: seq<nat>, n: nat): (r: seq<Tok>)
    requires stack != [] ==> stack[|stack| - 1] < |toks|
    ensures |r| == |toks|
  {
    if stack == [] then toks
    else var t := stack[|stack| - 1]; toks[t := toks[t].(size := toks[t].size + n)]
  }

  lemma GrowTwice(toks: seq<Tok>, more: seq<Tok>, stack: seq<nat>, n: nat)
    requires stack != [] ==> stack[|stack| - 1] < |toks|
    ensures Grow(Grow(toks, stack, 1) + more, stack, n) == Grow(toks, stack, 1 + n) + more
    ensures Grow(toks, stack, 1) == Bump(toks, stack)
    ensures Grow(toks, stack, 0) == toks
  {}

  /** The parser when it has just read this value. */
  function After(p: Parser, v: Value): (q: Parser)
    requires p.Valid()
    ensures q.Valid()
  {
    Parser(p.i + |Print(v)|, Grow(p.toks, p.stack, 1) + Toks(v, p.i, |p.toks|, Top(p.stack)), p.stack)
  }

  function AfterBody(p: Parser, b: Body): (q: Parser)
    requires p.Valid()
    ensures q.Valid()
  {
    Parser(p.i + |PrintBody(b)|, Grow(p.toks, p.stack, Len(b)) + BodyToks(b, p.i, |p.toks|, Top(p.stack)), p.stack)
  }

  predicate Fits(max: nat, p: Parser, count: nat, height: nat) {
    |p.toks| + count <= max && |p.stack| + height <= MAX_DEPTH
  }

  /** One turn of the loop, when it succeeds. */
  lemma Turn(js: string, max: nat, p: Parser, q: Parser)
    requires p.Valid() && p.i < |js| && Step(js, max, p) == Ok(q)
    ensures ParseFrom(js, max, p) == ParseFrom(js, max, q)
  {}

  /** And when it fails. */
  lemma TurnFails(js: string, max: nat, p: Parser)
    requires p.Valid() && p.i < |js| && Step(js, max, p).Err?
    ensures ParseFrom(js, max, p).Err?
  {}

  predicate Ended(js: string, i: nat) {
    i >= |js| || IsDelimiter(js[i])
  }

  lemma StringParses(js: string, max: nat, p: Parser, s: string)
    requires p.Valid() && Lexical(Str(s)) && At(js, p.i, Print(Str(s)))
    ensures |p.toks| < max ==> ParseFrom(js, max, p) == ParseFrom(js, max, After(p, Str(s)))
    ensures |p.toks| >= max ==> ParseFrom(js, max, p).Err?
  {
    hide ParseFrom, StringEnd, PrimitiveEnd, IsText;
    assert Print(Str(s)) == "\"" + (s + "\"");
    AtChar(js, p.i, Print(Str(s)), 0);
    AtConcat(js, p.i, "\"", s + "\"");
    StringEnds(js, p.i + 1, s);
    GrowTwice(p.toks, [], p.stack, 0);
    if |p.toks| < max {
      Turn(js, max, p, After(p, Str(s)));
    } else {
      TurnFails(js, max, p);
    }
  }

  lemma PrimitiveParses(js: string, max: nat, p: Parser, s: string)
    requires p.Valid() && Lexical(Prim(s)) && At(js, p.i, s) && Ended(js, p.i + |s|)
    ensures |p.toks| < max ==> ParseFrom(js, max, p) == ParseFrom(js, max, After(p, Prim(s)))
    ensures |p.toks| >= max ==> ParseFrom(js, max, p).Err?
  {
    hide ParseFrom, StringEnd, PrimitiveEnd;
    AtChar(js, p.i, s, 0);
    PrimitiveEnds(js, p.i, s);
    GrowTwice(p.toks, [], p.stack, 0);
    if |p.toks| < max {
      Turn(js, max, p, After(p, Prim(s)));
    } else {
      TurnFails(js, max, p);
    }
  }

  function Opened(p: Parser, kind: Kind): (q: Parser)
    requires p.Valid()
    ensures q.Valid()
  {
    Parser(p.i + 1, Grow(p.toks, p.stack, 1) + [Tok(kind, p.i, -1, 0, Top(p.stack))], p.stack + [|p.toks|])
  }

  lemma Opens(js: string, max: nat, p: Parser, kind: Kind)
    requires p.Valid() && p.i < |js| && (kind == Object || kind == Array)
    requires js[p.i] == if kind == Object then '{' else '['
    ensures Fits(max, p, 1, 1) ==> ParseFrom(js, max, p) == ParseFrom(js, max, Opened(p, kind))
    ensures !Fits(max, p, 1, 1) ==> ParseFrom(js, max, p).Err?
  {
    hide ParseFrom, StringEnd, PrimitiveEnd;
    GrowTwice(p.toks, [], p.stack, 0);
    if Fits(max, p, 1, 1) {
      Turn(js, max, p, Opened(p, kind));
    } else {
      TurnFails(js, max, p);
    }
  }

  /** The tokens with the container at t, just after `front`, closed. */
  lemma ClosedTokens(p: Parser, kind: Kind, b: Body, end: nat)
    requires p.Valid()
    ensures var o, t := Opened(p, kind), |p.toks|;
            var toks := AfterBody(o, b).toks;
            && t < |toks| && toks[t].kind == kind
            && toks[t := toks[t].(end := end)]
               == Grow(p.toks, p.stack, 1)
                  + ([Tok(kind, p.i, end, Len(b), Top(p.stack))] + BodyToks(b, p.i + 1, t + 1, t))
  {
    hide Len, BodyToks, PrintBody, Grow;
    var o, t := Opened(p, kind), |p.toks|;
    var front, rest := Grow(p.toks, p.stack, 1), BodyToks(b, p.i + 1, t + 1, t);
    assert Top(o.stack) == t;
    GrowLast(front, Tok(kind, p.i, -1, 0, Top(p.stack)), o.stack, Len(b));
    assert AfterBody(o, b).toks == front + [Tok(kind, p.i, -1, Len(b), Top(p.stack))] + rest;
  }

  lemma GrowLast(front: seq<Tok>, tok: Tok, stack: seq<nat>, n: nat)
    requires stack != [] && stack[|stack| - 1] == |front|
    ensures Grow(front + [tok], stack, n) == front + [tok.(size := tok.size + n)]
  {}

  /** The container closes after its body. */
  lemma Closes(js: string, max: nat, p: Parser, v: Value)
    requires p.Valid() && v.Box? && (v.kind == Object || v.kind == Array)
    requires var e := p.i + 1 + |PrintBody(v.body)|; e < |js| && js[e] == if v.kind == Object then '}' else ']'
    ensures ParseFrom(js, max, AfterBody(Opened(p, v.kind), v.body)) == ParseFrom(js, max, After(p, v))
  {
    hide ParseFrom, StringEnd, PrimitiveEnd, PrintBody, BodyToks, Len, Grow;
    var q := AfterBody(Opened(p, v.kind), v.body);
    ClosedTokens(p, v.kind, v.body, q.i + 1);
    assert q.stack[..|q.stack| - 1] == p.stack;
    assert q.i + 1 == p.i + |Print(v)|;
    Turn(js, max, q, After(p, v));
  }

  // ---- Whole values ----

  lemma {:induction false} ValueParses(js: string, max: nat, p: Parser, v: Value)
    requires p.Valid() && |p.toks| <= max && |p.stack| <= MAX_DEPTH && Lexical(v) && At(js, p.i, Print(v))
    requires v.Prim? ==> Ended(js, p.i + |Print(v)|)
    ensures if Fits(max, p, Count(v), Height(v))
            then ParseFrom(js, max, p) == ParseFrom(js, max, After(p, v))
            else ParseFrom(js, max, p).Err?
    decreases v
  {
    hide ParseFrom, After, At, Ended, IsText, IsPrimitive, PrintBody, CountBody, HeightBody, Opened, AfterBody;
    match v
    case Str(s) => StringParses(js, max, p, s);
    case Prim(s) => PrimitiveParses(js, max, p, s);
    case Box(kind, body) =>
      var l, r := if kind == Object then "{" else "[", if kind == Object then "}" else "]";
      BoxIsAt(js, p, v, l, r);
      Opens(js, max, p, kind);
      var o := Opened(p, kind);
      OpenedHasShape(p, kind);
      if Fits(max, p, 1, 1) {
        BodyParses(js, max, o, body);
        if Fits(max, p, Count(v), Height(v)) { Closes(js, max, p, v); }
      }
  }

  lemma OpenedHasShape(p: Parser, kind: Kind)
    requires p.Valid()
    ensures var o := Opened(p, kind); o.i == p.i + 1 && |o.toks| == |p.toks| + 1 && |o.stack| == |p.stack| + 1
  {}

  lemma AfterHasShape(p: Parser, v: Value)
    requires p.Valid()
    ensures var q := After(p, v);
            q.i == p.i + |Print(v)| && |q.toks| == |p.toks| + Count(v) && q.stack == p.stack
  {}

  lemma BodyToksSplit(b: Body, at: nat, base: nat, parent: int)
    requires b.Item?
    ensures BodyToks(b, at, base, parent)
         == Toks(b.value, at + |b.gap|, base, parent)
            + BodyToks(b.rest, at + |b.gap| + |Print(b.value)|, base + Count(b.value), parent)
  {}

  lemma BoxIsAt(js: string, p: Parser, v: Value, l: string, r: string)
    requires v.Box? && Print(v) == l + PrintBody(v.body) + r && |l| == |r| == 1 && At(js, p.i, Print(v))
    ensures p.i < |js| && js[p.i] == l[0] && At(js, p.i + 1, PrintBody(v.body))
    ensures var e := p.i + 1 + |PrintBody(v.body)|;
            e < |js| && js[e] == r[0] && (IsDelimiter(r[0]) ==> Ended(js, e))
  {
    hide Print, PrintBody;
    AtConcat(js, p.i, l + PrintBody(v.body), r);
    AtConcat(js, p.i, l, PrintBody(v.body));
    AtChar(js, p.i, l, 0);
    AtChar(js, p.i + |l + PrintBody(v.body)|, r, 0);
  }

  lemma {:induction false} BodyParses(js: string, max: nat, p: Parser, b: Body)
    requires p.Valid() && |p.toks| <= max && 0 < |p.stack| <= MAX_DEPTH
    requires LexicalBody(b) && At(js, p.i, PrintBody(b)) && Ended(js, p.i + |PrintBody(b)|)
    ensures if Fits(max, p, CountBody(b), HeightBody(b))
            then ParseFrom(js, max, p) == ParseFrom(js, max, AfterBody(p, b))
            else ParseFrom(js, max, p).Err?
    decreases b
  {
    hide ParseFrom, After, At, Ended, IsGap, Lexical, Print, AfterBody;
    match b
    case End(gap) =>
      GapIsSkipped(js, max, p, gap);
      EmptyBody(p, b);
    case Item(gap, value, rest) =>
      AtConcat(js, p.i, gap + Print(value), PrintBody(rest));
      AtConcat(js, p.i, gap, Print(value));
      GapIsSkipped(js, max, p, gap);
      var p1 := p.(i := p.i + |gap|);
      if value.Prim? { PrimitiveIsEnded(js, p1.i + |Print(value)|, b); }
      ValueParses(js, max, p1, value);
      if Fits(max, p, Count(value), Height(value)) {
        var p2 := After(p1, value);
        AfterHasShape(p1, value);
        BodyParses(js, max, p2, rest);
        ItemThenRest(p, b);
      }
  }

  lemma EmptyBody(p: Parser, b: Body)
    requires p.Valid() && b.End?
    ensures AfterBody(p, b) == p.(i := p.i + |b.gap|)
  {
    GrowTwice(p.toks, [], p.stack, 0);
  }

  lemma ItemThenRest(p: Parser, b: Body)
    requires p.Valid() && p.stack != [] && b.Item?
    ensures AfterBody(After(p.(i := p.i + |b.gap|), b.value), b.rest) == AfterBody(p, b)
  {
    hide Toks, BodyToks, Print, Count, Grow;
    var at := p.i + |b.gap|;
    var v := Toks(b.value, at, |p.toks|, Top(p.stack));
    var r := BodyToks(b.rest, at + |Print(b.value)|, |p.toks| + Count(b.value), Top(p.stack));
    GrowTwice(p.toks, v, p.stack, Len(b.rest));
    BodyToksSplit(b, p.i, |p.toks|, Top(p.stack));
    var grown := Grow(p.toks, p.stack, 1 + Len(b.rest));
    assert grown + v + r == grown + (v + r);
  }

  /** Inside a container, what follows a primitive ends it. */
  lemma PrimitiveIsEnded(js: string, i: nat, b: Body)
    requires b.Item? && LexicalBody(b) && b.value.Prim? && At(js, i, PrintBody(b.rest))
    requires Ended(js, i + |PrintBody(b.rest)|)
    ensures Ended(js, i)
  {
    var gap := b.rest.gap;
    if gap != "" { AtChar(js, i, PrintBody(b.rest), 0); }
  }

  // ---- Documents ----

  lemma DocumentParses(js: string, max: nat, v: Value, before: string, after: string)
    requires Lexical(v) && IsGap(before) && IsGap(after) && max > 0
    requires At(js, 0, before) && At(js, |before|, Print(v)) && At(js, |before| + |Print(v)|, after)
    requires |js| == |before| + |Print(v)| + |after|
    ensures if Count(v) <= max && Height(v) <= MAX_DEPTH
            then ParseFrom(js, max, Parser(0, [], [])) == Ok(Toks(v, |before|, 0, -1))
            else ParseFrom(js, max, Parser(0, [], [])).Err?
  {
    hide ParseFrom, Lexical, Print, IsGap, At, After, Toks, Ended, Count, Height;
    var p1 := Parser(|before|, [], []);
    GapIsSkipped(js, max, Parser(0, [], []), before);
    EndedByGap(js, |before| + |Print(v)|, after);
    ValueParses(js, max, p1, v);
    if Fits(max, p1, Count(v), Height(v)) {
      AfterAll(p1, v);
      GapIsSkipped(js, max, After(p1, v), after);
      NothingLeft(js, max, Parser(|js|, Toks(v, |before|, 0, -1), []));
    }
  }

  lemma AfterAll(p: Parser, v: Value)
    requires p.toks == [] && p.stack == []
    ensures After(p, v) == Parser(p.i + |Print(v)|, Toks(v, p.i, 0, -1), [])
  {
    assert [] + Toks(v, p.i, 0, -1) == Toks(v, p.i, 0, -1);
  }

  lemma NothingLeft(js: string, max: nat, p: Parser)
    requires p.i == |js| && p.stack == []
    ensures ParseFrom(js, max, p) == Ok(p.toks)
  {}

  lemma EndedByGap(js: string, i: nat, gap: string)
    requires At(js, i, gap) && IsGap(gap) && i + |gap| == |js|
    ensures Ended(js, i)
  {
    if gap != "" { AtChar(js, i, gap, 0); }
  }

  /** Printing a value, with anything that is not a token around it, and parsing it back gives exactly its tokens when
      there are enough of them and it is nested no deeper than the ceiling; otherwise parsing fails. */
  lemma ParseUndoesPrint(v: Value, before: string, after: string, max: nat)
    requires Lexical(v) && IsGap(before) && IsGap(after)
    ensures var js := before + Print(v) + after;
            if Count(v) <= max && Height(v) <= MAX_DEPTH
            then Parse(js, max) == Ok(Toks(v, |before|, 0, -1))
            else Parse(js, max).Err?
  {
    hide ParseFrom, Lexical, Print, IsGap, Toks;
    var js := before + Print(v) + after;
    assert js[0..|js|] == js;
    AtConcat(js, 0, before + Print(v), after);
    AtConcat(js, 0, before, Print(v));
    if max > 0 { DocumentParses(js, max, v, before, after); }
  }
}
