/** The JSON tokeniser (Core/crypto/json.c, `json_parse`): iterative, with an explicit stack of open containers. */
module Json {

  const MAX_DEPTH: nat := 32

  datatype Kind = Undefined | Object | Array | String | Primitive

  /** `start` and `end` are byte offsets, quotes excluded; `end` is -1 while a container is open. */
  datatype Tok = Tok(kind: Kind, start: int, end: int, size: int, parent: int)

  datatype Error = Einval | Enospc | E2big

  datatype Result<T> = Ok(value: T) | Err(error: Error)

  predicate IsSpace(c: char) {
    c == '\t' || c == '\r' || c == '\n' || c == ' '
  }

  /** What ends a primitive. */
  predicate IsDelimiter(c: char) {
    IsSpace(c) || c == ',' || c == ']' || c == '}' || c == ':'
  }

  predicate IsPrintable(c: char) {
    32 <= c as int < 127
  }

  /** The closing quote of a string whose text starts at j, or the end of the input. A backslash hides the
      character after it. */
  function StringEnd(js: string, j: nat): (e: nat)
    requires j <= |js|
    ensures j <= e <= |js|
    decreases |js| - j
  {
    if j == |js| || js[j] == '"' then j
    else if js[j] == '\\' && j + 1 < |js| then StringEnd(js, j + 2)
    else StringEnd(js, j + 1)
  }

  /** The end of a primitive that starts at j; malformed when it holds anything unprintable. */
  function PrimitiveEnd(js: string, j: nat): (e: Result<nat>)
    requires j <= |js|
    ensures e.Ok? ==> j <= e.value <= |js|
    decreases |js| - j
  {
    if j == |js| || IsDelimiter(js[j]) then Ok(j)
    else if !IsPrintable(js[j]) then Err(Einval)
    else PrimitiveEnd(js, j + 1)
  }

  /** The parser between two characters: how far it is, the tokens so far, the open containers, outermost first. */
  datatype Parser = Parser(i: nat, toks: seq<Tok>, stack: seq<nat>) {
    predicate Valid() {
      forall k :: 0 <= k < |stack| ==> stack[k] < |toks|
    }
  }

  function Top(stack: seq<nat>): int {
    if stack == [] then -1 else stack[|stack| - 1]
  }

  /** The container in hand has one more child. */
  function Bump(toks: seq<Tok>, stack: seq<nat>): (r: seq<Tok>)
    requires stack != [] ==> stack[|stack| - 1] < |toks|
    ensures |r| == |toks|
  {
    if stack == [] then toks
    else var t := stack[|stack| - 1]; toks[t := toks[t].(size := toks[t].size + 1)]
  }

  /** Allocate a token and hang it under the container in hand. */
  function AddTok(p: Parser, kind: Kind, start: nat, end: int): seq<Tok>
    requires p.Valid()
  {
    Bump(p.toks, p.stack) + [Tok(kind, start, end, 0, Top(p.stack))]
  }

  /** One turn of the main loop. */
  function Step(js: string, max: nat, p: Parser): (r: Result<Parser>)
    requires p.i < |js| && p.Valid()
    ensures r.Ok? ==> p.i < r.value.i <= |js| && r.value.Valid()
  {
    var c := js[p.i];
    if c == '{' || c == '[' then
      if |p.toks| >= max then Err(Enospc)
      else if |p.stack| >= MAX_DEPTH then Err(E2big)
      else Ok(Parser(p.i + 1, AddTok(p, if c == '{' then Object else Array, p.i, -1), p.stack + [|p.toks|]))
    else if c == '}' || c == ']' then
      if p.stack == [] then Err(Einval)
      else
        var t := p.stack[|p.stack| - 1];
        if p.toks[t].kind != (if c == '}' then Object else Array) then Err(Einval)
        else Ok(Parser(p.i + 1, p.toks[t := p.toks[t].(end := p.i + 1)], p.stack[..|p.stack| - 1]))
    else if c == '"' then
      var e := StringEnd(js, p.i + 1);
      if e >= |js| then Err(Einval)
      else if |p.toks| >= max then Err(Enospc)
      else Ok(Parser(e + 1, AddTok(p, String, p.i + 1, e), p.stack))
    else if IsSpace(c) || c == ':' || c == ',' then Ok(p.(i := p.i + 1))
    else
      match PrimitiveEnd(js, p.i)
      case Err(e) => Err(e)
      case Ok(e) =>
        if |p.toks| >= max then Err(Enospc)
        else PrimitiveAdvances(js, p.i); Ok(Parser(e, AddTok(p, Primitive, p.i, e), p.stack))
  }

  lemma PrimitiveAdvances(js: string, j: nat)
    requires j < |js| && !IsDelimiter(js[j]) && PrimitiveEnd(js, j).Ok?
    ensures j < PrimitiveEnd(js, j).value
  {}

  function ParseFrom(js: string, max: nat, p: Parser): Result<seq<Tok>>
    requires p.i <= |js| && p.Valid()
    decreases |js| - p.i
  {
    if p.i == |js| then
      if p.stack != [] then Err(Einval) else Ok(p.toks)
    else
      match Step(js, max, p)
      case Err(e) => Err(e)
      case Ok(q) => ParseFrom(js, max, q)
  }

  /** `json_parse`. */
  function Parse(js: string, max: nat): Result<seq<Tok>> {
    if max == 0 then Err(Einval) else ParseFrom(js, max, Parser(0, [], []))
  }

  // ---- The code ----

  /** The parser's own variables: the caller's token array, filled up to count, and the stack, filled up to depth. */
  class Tokeniser {
    const js: string
    const tokens: array<Tok>
    const stack: array<nat>
    var i: nat
    var count: nat
    var depth: nat

    ghost predicate Valid()
      reads this, tokens, stack
    {
      && i <= |js| && count <= tokens.Length && stack.Length == MAX_DEPTH && depth <= MAX_DEPTH
      && forall k :: 0 <= k < depth ==> stack[k] < count
    }

    ghost function State(): Parser
      requires Valid()
      reads this, tokens, stack
    {
      Parser(i, tokens[..count], stack[..depth])
    }

    constructor (js: string, tokens: array<Tok>)
      ensures Valid() && this.js == js && this.tokens == tokens && fresh(stack)
      ensures State() == Parser(0, [], [])
    {
      this.js, this.tokens := js, tokens;
      stack := new nat[MAX_DEPTH](k => 0);
      i, count, depth := 0, 0, 0;
    }

    /** `alloc_tok`, then hang the token under the container in hand. */
    method Add(kind: Kind, start: nat, end: int) returns (ok: bool)
      requires Valid()
      modifies this`count, tokens
      ensures Valid() && ok == (old(count) < tokens.Length)
      ensures State() == if ok then old(State()).(toks := AddTok(old(State()), kind, start, end)) else old(State())
    {
      if count >= tokens.Length {
        return false;
      }
      ghost var before := State();
      tokens[count] := Tok(kind, start, end, 0, if depth > 0 then stack[depth - 1] else -1);
      if depth > 0 {
        tokens[stack[depth - 1]] := tokens[stack[depth - 1]].(size := tokens[stack[depth - 1]].size + 1);
      }
      count := count + 1;
      assert tokens[..count] == AddTok(before, kind, start, end);
      return true;
    }

    method Open() returns (e: Result<()>)
      requires Valid() && i < |js| && (js[i] == '{' || js[i] == '[')
      modifies this, tokens, stack
      ensures Valid()
      ensures match Step(js, tokens.Length, old(State()))
              case Ok(q) => e.Ok? && State() == q
              case Err(x) => e == Err(x)
    {
      var ok := Add(if js[i] == '{' then Object else Array, i, -1);
      if !ok {
        return Err(Enospc);
      }
      if depth >= MAX_DEPTH {
        return Err(E2big);
      }
      stack[depth] := count - 1;
      depth := depth + 1;
      i := i + 1;
      return Ok(());
    }

    method Close() returns (e: Result<()>)
      requires Valid() && i < |js| && (js[i] == '}' || js[i] == ']')
      modifies this`i, this`depth, tokens
      ensures Valid()
      ensures match Step(js, tokens.Length, old(State()))
              case Ok(q) => e.Ok? && State() == q
              case Err(x) => e == Err(x)
    {
      if depth == 0 {
        return Err(Einval);
      }
      var t := stack[depth - 1];
      if tokens[t].kind != (if js[i] == '}' then Object else Array) {
        return Err(Einval);
      }
      tokens[t] := tokens[t].(end := i + 1);
      depth := depth - 1;
      i := i + 1;
      return Ok(());
    }

    method ReadString() returns (e: Result<()>)
      requires Valid() && i < |js| && js[i] == '"'
      modifies this`i, this`count, tokens
      ensures Valid()
      ensures match Step(js, tokens.Length, old(State()))
              case Ok(q) => e.Ok? && State() == q
              case Err(x) => e == Err(x)
    {
      var start := i + 1;
      var j := start;
      while j < |js| && js[j] != '"'
        invariant j <= |js| && StringEnd(js, start) == StringEnd(js, j)
      {
        if js[j] == '\\' && j + 1 < |js| {
          j := j + 1;
        }
        j := j + 1;
      }
      if j >= |js| {
        return Err(Einval);
      }
      var ok := Add(String, start, j);
      if !ok {
        return Err(Enospc);
      }
      i := j + 1;
      return Ok(());
    }

    method ReadPrimitive() returns (e: Result<()>)
      requires Valid() && i < |js| && !IsDelimiter(js[i]) && js[i] !in ['{', '[', '"']
      modifies this`i, this`count, tokens
      ensures Valid()
      ensures match Step(js, tokens.Length, old(State()))
              case Ok(q) => e.Ok? && State() == q
              case Err(x) => e == Err(x)
    {
      var j := i;
      while j < |js| && !IsDelimiter(js[j])
        invariant i <= j <= |js| && PrimitiveEnd(js, i) == PrimitiveEnd(js, j)
      {
        if !IsPrintable(js[j]) {
          return Err(Einval);
        }
        j := j + 1;
      }
      var ok := Add(Primitive, i, j);
      if !ok {
        return Err(Enospc);
      }
      i := j;
      return Ok(());
    }
  }

  /** `json_parse`: how many of the caller's tokens were used, or an error. */
  method JsonParse(js: string, tokens: array<Tok>) returns (r: Result<nat>)
    modifies tokens
    ensures match Parse(js, tokens.Length)
            case Ok(ts) => r == Ok(|ts|) && |ts| <= tokens.Length && tokens[..|ts|] == ts
            case Err(e) => r == Err(e)
  {
    hide Step;
    if tokens.Length == 0 {
      return Err(Einval);
    }
    var t := new Tokeniser(js, tokens);
    while t.i < |js|
      invariant t.Valid() && t.js == js && t.tokens == tokens && fresh(t) && fresh(t.stack)
      invariant ParseFrom(js, tokens.Length, t.State()) == Parse(js, tokens.Length)
      decreases |js| - t.i
    {
      var c := js[t.i];
      var e: Result<()> := Ok(());
      if c == '{' || c == '[' {
        e := t.Open();
      } else if c == '}' || c == ']' {
        e := t.Close();
      } else if c == '"' {
        e := t.ReadString();
      } else if IsDelimiter(c) {
        SkipsDelimiter(js, tokens.Length, t.State());
        t.i := t.i + 1;
      } else {
        e := t.ReadPrimitive();
      }
      if e.Err? {
        return Err(e.error);
      }
    }
    if t.depth != 0 {
      return Err(Einval);
    }
    return Ok(t.count);
  }

  lemma SkipsDelimiter(js: string, max: nat, p: Parser)
    requires p.i < |js| && p.Valid() && IsDelimiter(js[p.i]) && js[p.i] != '}' && js[p.i] != ']'
    ensures Step(js, max, p) == Ok(p.(i := p.i + 1))
  {}
}
