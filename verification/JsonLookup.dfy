/** Print a document, parse it, look something up: the walkers find what the document says (Core/crypto/json.c). */
module JsonLookup {
  import opened Json
  import opened JsonWalk
  import opened JsonPrint
  import JsonNesting
  import opened Wrappers

  // ---- What the document says ----

  /** First-match lookup in the members of an object, a name followed by its value. */
  function Lookup(b: Body, key: string): Option<Value> {
    if b.End? || b.rest.End? then None
    else if b.value == Str(key) then Some(b.rest.value)
    else Lookup(b.rest.rest, key)
  }

  function Nth(b: Body, n: nat): Option<Value> {
    if b.End? then None else if n == 0 then Some(b.value) else Nth(b.rest, n - 1)
  }

  /** Follow names from object to object. */
  function Follow(v: Value, keys: seq<string>): Option<Value>
    decreases |keys|
  {
    if keys == [] then Some(v)
    else if v.Box? && v.kind == Object then
      match Lookup(v.body, keys[0])
      case None => None
      case Some(w) => Follow(w, keys[1..])
    else None
  }

  // ---- What the tokens say ----

  /** Token c and those after it are this value, printed at this offset. */
  ghost predicate Holds(js: string, t: seq<Tok>, c: nat, v: Value, at: nat, parent: int) {
    && Lexical(v) && At(js, at, Print(v))
    && c + Count(v) <= |t| && t[c..c + Count(v)] == Toks(v, at, c, parent)
    && StartsFrom(t, c + Count(v), at + |Print(v)|)
  }

  ghost predicate StartsFrom(t: seq<Tok>, i: nat, at: nat) {
    i < |t| ==> t[i].start >= at
  }

  ghost predicate HoldsBody(js: string, t: seq<Tok>, c: nat, b: Body, at: nat, parent: int) {
    && LexicalBody(b) && At(js, at, PrintBody(b))
    && c + CountBody(b) <= |t| && t[c..c + CountBody(b)] == BodyToks(b, at, c, parent)
    && StartsFrom(t, c + CountBody(b), at + |PrintBody(b)|)
  }

  /** Token c is this value. */
  ghost predicate Found(js: string, t: seq<Tok>, c: int, v: Value) {
    0 <= c && exists at: nat, parent: int :: Holds(js, t, c, v, at, parent)
  }

  lemma HoldsNonempty(js: string, t: seq<Tok>, c: nat, v: Value, at: nat, parent: int)
    requires Holds(js, t, c, v, at, parent)
    ensures c < |t| && t[c] == Toks(v, at, c, parent)[0]
  {
    assert t[c] == t[c..c + Count(v)][0];
  }

  lemma {:induction false} TokensInside(v: Value, at: nat, base: nat, parent: int, k: nat)
    requires Lexical(v) && k < Count(v)
    ensures at <= Toks(v, at, base, parent)[k].start < at + |Print(v)|
    decreases v
  {
    if v.Box? && k > 0 { BodyTokensInside(v.body, at + 1, base + 1, base, k - 1); }
  }

  lemma {:induction false} BodyTokensInside(b: Body, at: nat, base: nat, parent: int, k: nat)
    requires LexicalBody(b) && k < CountBody(b)
    ensures at <= BodyToks(b, at, base, parent)[k].start < at + |PrintBody(b)|
    decreases b
  {
    var next := at + |b.gap| + |Print(b.value)|;
    if k < Count(b.value) {
      TokensInside(b.value, at + |b.gap|, base, parent, k);
    } else {
      BodyTokensInside(b.rest, next, base + Count(b.value), parent, k - Count(b.value));
    }
  }

  /** `json_skip` steps over a value and all it holds. */
  lemma SkipsTheValue(js: string, t: seq<Tok>, c: nat, v: Value, at: nat, parent: int)
    requires Holds(js, t, c, v, at, parent)
    ensures Skip(t, c) == c + Count(v)
  {
    HoldsNonempty(js, t, c, v, at, parent);
    forall k | c < k < c + Count(v) ensures t[k].start < t[c].end {
      assert t[k] == t[c..c + Count(v)][k - c];
      TokensInside(v, at, c, parent, k - c);
    }
    SkipStops(t, c + 1, c + Count(v), t[c].end);
  }

  lemma {:induction false} SkipStops(t: seq<Tok>, i: nat, j: nat, end: int)
    requires i <= j <= |t| && (j < |t| ==> t[j].start >= end) && forall k :: i <= k < j ==> t[k].start < end
    ensures SkipFrom(t, i, end) == j
    decreases j - i
  {
    if i < j { SkipStops(t, i + 1, j, end); }
  }

  /** A container's body. */
  lemma Enter(js: string, t: seq<Tok>, c: nat, v: Value, at: nat, parent: int)
    requires Holds(js, t, c, v, at, parent) && v.Box?
    ensures c < |t| && t[c].kind == v.kind && t[c].end == at + |Print(v)|
    ensures HoldsBody(js, t, c + 1, v.body, at + 1, c)
  {
    HoldsNonempty(js, t, c, v, at, parent);
    var l, r := if v.kind == Object then "{" else "[", if v.kind == Object then "}" else "]";
    BodyIsAt(js, at, v, l, r);
    var n := CountBody(v.body);
    assert Count(v) == n + 1 && |Print(v)| == |PrintBody(v.body)| + 2 && LexicalBody(v.body);
    hide Print, PrintBody, At, Lexical, LexicalBody, Count, CountBody;
    var all := t[c..c + Count(v)];
    assert all[1..] == BodyToks(v.body, at + 1, c + 1, c);
    assert t[c + 1..c + 1 + n] == all[1..];
  }

  lemma BodyIsAt(js: string, at: nat, v: Value, l: string, r: string)
    requires v.Box? && Print(v) == l + PrintBody(v.body) + r && |l| == 1 && At(js, at, Print(v))
    ensures At(js, at + 1, PrintBody(v.body))
  {
    hide Print, PrintBody;
    AtConcat(js, at, l + PrintBody(v.body), r);
    AtConcat(js, at, l, PrintBody(v.body));
  }

  /** The first value of a body, and the rest of it. */
  lemma Split(js: string, t: seq<Tok>, c: nat, b: Body, at: nat, parent: int)
    requires HoldsBody(js, t, c, b, at, parent) && b.Item?
    ensures Holds(js, t, c, b.value, at + |b.gap|, parent)
    ensures HoldsBody(js, t, c + Count(b.value), b.rest, at + |b.gap| + |Print(b.value)|, parent)
  {
    hide Toks, Print, At, Lexical;
    var n, m := Count(b.value), CountBody(b.rest);
    var next := at + |b.gap| + |Print(b.value)|;
    AtConcat(js, at, b.gap + Print(b.value), PrintBody(b.rest));
    AtConcat(js, at, b.gap, Print(b.value));
    var all := t[c..c + n + m];
    assert all == BodyToks(b, at, c, parent);
    assert t[c..c + n] == all[..n];
    assert t[c + n..c + n + m] == all[n..];
    if m > 0 {
      BodyTokensInside(b.rest, next, c + n, parent, 0);
      assert t[c + n] == all[n];
    } else {
      CountNoBody(b.rest);
    }
  }

  lemma CountNoBody(b: Body)
    requires CountBody(b) == 0
    ensures b.End?
  {}

  /** Where the values of a body are. */
  function Places(b: Body, c: nat): seq<nat> {
    if b.End? then [] else [c] + Places(b.rest, c + Count(b.value))
  }

  lemma {:induction false} WalkVisitsTheBody(js: string, t: seq<Tok>, c: nat, b: Body, at: nat, parent: int, limit: nat)
    requires HoldsBody(js, t, c, b, at, parent)
    requires at + |PrintBody(b)| < limit && StartsFrom(t, c + CountBody(b), limit)
    ensures Walk(t, c, limit) == Places(b, c)
    decreases b
  {
    hide At, Print, Lexical, Toks, BodyToks, Skip;
    if b.Item? {
      Split(js, t, c, b, at, parent);
      SkipsTheValue(js, t, c, b.value, at + |b.gap|, parent);
      FirstTokenInside(js, t, c, b.value, at + |b.gap|, parent);
      WalkVisitsTheBody(js, t, c + Count(b.value), b.rest, at + |b.gap| + |Print(b.value)|, parent, limit);
    }
  }

  lemma FirstTokenInside(js: string, t: seq<Tok>, c: nat, v: Value, at: nat, parent: int)
    requires Holds(js, t, c, v, at, parent)
    ensures c < |t| && t[c].start < at + |Print(v)|
  {
    HoldsNonempty(js, t, c, v, at, parent);
    TokensInside(v, at, c, parent, 0);
  }

  /** The walkers see a container's values, and only those. */
  lemma ItemsArePlaces(js: string, t: seq<Tok>, c: nat, v: Value, at: nat, parent: int)
    requires Holds(js, t, c, v, at, parent) && v.Box?
    ensures c < |t| && Items(t, c) == Places(v.body, c + 1)
    ensures HoldsBody(js, t, c + 1, v.body, at + 1, c)
  {
    Enter(js, t, c, v, at, parent);
    WalkVisitsTheBody(js, t, c + 1, v.body, at + 1, c, t[c].end);
  }

  /** A string or a primitive is found with its own text. */
  lemma TextIsKept(js: string, t: seq<Tok>, c: int, v: Value)
    requires Found(js, t, c, v)
    ensures 0 <= c < |t| && t[c].kind == match v { case Str(_) => String case Prim(_) => Primitive case Box(k, _) => k }
    ensures if v.Box? then t[c].kind == Object || t[c].kind == Array
            else 0 <= t[c].start <= t[c].end <= |js| && Text(js, t[c]) == v.text
  {
    var at: nat, parent: int :| Holds(js, t, c, v, at, parent);
    HoldsNonempty(js, t, c, v, at, parent);
    if v.Str? {
      AtConcat(js, at, "\"" + v.text, "\"");
      AtConcat(js, at, "\"", v.text);
    }
  }

  lemma {:induction false} MatchIsLookup(
      js: string, t: seq<Tok>, c: nat, b: Body, at: nat, parent: int, key: string)
    requires Closed(t, |js|) && HoldsBody(js, t, c, b, at, parent)
    requires forall k :: 0 <= k < |Places(b, c)| ==> Places(b, c)[k] < |t|
    ensures match Lookup(b, key)
            case None => FirstMatch(js, t, Places(b, c), key) == -1
            case Some(v) => Found(js, t, FirstMatch(js, t, Places(b, c), key), v)
    decreases b
  {
    hide At, Print, Lexical, Toks, BodyToks, Holds, HoldsBody, Text, Count, Found;
    if b.Item? && b.rest.Item? {
      Split(js, t, c, b, at, parent);
      var c2, at2 := c + Count(b.value), at + |b.gap| + |Print(b.value)|;
      Witness(js, t, c, b.value, at + |b.gap|, parent);
      TextIsKept(js, t, c, b.value);
      Split(js, t, c2, b.rest, at2, parent);
      Witness(js, t, c2, b.rest.value, at2 + |b.rest.gap|, parent);
      var c3, at3 := c2 + Count(b.rest.value), at2 + |b.rest.gap| + |Print(b.rest.value)|;
      var places := Places(b, c);
      assert places == [c, c2] + Places(b.rest.rest, c3);
      assert places[2..] == Places(b.rest.rest, c3);
      assert forall k :: 0 <= k < |places[2..]| ==> places[2..][k] == places[k + 2];
      MatchIsLookup(js, t, c3, b.rest.rest, at3, parent, key);
      assert b.value == Str(key) <==> t[c].kind == String && Text(js, t[c]) == key;
      assert FirstMatch(js, t, places, key)
          == if b.value == Str(key) then c2 else FirstMatch(js, t, places[2..], key);
    } else {
      assert |Places(b, c)| < 2;
    }
  }

  lemma Witness(js: string, t: seq<Tok>, c: nat, v: Value, at: nat, parent: int)
    requires Holds(js, t, c, v, at, parent)
    ensures Found(js, t, c, v)
  {}

  // ---- The theorems ----

  /** A printed document that fits is found, whole, at token 0. */
  lemma PrintedIsFound(v: Value, before: string, after: string, max: nat)
    requires Lexical(v) && IsGap(before) && IsGap(after) && Count(v) <= max && Height(v) <= MAX_DEPTH
    ensures var js := before + Print(v) + after;
            Parse(js, max).Ok? && Found(js, Parse(js, max).value, 0, v)
  {
    hide Parse, Lexical, Print;
    ParseUndoesPrint(v, before, after, max);
    var js := before + Print(v) + after;
    var t := Parse(js, max).value;
    assert js[|before|..|before| + |Print(v)|] == Print(v);
    assert t[0..Count(v)] == t;
    assert Holds(js, t, 0, v, |before|, -1);
  }

  /** `json_object_get` in an object found is first-match lookup in the object. */
  lemma GetIsLookup(js: string, t: seq<Tok>, c: nat, v: Value, key: string)
    requires Closed(t, |js|) && Found(js, t, c, v) && v.Box? && v.kind == Object
    ensures c < |t| && t[c].kind == Object
    ensures match Lookup(v.body, key)
            case None => FirstMatch(js, t, Items(t, c), key) == -1
            case Some(w) => Found(js, t, FirstMatch(js, t, Items(t, c), key), w)
  {
    hide Holds, HoldsBody, Items, Closed, Places, FirstMatch;
    var at: nat, parent: int :| Holds(js, t, c, v, at, parent);
    TextIsKept(js, t, c, v);
    ItemsArePlaces(js, t, c, v, at, parent);
    MatchIsLookup(js, t, c + 1, v.body, at + 1, c, key);
  }

  /** `json_array_get` in an array found is the n-th element. */
  lemma ElementIsNth(js: string, t: seq<Tok>, c: nat, v: Value, n: nat)
    requires Found(js, t, c, v) && v.Box?
    ensures c < |t|
    ensures match Nth(v.body, n)
            case None => n >= |Items(t, c)|
            case Some(w) => n < |Items(t, c)| && Found(js, t, Items(t, c)[n], w)
  {
    var at: nat, parent: int :| Holds(js, t, c, v, at, parent);
    ItemsArePlaces(js, t, c, v, at, parent);
    PlaceIsNth(js, t, c + 1, v.body, at + 1, c, n);
  }

  lemma {:induction false} PlaceIsNth(js: string, t: seq<Tok>, c: nat, b: Body, at: nat, parent: int, n: nat)
    requires HoldsBody(js, t, c, b, at, parent)
    ensures match Nth(b, n)
            case None => n >= |Places(b, c)|
            case Some(w) => n < |Places(b, c)| && Found(js, t, Places(b, c)[n], w)
    decreases b
  {
    hide Holds, HoldsBody, Print, Toks, BodyToks, Count;
    if b.Item? {
      Split(js, t, c, b, at, parent);
      if n == 0 {
        assert Holds(js, t, c, b.value, at + |b.gap|, parent);
      } else {
        PlaceIsNth(js, t, c + Count(b.value), b.rest, at + |b.gap| + |Print(b.value)|, parent, n - 1);
      }
    }
  }

  /** Repeated `json_object_get`, as the header reader does it. */
  function GetPath(js: string, t: seq<Tok>, c: int, keys: seq<string>): int
    requires Closed(t, |js|)
    decreases |keys|
  {
    if keys == [] then c
    else if 0 <= c < |t| && t[c].kind == Object then GetPath(js, t, FirstMatch(js, t, Items(t, c), keys[0]), keys[1..])
    else -1
  }

  /** Print any document that fits, parse it and follow any names through it: the token reached is the value the
      document has there, and none is reached exactly when it has none. */
  lemma PrintParseFollow(v: Value, before: string, after: string, max: nat, keys: seq<string>)
    requires Lexical(v) && IsGap(before) && IsGap(after) && Count(v) <= max && Height(v) <= MAX_DEPTH
    ensures var js := before + Print(v) + after;
            && Parse(js, max).Ok? && Closed(Parse(js, max).value, |js|)
            && match Follow(v, keys)
               case None => GetPath(js, Parse(js, max).value, 0, keys) == -1
               case Some(w) => Found(js, Parse(js, max).value, GetPath(js, Parse(js, max).value, 0, keys), w)
  {
    hide Parse, Lexical, Print, Found, Follow, GetPath;
    var js := before + Print(v) + after;
    PrintedIsFound(v, before, after, max);
    JsonNesting.AcceptedIsSound(js, max);
    PathIsFollow(js, Parse(js, max).value, 0, v, keys);
  }

  lemma FoundIsIndex(js: string, t: seq<Tok>, c: int, v: Value)
    requires Found(js, t, c, v)
    ensures c >= 0
  {}

  lemma {:induction false} PathIsFollow(js: string, t: seq<Tok>, c: nat, v: Value, keys: seq<string>)
    requires Closed(t, |js|) && Found(js, t, c, v)
    ensures match Follow(v, keys)
            case None => GetPath(js, t, c, keys) == -1
            case Some(w) => Found(js, t, GetPath(js, t, c, keys), w)
    decreases |keys|
  {
    hide Closed, Found, Lookup, FirstMatch, Items;
    TextIsKept(js, t, c, v);
    if keys != [] && v.Box? && v.kind == Object {
      GetIsLookup(js, t, c, v, keys[0]);
      var next := FirstMatch(js, t, Items(t, c), keys[0]);
      if Lookup(v.body, keys[0]).Some? {
        FoundIsIndex(js, t, next, Lookup(v.body, keys[0]).value);
        PathIsFollow(js, t, next, Lookup(v.body, keys[0]).value, keys[1..]);
      } else {
        NoPath(js, t, keys[1..]);
      }
    }
  }

  lemma {:induction false} NoPath(js: string, t: seq<Tok>, keys: seq<string>)
    requires Closed(t, |js|)
    ensures GetPath(js, t, -1, keys) == -1
  {}
}
