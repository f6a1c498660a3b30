/**
 The walkers of Core/crypto/json.c and `json_object_key_at` of Core/crypto/luks.c. They step by byte range; on every
 accepted document they visit exactly the tokens whose `parent` is the container, in order.
 */
module JsonWalk {
  import opened Json
  import opened JsonNesting

  // ---- Stepping by byte range ----

  function SkipFrom(t: seq<Tok>, i: nat, end: int): (r: nat)
    requires i <= |t|
    ensures i <= r <= |t| && (r < |t| ==> t[r].start >= end)
    ensures forall b :: i <= b < r ==> t[b].start < end
    decreases |t| - i
  {
    if i < |t| && t[i].start < end then SkipFrom(t, i + 1, end) else i
  }

  /** `json_skip`: the index just past the tokens that start before this one ends. */
  function Skip(t: seq<Tok>, idx: int): (r: nat)
    ensures if idx < |t| then idx < r <= |t| else r == |t|
  {
    if idx < 0 || idx >= |t| then |t| else SkipFrom(t, idx + 1, t[idx].end)
  }

  predicate Within(t: seq<Tok>, i: nat, limit: int) {
    i < |t| && t[i].start < limit
  }

  /** The tokens a walk from i visits: step over each whole subtree until the limit. */
  function Walk(t: seq<Tok>, i: nat, limit: int): (r: seq<nat>)
    requires i <= |t|
    ensures forall k :: 0 <= k < |r| ==> i <= r[k] < |t|
    decreases |t| - i
  {
    if Within(t, i, limit) then [i] + Walk(t, Skip(t, i), limit) else []
  }

  /** What the walkers see in a container. */
  function Items(t: seq<Tok>, c: nat): (r: seq<nat>)
    requires c < |t|
    ensures forall k :: 0 <= k < |r| ==> c < r[k] < |t|
  {
    Walk(t, c + 1, t[c].end)
  }

  // ---- Stepping by the parent links ----

  /** The tokens from i on whose parent is c. */
  function ChildrenFrom(par: seq<int>, c: nat, i: nat): seq<nat>
    decreases |par| - i
  {
    if i >= |par| then [] else (if par[i] == c then [i] else []) + ChildrenFrom(par, c, i + 1)
  }

  function Children(t: seq<Tok>, c: nat): seq<nat> {
    ChildrenFrom(Parents(t), c, 0)
  }

  /** A stretch with no child of c contributes nothing. */
  lemma {:induction false} NoChildren(par: seq<int>, c: nat, i: nat, j: nat)
    requires i <= j <= |par| && forall b :: i <= b < j ==> par[b] != c
    ensures ChildrenFrom(par, c, i) == ChildrenFrom(par, c, j)
    decreases j - i
  {
    if i < j { NoChildren(par, c, i + 1, j); }
  }

  lemma {:induction false} ChildrenAreCounted(par: seq<int>, c: nat, i: nat)
    requires i <= |par|
    ensures CountChildren(par[..i], c) + |ChildrenFrom(par, c, i)| == CountChildren(par, c)
    decreases |par| - i
  {
    if i < |par| {
      ChildrenAreCounted(par, c, i + 1);
      assert par[..i + 1][..i] == par[..i];
    } else {
      assert par[..i] == par;
    }
  }

  // ---- They agree ----

  /** The first token after a container, if inside it, is its child. */
  lemma FirstChild(t: seq<Tok>, len: nat, c: nat)
    requires Sound(t, len) && c + 1 < |t| && t[c + 1].start < t[c].end
    ensures t[c + 1].parent == c
  {
    var par := Parents(t);
    assert Inside(t, c, c + 1);
    if par[c + 1] != c { AncestorIsEarlier(par, c, par[c + 1]); }
  }

  /** Nothing in the subtree of one child is a child of the container. */
  lemma SubtreeHoldsNoSibling(t: seq<Tok>, len: nat, c: nat, i: nat, b: nat)
    requires Sound(t, len) && c < i < b < Skip(t, i) <= |t|
    ensures Ancestor(Parents(t), i, b) && t[b].parent != c
  {
    var par := Parents(t);
    assert Inside(t, i, b);
    assert par[b] == t[b].parent;
    if par[b] != i { AncestorIsEarlier(par, i, par[b]); }
  }

  /** The token after the subtree of one child, if still inside the container, is the next child. */
  lemma NextSibling(t: seq<Tok>, len: nat, c: nat, i: nat)
    requires Sound(t, len) && c < i < |t| && t[i].parent == c
    requires Within(t, Skip(t, i), t[c].end)
    ensures t[Skip(t, i)].parent == c
  {
    var par, j := Parents(t), Skip(t, i);
    assert Inside(t, c, j) && !Inside(t, i, j);
    var p := par[j];
    assert p == t[j].parent && par[i] == c;
    if p != c {
      AncestorIsEarlier(par, c, p);
      if p > i {
        SubtreeHoldsNoSibling(t, len, c, i, p);
      } else if p < i {
        assert Ancestor(par, p, j);
        assert Inside(t, p, j) && Inside(t, p, i);
        AncestorIsEarlier(par, p, c);
      }
    }
  }

  lemma {:induction false} WalkIsChildrenFrom(t: seq<Tok>, len: nat, c: nat, i: nat)
    requires Sound(t, len) && c < i <= |t|
    requires Within(t, i, t[c].end) ==> t[i].parent == c
    ensures Walk(t, i, t[c].end) == ChildrenFrom(Parents(t), c, i)
    decreases |t| - i
  {
    hide Nested, Sized, Depth;
    var par := Parents(t);
    if Within(t, i, t[c].end) {
      var j := Skip(t, i);
      forall b | i < b < j ensures par[b] != c {
        SubtreeHoldsNoSibling(t, len, c, i, b);
      }
      NoChildren(par, c, i + 1, j);
      if Within(t, j, t[c].end) { NextSibling(t, len, c, i); }
      WalkIsChildrenFrom(t, len, c, j);
    } else {
      forall b | i <= b < |t| ensures par[b] != c {
        assert b == i || t[i].start < t[b].start;
        assert !Inside(t, c, b);
        assert !Ancestor(par, c, b);
      }
      NoChildren(par, c, i, |t|);
    }
  }

  /** On every accepted document the walk over a token's byte range visits exactly the tokens whose parent it is, in
      order, and the token's size is how many there are. */
  lemma WalkIsChildren(js: string, max: nat, c: nat)
    requires Parse(js, max).Ok? && c < |Parse(js, max).value|
    ensures var t := Parse(js, max).value; Items(t, c) == Children(t, c) && |Items(t, c)| == t[c].size
  {
    hide Parse;
    AcceptedIsSound(js, max);
    SoundItems(Parse(js, max).value, |js|, c);
  }

  lemma Prepends(rest: seq<nat>, i: nat)
    requires (forall b :: b in rest ==> i < b) && forall k, l :: 0 <= k < l < |rest| ==> rest[k] < rest[l]
    ensures var r := [i] + rest;
            && (forall b :: b in r <==> b == i || b in rest)
            && (forall k, l :: 0 <= k < l < |r| ==> r[k] < r[l])
  {
    assert forall k :: 0 <= k < |rest| ==> rest[k] in rest;
  }

  lemma {:induction false} ChildrenExactly(par: seq<int>, c: nat, i: nat)
    ensures var r := ChildrenFrom(par, c, i);
            && (forall b :: b in r <==> i <= b < |par| && par[b] == c)
            && (forall k, l :: 0 <= k < l < |r| ==> r[k] < r[l])
    decreases |par| - i
  {
    if i < |par| {
      ChildrenExactly(par, c, i + 1);
      Prepends(ChildrenFrom(par, c, i + 1), i);
    }
  }

  /** Said without the walk: each child once, in order of position, and nothing else. */
  lemma VisitsExactlyTheChildren(js: string, max: nat, c: nat)
    requires Parse(js, max).Ok? && c < |Parse(js, max).value|
    ensures var t := Parse(js, max).value;
            && (forall b :: b in Items(t, c) <==> 0 <= b < |t| && t[b].parent == c)
            && (forall k, l :: 0 <= k < l < |Items(t, c)| ==> Items(t, c)[k] < Items(t, c)[l])
  {
    hide Parse, Items, ChildrenFrom;
    WalkIsChildren(js, max, c);
    var t := Parse(js, max).value;
    ChildrenExactly(Parents(t), c, 0);
    assert forall b :: 0 <= b < |t| ==> Parents(t)[b] == t[b].parent;
  }

  lemma SoundItems(t: seq<Tok>, len: nat, c: nat)
    requires Sound(t, len) && c < |t|
    ensures Items(t, c) == Children(t, c) && |Items(t, c)| == t[c].size
  {
    hide Nested;
    var par := Parents(t);
    if Within(t, c + 1, t[c].end) { FirstChild(t, len, c); }
    WalkIsChildrenFrom(t, len, c, c + 1);
    forall b | 0 <= b <= c ensures par[b] != c {}
    NoChildren(par, c, 0, c + 1);
    ChildrenAreCounted(par, c, 0);
  }

  // ---- What the walkers compute ----

  /** Every token lies inside the document. */
  ghost predicate Closed(t: seq<Tok>, len: nat) {
    forall a :: 0 <= a < |t| ==> 0 <= t[a].start <= t[a].end <= len
  }

  function Text(js: string, tok: Tok): (s: string)
    requires 0 <= tok.start <= tok.end <= |js|
    ensures |s| == tok.end - tok.start
  {
    js[tok.start..tok.end]
  }

  /** The value after the first key that is a string with this text; a last key without a value does not count. */
  function FirstMatch(js: string, t: seq<Tok>, items: seq<nat>, key: string): (v: int)
    requires Closed(t, |js|) && forall k :: 0 <= k < |items| ==> items[k] < |t|
    ensures v == -1 || v in items
  {
    if |items| < 2 then -1
    else if t[items[0]].kind == String && Text(js, t[items[0]]) == key then items[1]
    else FirstMatch(js, t, items[2..], key)
  }

  method JsonSkip(t: seq<Tok>, idx: int) returns (r: nat)
    ensures r == Skip(t, idx)
  {
    if idx < 0 || idx >= |t| {
      return |t|;
    }
    var end := t[idx].end;
    r := idx + 1;
    while r < |t| && t[r].start < end
      invariant r <= |t| && SkipFrom(t, r, end) == Skip(t, idx)
    {
      r := r + 1;
    }
  }

  method JsonEquals(js: string, t: seq<Tok>, idx: int, s: string) returns (r: bool)
    requires Closed(t, |js|)
    ensures r <==> 0 <= idx < |t| && Text(js, t[idx]) == s
  {
    if idx < 0 || idx >= |t| {
      return false;
    }
    return t[idx].end - t[idx].start == |s| && js[t[idx].start..t[idx].end] == s;
  }

  /** `json_object_get`. */
  method ObjectGet(js: string, t: seq<Tok>, obj: int, key: string) returns (r: int)
    requires Closed(t, |js|)
    ensures r == if 0 <= obj < |t| && t[obj].kind == Object then FirstMatch(js, t, Items(t, obj), key) else -1
  {
    hide Text, Closed, Skip;
    if obj < 0 || obj >= |t| || t[obj].kind != Object {
      return -1;
    }
    var limit := t[obj].end;
    var i := obj + 1;
    while i < |t| && t[i].start < limit
      invariant obj < i <= |t|
      invariant FirstMatch(js, t, Walk(t, i, limit), key) == FirstMatch(js, t, Items(t, obj), key)
      decreases |t| - i
    {
      var v := JsonSkip(t, i);
      if v >= |t| || t[v].start >= limit {
        break;
      }
      var next := JsonSkip(t, v);
      assert Walk(t, i, limit) == [i, v] + Walk(t, next, limit);
      assert Walk(t, i, limit)[2..] == Walk(t, next, limit);
      if t[i].kind == String {
        var same := JsonEquals(js, t, i, key);
        if same {
          return v;
        }
      }
      i := next;
    }
    return -1;
  }

  /** `json_array_get`. */
  method ArrayGet(t: seq<Tok>, arr: int, n: int) returns (r: int)
    ensures (0 <= arr < |t| && t[arr].kind == Array && 0 <= n) ==>
      r == if n < |Items(t, arr)| then Items(t, arr)[n] else -1
    ensures !(0 <= arr < |t| && t[arr].kind == Array && 0 <= n) ==> r == -1
  {
    hide Skip;
    if arr < 0 || arr >= |t| || t[arr].kind != Array || n < 0 {
      return -1;
    }
    var limit := t[arr].end;
    var i, e := arr + 1, 0;
    while i < |t| && t[i].start < limit
      invariant arr < i <= |t| && 0 <= e <= n
      invariant e <= |Items(t, arr)| && Items(t, arr)[e..] == Walk(t, i, limit)
      decreases |t| - i
    {
      assert Items(t, arr)[e] == i;
      if e == n {
        return i;
      }
      var next := JsonSkip(t, i);
      assert Items(t, arr)[e + 1..] == Items(t, arr)[e..][1..];
      i, e := next, e + 1;
    }
    return -1;
  }

  /** Pairs of a key and its value. */
  function Members(t: seq<Tok>, obj: int): nat {
    if 0 <= obj < |t| && t[obj].kind == Object then |Items(t, obj)| / 2 else 0
  }

  /** Every other item, whether or not another follows it. */
  function KeyAt(t: seq<Tok>, obj: int, n: int): int {
    if 0 <= obj < |t| && t[obj].kind == Object && 0 <= n && 2 * n < |Items(t, obj)| then Items(t, obj)[2 * n] else -1
  }

  /** `json_object_count`. */
  method ObjectCount(t: seq<Tok>, obj: int) returns (members: nat)
    ensures members == Members(t, obj)
  {
    hide Skip;
    if obj < 0 || obj >= |t| || t[obj].kind != Object {
      return 0;
    }
    var limit := t[obj].end;
    var i := obj + 1;
    members := 0;
    while i < |t| && t[i].start < limit
      invariant obj < i <= |t| && 2 * members + |Walk(t, i, limit)| == |Items(t, obj)|
      decreases |t| - i
    {
      var v := JsonSkip(t, i);
      if v >= |t| || t[v].start >= limit {
        break;
      }
      var next := JsonSkip(t, v);
      assert Walk(t, i, limit) == [i, v] + Walk(t, next, limit);
      i, members := next, members + 1;
    }
  }

  /** Later tokens do not start earlier. */
  ghost predicate Ascending(t: seq<Tok>) {
    forall a, b :: 0 <= a < b < |t| ==> t[a].start <= t[b].start
  }

  /** Past the limit there is nothing more to see. */
  lemma PastTheLimit(t: seq<Tok>, i: nat, j: nat, limit: int)
    requires Ascending(t) && i <= j <= |t| && !Within(t, i, limit)
    ensures Walk(t, j, limit) == []
  {}

  /** `json_object_key_at`: it steps over a key and its value without looking for the end between them. */
  method ObjectKeyAt(t: seq<Tok>, obj: int, n: int) returns (r: int)
    requires Ascending(t)
    ensures r == KeyAt(t, obj, n)
  {
    hide Skip, Ascending;
    if obj < 0 || obj >= |t| || t[obj].kind != Object {
      return -1;
    }
    var limit := t[obj].end;
    var i, m := obj + 1, 0;
    ghost var items := Items(t, obj);
    ghost var seen := 0;
    while i < |t| && t[i].start < limit
      invariant obj < i <= |t| && 0 <= m && (0 <= n ==> m <= n)
      invariant seen <= |items| && seen <= 2 * m && items[seen..] == Walk(t, i, limit)
      invariant items[seen..] != [] ==> seen == 2 * m
      decreases |t| - i
    {
      assert items[seen] == i;
      if m == n {
        return i;
      }
      var v := JsonSkip(t, i);
      var next := JsonSkip(t, v);
      assert items[seen + 1..] == items[seen..][1..] == Walk(t, v, limit);
      if Within(t, v, limit) {
        assert items[seen + 2..] == items[seen + 1..][1..] == Walk(t, next, limit);
        seen := seen + 2;
      } else {
        PastTheLimit(t, v, next, limit);
        seen := seen + 1;
      }
      i, m := next, m + 1;
    }
    return -1;
  }

  /** A last item that is alone is no match. */
  lemma {:induction false} LoneKeyIsNoMatch(js: string, t: seq<Tok>, items: seq<nat>, key: string)
    requires Closed(t, |js|) && (forall k :: 0 <= k < |items| ==> items[k] < |t|) && |items| % 2 == 1
    ensures FirstMatch(js, t, items, key) == FirstMatch(js, t, items[..|items| - 1], key)
    decreases |items|
  {
    hide Closed, Text;
    if |items| >= 2 {
      var front := items[..|items| - 1];
      assert front[2..] == items[2..][..|items[2..]| - 1];
      LoneKeyIsNoMatch(js, t, items[2..], key);
    }
  }

  /** In every accepted document: `json_object_key_at` finds a key past the last that `json_object_count` counts exactly
      when the object's `size` is odd. It is one key then, the object's last child, and no name that `json_object_get`
      is given finds it. */
  lemma KeyPastTheCountIff(js: string, max: nat, c: nat)
    requires Parse(js, max).Ok?
    requires var t := Parse(js, max).value; c < |t| && t[c].kind == Object
    ensures var t := Parse(js, max).value;
            var items, n := Items(t, c), t[c].size;
            && Closed(t, |js|) && items == Children(t, c) && |items| == n
            && ((exists m: nat :: m >= Members(t, c) && KeyAt(t, c, m) >= 0) <==> n % 2 == 1)
            && (n % 2 == 1 ==>
                  && KeyAt(t, c, Members(t, c)) == items[n - 1]
                  && (forall m: nat :: m > Members(t, c) ==> KeyAt(t, c, m) == -1)
                  && forall key :: FirstMatch(js, t, items, key) == FirstMatch(js, t, items[..n - 1], key))
  {
    var t := Parse(js, max).value;
    AcceptedIsSound(js, max);
    SoundItems(t, |js|, c);
    SoundIsClosed(t, |js|);
    hide Sound, Children, FirstMatch, Closed;
    if t[c].size % 2 == 1 {
      assert KeyAt(t, c, Members(t, c)) >= 0;
      var items := Items(t, c);
      forall key ensures FirstMatch(js, t, items, key) == FirstMatch(js, t, items[..|items| - 1], key) {
        LoneKeyIsNoMatch(js, t, items, key);
      }
    }
  }

  lemma SoundIsClosed(t: seq<Tok>, len: nat)
    requires Sound(t, len)
    ensures Closed(t, len)
  {
    hide Nested;
  }

  /** A document with such a key: the parser takes `:` and `,` for blanks. */
  lemma DanglingKey()
    ensures var t := Parse("{a}", 2);
            && t.Ok? && Items(t.value, 0) == [1] && |Items(t.value, 0)| / 2 == 0
            && Closed(t.value, 3) && FirstMatch("{a}", t.value, [1], "a") == -1
  {
    hide ParseFrom, Step, Walk, StringEnd, PrimitiveEnd, AddTok;
    DanglingKeyParse();
    DanglingKeyWalk();
  }

  lemma DanglingKeyWalk()
    ensures Walk(DANGLING, 1, 3) == [1]
  {
    assert Walk(DANGLING, 2, 3) == [];
  }

  const DANGLING: seq<Tok> := [Tok(Object, 0, 3, 1, -1), Tok(Primitive, 1, 2, 0, 0)]

  lemma DanglingKeyParse()
    ensures Parse("{a}", 2) == Ok(DANGLING)
  {
    hide ParseFrom;
    var js := "{a}";
    var p0 := Parser(0, [], []);
    var p1 := Parser(1, [Tok(Object, 0, -1, 0, -1)], [0]);
    var p2 := Parser(2, [Tok(Object, 0, -1, 1, -1), Tok(Primitive, 1, 2, 0, 0)], [0]);
    assert AddTok(p0, Object, 0, -1) == p1.toks && p0.stack + [0] == [0];
    assert PrimitiveEnd(js, 2) == Ok(2) && PrimitiveEnd(js, 1) == PrimitiveEnd(js, 2);
    assert AddTok(p1, Primitive, 1, 2) == p2.toks;
    assert p2.toks[0 := p2.toks[0].(end := 3)] == DANGLING && p2.stack[..0] == [];
    assert Step(js, 2, p0) == Ok(p1);
    assert Step(js, 2, p1) == Ok(p2);
    assert Step(js, 2, p2) == Ok(Parser(3, DANGLING, []));
    Unfold(js, 2, Parser(3, DANGLING, []));
    Unfold(js, 2, p2);
    Unfold(js, 2, p1);
    Unfold(js, 2, p0);
  }

  lemma Unfold(js: string, max: nat, p: Parser)
    requires p.i <= |js| && p.Valid()
    ensures p.i == |js| && p.stack == [] ==> ParseFrom(js, max, p) == Ok(p.toks)
    ensures p.i < |js| && Step(js, max, p).Ok? ==>
      ParseFrom(js, max, p) == ParseFrom(js, max, Step(js, max, p).value)
  {
    hide Step;
  }
}
