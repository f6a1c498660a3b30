/**
 What every accepted document's tokens look like: sorted by start, their byte ranges nested or disjoint, and the
 ranges say the same thing as the `parent` links.
 */
module JsonNesting {
  import opened Json

  function Parents(toks: seq<Tok>): (r: seq<int>)
    ensures |r| == |toks|
  {
    seq(|toks|, i requires 0 <= i < |toks| => toks[i].parent)
  }

  /** Every parent comes before its child; -1 is the top. */
  ghost predicate Linked(par: seq<int>) {
    forall b :: 0 <= b < |par| ==> -1 <= par[b] < b
  }

  /** a is on the chain of parents of b. */
  predicate Ancestor(par: seq<int>, a: int, b: int)
    requires Linked(par) && 0 <= b < |par|
    decreases b
  {
    par[b] >= 0 && (par[b] == a || Ancestor(par, a, par[b]))
  }

  /** How many containers enclose b. */
  function Depth(par: seq<int>, b: int): nat
    requires Linked(par) && 0 <= b < |par|
    decreases b
  {
    if par[b] < 0 then 0 else 1 + Depth(par, par[b])
  }

  function CountChildren(par: seq<int>, a: int): nat {
    if par == [] then 0 else CountChildren(par[..|par| - 1], a) + if par[|par| - 1] == a then 1 else 0
  }

  lemma {:induction false} AncestorIsEarlier(par: seq<int>, a: int, b: int)
    requires Linked(par) && 0 <= b < |par| && Ancestor(par, a, b)
    ensures 0 <= a < b
    decreases b
  {
    if par[b] != a { AncestorIsEarlier(par, a, par[b]); }
  }

  lemma {:induction false} AncestorTransitive(par: seq<int>, a: int, b: int, c: int)
    requires Linked(par) && 0 <= b < |par| && 0 <= c < |par| && Ancestor(par, a, b) && Ancestor(par, b, c)
    ensures Ancestor(par, a, c)
    decreases c
  {
    if par[c] != b { AncestorTransitive(par, a, b, par[c]); }
  }

  /** A longer document says nothing new about its older tokens. */
  lemma {:induction false} AncestorPrefix(par: seq<int>, more: seq<int>, a: int, b: int)
    requires Linked(par + more) && 0 <= b < |par|
    ensures Linked(par) && Ancestor(par + more, a, b) == Ancestor(par, a, b) && Depth(par + more, b) == Depth(par, b)
    decreases b
  {
    assert forall k :: 0 <= k < |par| ==> (par + more)[k] == par[k];
    if par[b] >= 0 { AncestorPrefix(par, more, a, par[b]); }
  }

  // ---- The parser's invariant ----

  ghost predicate Starts(toks: seq<Tok>, i: nat) {
    && (forall a :: 0 <= a < |toks| ==> 0 <= toks[a].start < i)
    && (forall a, b :: 0 <= a < b < |toks| ==> toks[a].start < toks[b].start)
  }

  /** Stack entry k hangs under the one below it. */
  predicate OpenAt(toks: seq<Tok>, stack: seq<nat>, k: nat)
    requires k < |stack| && stack[k] < |toks|
  {
    toks[stack[k]].parent == if k == 0 then -1 else stack[k - 1]
  }

  /** The stack is the chain of open containers, outermost first; everything else is closed. */
  ghost predicate OpenChain(toks: seq<Tok>, stack: seq<nat>) {
    && |stack| <= MAX_DEPTH
    && (forall k :: 0 <= k < |stack| ==> stack[k] < |toks| && toks[stack[k]].end == -1)
    && (forall k :: 0 <= k < |stack| ==> OpenAt(toks, stack, k))
    && (forall j, k :: 0 <= j < k < |stack| ==> stack[j] < stack[k])
  }

  ghost predicate Ends(toks: seq<Tok>, stack: seq<nat>, i: nat) {
    forall a :: 0 <= a < |toks| && a !in stack ==> toks[a].start <= toks[a].end <= i
  }

  /** b starts before a ends, or a has not ended yet. */
  predicate Inside(toks: seq<Tok>, a: int, b: int)
    requires 0 <= a < |toks| && 0 <= b < |toks|
  {
    toks[a].end == -1 || toks[b].start < toks[a].end
  }

  ghost predicate RangesAgree(toks: seq<Tok>)
    requires Linked(Parents(toks))
  {
    forall a, b :: 0 <= a < b < |toks| ==> (Ancestor(Parents(toks), a, b) <==> Inside(toks, a, b))
  }

  ghost predicate Nested(toks: seq<Tok>) {
    forall a, b :: 0 <= a < b < |toks| && toks[a].end != -1 && toks[b].start < toks[a].end ==>
      toks[b].end != -1 && toks[b].end <= toks[a].end
  }

  ghost predicate Shallow(toks: seq<Tok>, stack: seq<nat>)
    requires Linked(Parents(toks))
  {
    && (forall b :: 0 <= b < |toks| ==> Depth(Parents(toks), b) <= MAX_DEPTH)
    && (forall k :: 0 <= k < |stack| ==> stack[k] < |toks| && Depth(Parents(toks), stack[k]) == k)
  }

  ghost predicate Sized(toks: seq<Tok>) {
    forall a :: 0 <= a < |toks| ==> toks[a].size == CountChildren(Parents(toks), a)
  }

  ghost predicate Inv(p: Parser) {
    && Starts(p.toks, p.i) && OpenChain(p.toks, p.stack) && Ends(p.toks, p.stack, p.i)
    && Linked(Parents(p.toks)) && RangesAgree(p.toks) && Nested(p.toks)
    && Shallow(p.toks, p.stack) && Sized(p.toks)
  }

  /** The ancestors of an open container are the containers below it on the stack. */
  lemma {:induction false} StackIsAncestry(toks: seq<Tok>, stack: seq<nat>, k: nat, a: int)
    requires Linked(Parents(toks)) && OpenChain(toks, stack) && k < |stack|
    ensures Ancestor(Parents(toks), a, stack[k]) <==> a in stack[..k]
    decreases k
  {
    var par := Parents(toks);
    assert OpenAt(toks, stack, k);
    assert par[stack[k]] == toks[stack[k]].parent;
    if k > 0 {
      StackIsAncestry(toks, stack, k - 1, a);
      assert par[stack[k]] == stack[k - 1];
      assert stack[..k] == stack[..k - 1] + [stack[k - 1]];
      assert a in stack[..k] <==> a in stack[..k - 1] || a == stack[k - 1];
    }
  }

  lemma BumpParents(toks: seq<Tok>, stack: seq<nat>)
    requires stack != [] ==> stack[|stack| - 1] < |toks|
    ensures Parents(Bump(toks, stack)) == Parents(toks)
  {}

  /** The ancestors of a token hung under the container in hand are exactly the open containers. */
  lemma NewTokenAncestry(p: Parser, t: Tok, a: int)
    requires Inv(p) && t.parent == Top(p.stack)
    ensures var par := Parents(p.toks) + [t.parent];
            Linked(par) && (Ancestor(par, a, |p.toks|) <==> a in p.stack) && Depth(par, |p.toks|) == |p.stack|
  {
    var par := Parents(p.toks) + [t.parent];
    var n := |p.stack|;
    forall b | 0 <= b < |par| ensures -1 <= par[b] < b {
      if b < |p.toks| { assert par[b] == Parents(p.toks)[b]; }
    }
    if n > 0 {
      StackIsAncestry(p.toks, p.stack, n - 1, a);
      AncestorPrefix(Parents(p.toks), [t.parent], a, p.stack[n - 1]);
      assert par[|p.toks|] == p.stack[n - 1];
      assert p.stack == p.stack[..n - 1] + [p.stack[n - 1]];
    }
  }

  // ---- Each step keeps it ----

  /** A token that starts where the parser is, or just after: `to` is how far the parser then is. */
  ghost predicate Fresh(p: Parser, t: Tok, to: nat) {
    p.i <= t.start < to && t.size == 0 && t.parent == Top(p.stack) && (t.end == -1 || t.start <= t.end <= to)
  }

  lemma AppendKeepsStarts(p: Parser, toks: seq<Tok>, t: Tok, to: nat)
    requires Inv(p) && Fresh(p, t, to) && |toks| == |p.toks|
    requires forall a :: 0 <= a < |toks| ==> toks[a] == p.toks[a].(size := toks[a].size)
    ensures Starts(toks + [t], to)
  {
    assert forall a :: 0 <= a < |toks| ==> toks[a].start == p.toks[a].start;
  }

  lemma AppendKeepsRanges(p: Parser, toks: seq<Tok>, t: Tok, to: nat)
    requires Inv(p) && Fresh(p, t, to) && |toks| == |p.toks|
    requires forall a :: 0 <= a < |toks| ==> toks[a] == p.toks[a].(size := toks[a].size)
    ensures Linked(Parents(toks + [t])) && RangesAgree(toks + [t]) && Nested(toks + [t])
    ensures forall a :: 0 <= a <= |toks| ==>
      Depth(Parents(toks + [t]), a) == if a < |toks| then Depth(Parents(p.toks), a) else |p.stack|
  {
    var par := Parents(p.toks);
    assert Parents(toks + [t]) == par + [t.parent];
    NewTokenAncestry(p, t, 0);
    forall a, b | 0 <= a < b < |toks| + 1
      ensures Ancestor(par + [t.parent], a, b) <==> Inside(toks + [t], a, b)
    {
      if b < |toks| {
        AncestorPrefix(par, [t.parent], a, b);
        assert Inside(toks + [t], a, b) <==> Inside(p.toks, a, b);
      } else {
        NewTokenAncestry(p, t, a);
        assert (toks + [t])[a].end == p.toks[a].end;
        if a in p.stack {
          var k :| 0 <= k < |p.stack| && p.stack[k] == a;
        }
      }
    }
    forall a | 0 <= a < |toks| ensures Depth(par + [t.parent], a) == Depth(par, a) {
      AncestorPrefix(par, [t.parent], 0, a);
    }
    AppendKeepsNested(p, toks, t, to);
  }

  lemma AppendKeepsNested(p: Parser, toks: seq<Tok>, t: Tok, to: nat)
    requires Inv(p) && Fresh(p, t, to) && |toks| == |p.toks|
    requires forall a :: 0 <= a < |toks| ==> toks[a] == p.toks[a].(size := toks[a].size)
    ensures Nested(toks + [t])
  {
    hide RangesAgree, Shallow, Sized, Linked;
    var all := toks + [t];
    forall a | 0 <= a < |toks| && all[a].end != -1 ensures all[a].end <= t.start {
      assert all[a].end == p.toks[a].end && a !in p.stack;
    }
    forall a, b | 0 <= a < b < |toks| && all[a].end != -1 && all[b].start < all[a].end
      ensures all[b].end != -1 && all[b].end <= all[a].end
    {
      assert all[a].end == p.toks[a].end && all[b].start == p.toks[b].start && all[b].end == p.toks[b].end;
    }
  }

  lemma {:induction false} CountNone(par: seq<int>, a: int)
    requires forall b :: 0 <= b < |par| ==> par[b] < a
    ensures CountChildren(par, a) == 0
  {
    if par != [] { CountNone(par[..|par| - 1], a); }
  }

  lemma CountAppend(par: seq<int>, x: int, a: int)
    ensures CountChildren(par + [x], a) == CountChildren(par, a) + if x == a then 1 else 0
  {
    assert (par + [x])[..|par|] == par;
  }

  lemma AddKeepsSizes(p: Parser, kind: Kind, start: nat, end: int)
    requires Inv(p)
    ensures p.Valid() && Sized(AddTok(p, kind, start, end))
  {
    var toks := AddTok(p, kind, start, end);
    var par := Parents(p.toks);
    BumpParents(p.toks, p.stack);
    assert Parents(toks) == par + [Top(p.stack)];
    forall a | 0 <= a < |toks| ensures toks[a].size == CountChildren(Parents(toks), a) {
      CountAppend(par, Top(p.stack), a);
      if a == |p.toks| { CountNone(par, a); }
    }
  }

  lemma LeafKeepsChain(p: Parser, toks: seq<Tok>, t: Tok, to: nat)
    requires Inv(p) && Fresh(p, t, to) && t.end != -1 && |toks| == |p.toks|
    requires forall a :: 0 <= a < |toks| ==> toks[a] == p.toks[a].(size := toks[a].size)
    ensures OpenChain(toks + [t], p.stack) && Ends(toks + [t], p.stack, to)
  {
    hide RangesAgree, Nested, Sized, Shallow, Linked, Starts;
    var all, s := toks + [t], p.stack;
    forall k | 0 <= k < |s| ensures s[k] < |all| && all[s[k]].end == -1 && OpenAt(all, s, k) {
      assert OpenAt(p.toks, s, k);
      assert all[s[k]] == toks[s[k]];
    }
    forall a | 0 <= a < |all| && a !in s ensures all[a].start <= all[a].end <= to {
      assert a < |toks| ==> all[a] == toks[a];
    }
  }

  lemma SameLink(toks: seq<Tok>, s: seq<nat>, all: seq<Tok>, u: seq<nat>, k: nat)
    requires k < |s| && s[k] < |toks| && OpenAt(toks, s, k) && s[k] < |all|
    requires k < |u| && u[k] == s[k] && (k > 0 ==> u[k - 1] == s[k - 1]) && all[s[k]].parent == toks[s[k]].parent
    ensures OpenAt(all, u, k)
  {}

  lemma NewLink(all: seq<Tok>, s: seq<nat>, u: seq<nat>)
    requires |u| == |s| + 1 && s <= u && u[|s|] < |all| && all[u[|s|]].parent == Top(s)
    ensures OpenAt(all, u, |s|)
  {}

  lemma OpenKeepsChain(p: Parser, toks: seq<Tok>, t: Tok, to: nat)
    requires Inv(p) && Fresh(p, t, to) && t.end == -1 && |toks| == |p.toks| && |p.stack| < MAX_DEPTH
    requires forall a :: 0 <= a < |toks| ==> toks[a] == p.toks[a].(size := toks[a].size)
    ensures OpenChain(toks + [t], p.stack + [|toks|])
  {
    hide RangesAgree, Nested, Sized, Shallow, Linked, Starts, Ends, OpenAt;
    var all, s, u := toks + [t], p.stack, p.stack + [|toks|];
    forall k | 0 <= k < |s| ensures u[k] == s[k] < |toks| && all[u[k]].end == -1 && OpenAt(all, u, k) {
      SameLink(p.toks, s, all, u, k);
    }
    assert u[|s|] == |toks| && all[|toks|] == t;
    NewLink(all, s, u);
  }

  lemma OpenKeepsEnds(p: Parser, toks: seq<Tok>, t: Tok, to: nat)
    requires Inv(p) && Fresh(p, t, to) && |toks| == |p.toks|
    requires forall a :: 0 <= a < |toks| ==> toks[a] == p.toks[a].(size := toks[a].size)
    ensures Ends(toks + [t], p.stack + [|toks|], to)
  {
    hide RangesAgree, Nested, Sized, Shallow, Linked, Starts, OpenChain;
    var all, u := toks + [t], p.stack + [|toks|];
    forall a | 0 <= a < |all| && a !in u ensures all[a].start <= all[a].end <= to {
      InLonger(p.stack, |toks|, a);
      assert a < |toks| ==> all[a] == toks[a];
    }
  }

  lemma InLonger(s: seq<nat>, x: nat, a: int)
    ensures a in s + [x] <==> a in s || a == x
  {}

  lemma Bumped(p: Parser)
    requires p.Valid()
    ensures var toks := Bump(p.toks, p.stack);
            forall a :: 0 <= a < |toks| ==> toks[a] == p.toks[a].(size := toks[a].size)
  {}

  /** A new token is as deep as the stack is high, and so is a container put on it. */
  lemma AppendKeepsShallow(p: Parser, toks: seq<Tok>, t: Tok, to: nat)
    requires Inv(p) && Fresh(p, t, to) && |toks| == |p.toks|
    requires forall a :: 0 <= a < |toks| ==> toks[a] == p.toks[a].(size := toks[a].size)
    ensures Linked(Parents(toks + [t])) && Shallow(toks + [t], p.stack)
    ensures Shallow(toks + [t], p.stack + [|toks|])
  {
    AppendKeepsRanges(p, toks, t, to);
    hide Starts, Linked, RangesAgree, Nested, Sized, Depth, Ends;
    assert forall k :: 0 <= k < |p.stack| ==> (p.stack + [|toks|])[k] == p.stack[k];
  }

  /** A closed token: a string or a primitive. */
  lemma AddLeafKeeps(p: Parser, kind: Kind, start: nat, end: int, to: nat)
    requires Inv(p) && Fresh(p, Tok(kind, start, end, 0, Top(p.stack)), to) && end != -1
    ensures p.Valid() && Inv(Parser(to, AddTok(p, kind, start, end), p.stack))
  {
    hide Starts, Linked, RangesAgree, Nested, Sized, Bump, Depth, Ends, OpenChain, Shallow;
    InvIsValid(p);
    var t := Tok(kind, start, end, 0, Top(p.stack));
    var toks := Bump(p.toks, p.stack);
    Bumped(p);
    AppendKeepsStarts(p, toks, t, to);
    AppendKeepsRanges(p, toks, t, to);
    AppendKeepsShallow(p, toks, t, to);
    LeafKeepsChain(p, toks, t, to);
    AddKeepsSizes(p, kind, start, end);
  }

  /** An open container, which goes on the stack. */
  lemma AddOpenKeeps(p: Parser, kind: Kind)
    requires Inv(p) && |p.stack| < MAX_DEPTH
    ensures p.Valid() && Inv(Parser(p.i + 1, AddTok(p, kind, p.i, -1), p.stack + [|p.toks|]))
  {
    hide Starts, Linked, RangesAgree, Nested, Sized, Bump, Depth, Ends, OpenChain, Shallow;
    InvIsValid(p);
    var t := Tok(kind, p.i, -1, 0, Top(p.stack));
    var toks := Bump(p.toks, p.stack);
    Bumped(p);
    AppendKeepsStarts(p, toks, t, p.i + 1);
    AppendKeepsRanges(p, toks, t, p.i + 1);
    AppendKeepsShallow(p, toks, t, p.i + 1);
    OpenKeepsChain(p, toks, t, p.i + 1);
    OpenKeepsEnds(p, toks, t, p.i + 1);
    AddKeepsSizes(p, kind, p.i, -1);
  }

  /** The tokens with one container closed at `end`. */
  function Closed(toks: seq<Tok>, t: nat, end: int): (r: seq<Tok>)
    requires t < |toks|
    ensures |r| == |toks|
  {
    toks[t := toks[t].(end := end)]
  }

  lemma CloseKeepsEnds(p: Parser)
    requires Inv(p) && p.stack != []
    ensures var n := |p.stack| - 1;
            var toks := Closed(p.toks, p.stack[n], p.i + 1);
            Ends(toks, p.stack[..n], p.i + 1) && Starts(toks, p.i + 1)
  {
    hide RangesAgree, Nested, Sized, Shallow, Linked, OpenAt;
    var n := |p.stack| - 1;
    var t := p.stack[n];
    var toks := Closed(p.toks, t, p.i + 1);
    assert p.stack == p.stack[..n] + [t];
    forall a | 0 <= a < |toks| && a !in p.stack[..n] ensures toks[a].start <= toks[a].end <= p.i + 1 {
      InLonger(p.stack[..n], t, a);
    }
  }

  lemma CloseKeepsChain(p: Parser)
    requires Inv(p) && p.stack != []
    ensures var n := |p.stack| - 1; OpenChain(Closed(p.toks, p.stack[n], p.i + 1), p.stack[..n])
  {
    hide RangesAgree, Nested, Sized, Shallow, Linked, OpenAt, Ends, Starts;
    var n := |p.stack| - 1;
    var toks := Closed(p.toks, p.stack[n], p.i + 1);
    forall k | 0 <= k < n ensures OpenAt(toks, p.stack[..n], k) && toks[p.stack[k]].end == -1 {
      SameLink(p.toks, p.stack, toks, p.stack[..n], k);
    }
  }

  lemma CloseKeepsRanges(p: Parser)
    requires Inv(p) && p.stack != []
    ensures var n := |p.stack| - 1;
            var toks := Closed(p.toks, p.stack[n], p.i + 1);
            Parents(toks) == Parents(p.toks) && RangesAgree(toks) && Nested(toks)
  {
    hide Sized, Shallow, Ancestor;
    var n := |p.stack| - 1;
    var t := p.stack[n];
    var toks := Closed(p.toks, t, p.i + 1);
    assert Parents(toks) == Parents(p.toks);
    forall a, b | 0 <= a < b < |toks| ensures Inside(toks, a, b) <==> Inside(p.toks, a, b) {
      assert toks[b].start == p.toks[b].start;
    }
    forall a, b | 0 <= a < b < |toks| && toks[a].end != -1 && toks[b].start < toks[a].end
      ensures toks[b].end != -1 && toks[b].end <= toks[a].end
    {
      assert toks[b].start == p.toks[b].start;
      if a == t {
        InHandIsLast(p, b);
      } else if b == t {
        assert false;
      }
    }
  }

  /** Nothing after the container in hand is open. */
  lemma InHandIsLast(p: Parser, b: int)
    requires Inv(p) && p.stack != [] && p.stack[|p.stack| - 1] < b < |p.toks|
    ensures p.toks[b].end != -1 && p.toks[b].end <= p.i
  {
    forall k | 0 <= k < |p.stack| ensures p.stack[k] != b {
      assert p.stack[k] <= p.stack[|p.stack| - 1];
    }
  }

  /** The container in hand closes. */
  lemma CloseKeeps(p: Parser)
    requires Inv(p) && p.stack != []
    ensures var n := |p.stack| - 1; Inv(Parser(p.i + 1, Closed(p.toks, p.stack[n], p.i + 1), p.stack[..n]))
  {
    CloseKeepsEnds(p);
    CloseKeepsChain(p);
    CloseKeepsRanges(p);
    hide Starts, Linked, RangesAgree, Nested, OpenChain, Depth, Ends, CountChildren;
  }

  lemma StepKeeps(js: string, max: nat, p: Parser)
    requires Inv(p) && p.i < |js|
    ensures p.Valid() && (Step(js, max, p).Ok? ==> Inv(Step(js, max, p).value))
  {
    hide Inv, StringEnd, PrimitiveEnd, AddTok;
    InvIsValid(p);
    var c := js[p.i];
    if Step(js, max, p).Ok? {
      if c == '{' || c == '[' {
        AddOpenKeeps(p, if c == '{' then Object else Array);
      } else if c == '}' || c == ']' {
        CloseKeeps(p);
      } else if c == '"' {
        var e := StringEnd(js, p.i + 1);
        AddLeafKeeps(p, String, p.i + 1, e, e + 1);
      } else if IsSpace(c) || c == ':' || c == ',' {
        AdvanceKeeps(p);
      } else {
        var e := PrimitiveEnd(js, p.i).value;
        PrimitiveAdvances(js, p.i);
        AddLeafKeeps(p, Primitive, p.i, e, e);
      }
    }
  }

  lemma InvIsValid(p: Parser)
    requires Inv(p)
    ensures p.Valid()
  {}

  lemma AdvanceKeeps(p: Parser)
    requires Inv(p)
    ensures Inv(p.(i := p.i + 1))
  {}

  lemma {:induction false} ParseKeeps(js: string, max: nat, p: Parser)
    requires Inv(p) && p.i <= |js|
    ensures p.Valid()
    ensures ParseFrom(js, max, p).Ok? ==> Inv(Parser(|js|, ParseFrom(js, max, p).value, []))
    decreases |js| - p.i
  {
    hide Inv, Step;
    InvIsValid(p);
    if p.i < |js| {
      StepKeeps(js, max, p);
      if Step(js, max, p).Ok? {
        ParseKeeps(js, max, Step(js, max, p).value);
      }
    }
  }

  // ---- What is accepted ----

  /** The tokens of a document: sorted, closed, linked, ranges and links in agreement, none deeper than the ceiling. */
  ghost predicate Sound(toks: seq<Tok>, len: nat) {
    && Starts(toks, len) && (forall a :: 0 <= a < |toks| ==> toks[a].start <= toks[a].end <= len)
    && Linked(Parents(toks)) && RangesAgree(toks) && Nested(toks) && Sized(toks)
    && (forall a :: 0 <= a < |toks| ==> Depth(Parents(toks), a) <= MAX_DEPTH)
  }

  /** Every accepted parse is sound. */
  lemma AcceptedIsSound(js: string, max: nat)
    requires Parse(js, max).Ok?
    ensures Sound(Parse(js, max).value, |js|)
  {
    assert Inv(Parser(0, [], []));
    ParseKeeps(js, max, Parser(0, [], []));
  }

  /** Two tokens of an accepted document are disjoint, or the earlier one encloses the later, and it does exactly when
      it is on the later one's chain of parents. */
  lemma NestedOrDisjoint(js: string, max: nat, a: nat, b: nat)
    requires Parse(js, max).Ok? && a < b < |Parse(js, max).value|
    ensures var t := Parse(js, max).value;
            && Linked(Parents(t))
            && (if Ancestor(Parents(t), a, b) then t[a].start < t[b].start && t[b].end <= t[a].end
                else t[a].end <= t[b].start)
  {
    hide Parse;
    AcceptedIsSound(js, max);
    var t := Parse(js, max).value;
    assert Ancestor(Parents(t), a, b) <==> Inside(t, a, b);
  }
}
