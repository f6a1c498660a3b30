/**
 Polynomials over GF(2), as finite sets of exponents. Addition is symmetric difference,
 and a multiple of `m` is a sum of shifts x^k * m. This is the reference that the tweak
 chain of XTS and both CRCs are compared with.
 */
module Gf2Poly {

  type Poly = set<nat>

  function Add(p: Poly, q: Poly): (r: Poly)
    ensures forall e :: e in r <==> (e in p) != (e in q)
  {
    (p - q) + (q - p)
  }

  /** x^n * p. */
  function Shift(p: Poly, n: nat): (r: Poly)
    ensures forall e :: e in r <==> e >= n && e - n in p
  {
    set e: nat | e in p :: e + n
  }

  ghost predicate DegreeBelow(p: Poly, n: nat) {
    forall e :: e in p ==> e < n
  }

  /** The sum of x^k * m for every k listed: a multiple of m. */
  function Multiple(m: Poly, ks: seq<nat>): Poly {
    if ks == [] then {} else Add(Shift(m, ks[0]), Multiple(m, ks[1..]))
  }

  ghost predicate Congruent(p: Poly, q: Poly, m: Poly) {
    exists ks: seq<nat> :: Add(p, q) == Multiple(m, ks)
  }

  lemma {:induction false} MultipleConcat(m: Poly, a: seq<nat>, b: seq<nat>)
    ensures Multiple(m, a + b) == Add(Multiple(m, a), Multiple(m, b))
  {
    if a == [] {
      assert a + b == b;
    } else {
      assert (a + b)[1..] == a[1..] + b;
      MultipleConcat(m, a[1..], b);
    }
  }

  function Raise(ks: seq<nat>, n: nat): seq<nat> {
    seq(|ks|, i requires 0 <= i < |ks| => ks[i] + n)
  }

  lemma {:induction false} MultipleShift(m: Poly, ks: seq<nat>, n: nat)
    ensures Multiple(m, Raise(ks, n)) == Shift(Multiple(m, ks), n)
  {
    if ks == [] {
    } else {
      assert Raise(ks, n)[1..] == Raise(ks[1..], n);
      MultipleShift(m, ks[1..], n);
      assert Shift(m, ks[0] + n) == Shift(Shift(m, ks[0]), n);
      assert Multiple(m, Raise(ks, n)) == Add(Shift(m, ks[0] + n), Shift(Multiple(m, ks[1..]), n));
      assert Shift(Multiple(m, ks), n) == Add(Shift(Shift(m, ks[0]), n), Shift(Multiple(m, ks[1..]), n));
    }
  }

  lemma CongruentReflexive(p: Poly, m: Poly)
    ensures Congruent(p, p, m)
  {
    assert Add(p, p) == Multiple(m, []);
  }

  lemma CongruentSymmetric(p: Poly, q: Poly, m: Poly)
    requires Congruent(p, q, m)
    ensures Congruent(q, p, m)
  {
    assert Add(p, q) == Add(q, p);
  }

  /** Congruences add; with q == r this is transitivity. */
  lemma CongruentAdd(p: Poly, q: Poly, r: Poly, s: Poly, m: Poly)
    requires Congruent(p, q, m) && Congruent(r, s, m)
    ensures Congruent(Add(p, r), Add(q, s), m)
  {
    var a :| Add(p, q) == Multiple(m, a);
    var b :| Add(r, s) == Multiple(m, b);
    MultipleConcat(m, a, b);
    assert Add(Add(p, r), Add(q, s)) == Add(Add(p, q), Add(r, s));
    assert Add(Add(p, r), Add(q, s)) == Multiple(m, a + b);
  }

  lemma CongruentTransitive(p: Poly, q: Poly, r: Poly, m: Poly)
    requires Congruent(p, q, m) && Congruent(q, r, m)
    ensures Congruent(p, r, m)
  {
    CongruentAdd(p, q, q, r, m);
    var ks :| Add(Add(p, q), Add(q, r)) == Multiple(m, ks);
    assert Add(p, r) == Add(Add(p, q), Add(q, r));
  }

  lemma CongruentShift(p: Poly, q: Poly, n: nat, m: Poly)
    requires Congruent(p, q, m)
    ensures Congruent(Shift(p, n), Shift(q, n), m)
  {
    var a :| Add(p, q) == Multiple(m, a);
    MultipleShift(m, a, n);
    assert Add(Shift(p, n), Shift(q, n)) == Shift(Add(p, q), n);
    assert Add(Shift(p, n), Shift(q, n)) == Multiple(m, Raise(a, n));
  }

  /** One step of the division: x * p, less the modulus when it reaches degree d. */
  function MulXMod(p: Poly, m: Poly, d: nat): Poly {
    if d in Shift(p, 1) then Add(Shift(p, 1), m) else Shift(p, 1)
  }

  ghost predicate Monic(m: Poly, d: nat) {
    d in m && DegreeBelow(m, d + 1)
  }

  lemma MulXModIsProduct(p: Poly, m: Poly, d: nat)
    requires Monic(m, d) && DegreeBelow(p, d)
    ensures DegreeBelow(MulXMod(p, m, d), d)
    ensures Congruent(MulXMod(p, m, d), Shift(p, 1), m)
  {
    if d in Shift(p, 1) {
      assert Shift(m, 0) == m;
      assert Multiple(m, [0]) == Add(Shift(m, 0), Multiple(m, [0][1..]));
      assert Add(MulXMod(p, m, d), Shift(p, 1)) == m == Multiple(m, [0]);
    } else {
      CongruentReflexive(Shift(p, 1), m);
    }
  }

  // ---- Uniqueness: a multiple of degree below d is zero ----

  ghost predicate Decreasing(ks: seq<nat>) {
    forall i, j :: 0 <= i < j < |ks| ==> ks[i] > ks[j]
  }

  /** Add x^k * m to a multiple whose shifts are listed in strictly decreasing order. */
  function Insert(k: nat, ks: seq<nat>): seq<nat> {
    if ks == [] || k > ks[0] then [k] + ks
    else if k == ks[0] then ks[1..]
    else [ks[0]] + Insert(k, ks[1..])
  }

  lemma {:induction false} InsertKeepsOrder(k: nat, ks: seq<nat>)
    requires Decreasing(ks)
    ensures Decreasing(Insert(k, ks))
    ensures forall e :: e in Insert(k, ks) ==> e == k || e in ks
  {
    if ks != [] && k < ks[0] {
      InsertKeepsOrder(k, ks[1..]);
      var r := Insert(k, ks[1..]);
      forall i, j | 0 <= i < j < |r| + 1 ensures ([ks[0]] + r)[i] > ([ks[0]] + r)[j] {
        if i == 0 { assert r[j - 1] in r; }
      }
    }
  }

  lemma {:induction false} InsertAdds(m: Poly, k: nat, ks: seq<nat>)
    ensures Multiple(m, Insert(k, ks)) == Add(Shift(m, k), Multiple(m, ks))
  {
    if ks == [] || k > ks[0] {
      assert ([k] + ks)[1..] == ks;
    } else if k < ks[0] {
      InsertAdds(m, k, ks[1..]);
      var r := Insert(k, ks[1..]);
      assert ([ks[0]] + r)[1..] == r;
    }
  }

  lemma {:induction false} SortedQuotient(m: Poly, ks: seq<nat>) returns (q: seq<nat>)
    ensures Decreasing(q) && Multiple(m, q) == Multiple(m, ks)
  {
    if ks == [] {
      q := [];
    } else {
      var r := SortedQuotient(m, ks[1..]);
      InsertAdds(m, ks[0], r);
      InsertKeepsOrder(ks[0], r);
      q := Insert(ks[0], r);
    }
  }

  lemma {:induction false} MultipleDegree(m: Poly, d: nat, ks: seq<nat>, top: nat)
    requires Monic(m, d) && (forall k :: k in ks ==> k < top)
    ensures DegreeBelow(Multiple(m, ks), d + top)
  {
    if ks != [] {
      assert forall k :: k in ks[1..] ==> k in ks;
      MultipleDegree(m, d, ks[1..], top);
      assert ks[0] in ks;
    }
  }

  lemma LeadingTerm(m: Poly, d: nat, ks: seq<nat>)
    requires Monic(m, d) && Decreasing(ks) && ks != []
    ensures d + ks[0] in Multiple(m, ks)
  {
    forall k | k in ks[1..] ensures k < ks[0] {
      var i :| 0 <= i < |ks[1..]| && ks[1..][i] == k;
      assert ks[i + 1] == k;
    }
    MultipleDegree(m, d, ks[1..], ks[0]);
  }

  lemma SmallMultipleIsZero(m: Poly, d: nat, ks: seq<nat>)
    requires Monic(m, d) && DegreeBelow(Multiple(m, ks), d)
    ensures Multiple(m, ks) == {}
  {
    var q := SortedQuotient(m, ks);
    if q != [] {
      LeadingTerm(m, d, q);
      assert false;
    }
  }

  /** There is only one remainder: the congruence class and the degree determine it. */
  lemma RemainderUnique(p: Poly, r: Poly, s: Poly, m: Poly, d: nat)
    requires Monic(m, d)
    requires Congruent(p, r, m) && DegreeBelow(r, d)
    requires Congruent(p, s, m) && DegreeBelow(s, d)
    ensures r == s
  {
    CongruentSymmetric(p, r, m);
    CongruentTransitive(r, p, s, m);
    var ks :| Add(r, s) == Multiple(m, ks);
    SmallMultipleIsZero(m, d, ks);
    forall e ensures e in r <==> e in s {
      assert e !in Add(r, s);
    }
  }
}
