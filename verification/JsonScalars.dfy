/** Numbers and binary data held in JSON text (Core/crypto/json.c, `json_get_u64` and `base64_decode`). */
module JsonScalars {
  import opened Json
  import opened JsonWalk
  import opened Arith
  import opened Wrappers

  // ---- Decimal numbers ----

  const UINT64_MAX: nat := 0xFFFF_FFFF_FFFF_FFFF

  predicate IsDigit(c: char) {
    '0' <= c <= '9'
  }

  predicate AllDigits(s: string) {
    forall k :: 0 <= k < |s| ==> IsDigit(s[k])
  }

  /** The number a string of digits stands for. */
  function Decimal(s: string): nat
    requires AllDigits(s)
  {
    if s == "" then 0 else 10 * Decimal(s[..|s| - 1]) + (s[|s| - 1] as int - '0' as int)
  }

  /** The digits of a number, as printf writes them. */
  function Digits(n: nat): (s: string)
    ensures s != "" && AllDigits(s)
  {
    (if n < 10 then "" else Digits(n / 10)) + [('0' as int + n % 10) as char]
  }

  lemma {:induction false} DecimalOfDigits(n: nat)
    ensures Decimal(Digits(n)) == n
  {
    var s := Digits(n);
    assert s[|s| - 1] == ('0' as int + n % 10) as char;
    if n >= 10 {
      DecimalOfDigits(n / 10);
      assert s[..|s| - 1] == Digits(n / 10);
    }
  }

  function Pow10(k: nat): (r: nat)
    ensures r > 0
  {
    if k == 0 then 1 else 10 * Pow10(k - 1)
  }

  /** A number below 10^k has at most k digits. */
  lemma {:induction false} DigitCount(n: nat, k: nat)
    requires k > 0 && n < Pow10(k)
    ensures |Digits(n)| <= k
    decreases k
  {
    if n >= 10 {
      assert k > 1;
      DigitCount(n / 10, k - 1);
    }
  }

  /** Digits that follow never make the number smaller. */
  lemma {:induction false} PrefixIsSmaller(s: string, i: nat)
    requires AllDigits(s) && i <= |s|
    ensures AllDigits(s[..i]) && Decimal(s[..i]) <= Decimal(s)
    decreases |s| - i
  {
    if i < |s| {
      PrefixIsSmaller(s, i + 1);
      assert s[..i + 1][..i] == s[..i];
    } else {
      assert s[..i] == s;
    }
  }

  /** What `json_get_u64` accepts: one to twenty digits whose value fits. */
  predicate IsU64(s: string) {
    0 < |s| <= 20 && AllDigits(s) && Decimal(s) <= UINT64_MAX
  }

  /** `json_get_u64`: numbers may be primitives or strings. */
  method GetU64(js: string, t: seq<Tok>, idx: int) returns (r: Option<nat>)
    requires Closed(t, |js|)
    ensures r.Some? <==>
      0 <= idx < |t| && (t[idx].kind == Primitive || t[idx].kind == String) && IsU64(Text(js, t[idx]))
    ensures r.Some? ==> r.value == Decimal(Text(js, t[idx]))
  {
    if idx < 0 || idx >= |t| {
      return None;
    }
    if t[idx].kind != Primitive && t[idx].kind != String {
      return None;
    }
    var n := t[idx].end - t[idx].start;
    if n == 0 || n > 20 {
      return None;
    }
    ghost var s := Text(js, t[idx]);
    var v, i := 0, 0;
    while i < n
      invariant 0 <= i <= n && AllDigits(s[..i]) && v == Decimal(s[..i]) <= UINT64_MAX
    {
      var c := js[t[idx].start + i];
      assert c == s[i] && s[..i + 1][..i] == s[..i];
      if !IsDigit(c) {
        return None;
      }
      var d := c as int - '0' as int;
      assert Decimal(s[..i + 1]) == 10 * v + d;
      if v > (UINT64_MAX - d) / 10 {
        if AllDigits(s) { PrefixIsSmaller(s, i + 1); }
        return None;
      }
      v, i := 10 * v + d, i + 1;
    }
    assert s[..n] == s;
    return Some(v);
  }

  /** Every 64-bit number, printed, is accepted and read back. */
  lemma U64RoundTrip(n: nat)
    requires n <= UINT64_MAX
    ensures IsU64(Digits(n)) && Decimal(Digits(n)) == n
  {
    DecimalOfDigits(n);
    PowTwenty();
    DigitCount(n, 20);
  }

  lemma PowTwenty()
    ensures Pow10(20) > UINT64_MAX
  {
    assert Pow10(4) == 10000;
    assert Pow10(8) == 10000 * 10000;
    assert Pow10(12) == 10000 * 10000 * 10000;
    assert Pow10(16) == 10000 * 10000 * 10000 * 10000;
  }

  // ---- Base64 (section 4 of RFC 4648) ----

  type Octet = x: int | 0 <= x < 256

  function Symbol(v: nat): char
    requires v < 64
  {
    if v < 26 then ('A' as int + v) as char
    else if v < 52 then ('a' as int + v - 26) as char
    else if v < 62 then ('0' as int + v - 52) as char
    else if v == 62 then '+' else '/'
  }

  /** `b64_value` */
  function Sextet(c: char): (v: int)
    ensures -1 <= v < 64
    ensures v >= 0 ==> Symbol(v) == c
  {
    if 'A' <= c <= 'Z' then c as int - 'A' as int
    else if 'a' <= c <= 'z' then c as int - 'a' as int + 26
    else if '0' <= c <= '9' then c as int - '0' as int + 52
    else if c == '+' then 62 else if c == '/' then 63 else -1
  }

  lemma SextetOfSymbol(v: nat)
    requires v < 64
    ensures Sextet(Symbol(v)) == v && Symbol(v) != '='
  {}

  /** The k-th octet of a 24-bit group, most significant first. */
  function OctetAt(triple: nat, k: nat): Octet {
    (if k == 0 then triple / 65536 else if k == 1 then triple / 256 else triple) % 256
  }

  /** The k-th sextet of a 24-bit group. */
  function SextetAt(triple: nat, k: nat): (v: nat)
    ensures v < 64
    decreases 3 - k
  {
    if k >= 3 then triple % 64 else SextetAt(triple / 64, k + 1)
  }

  function Octets(triple: nat, n: nat): (r: seq<Octet>)
    requires n <= 3
    ensures |r| == n
  {
    if n == 0 then [] else Octets(triple, n - 1) + [OctetAt(triple, n - 1)]
  }

  function FromOctets(b0: Octet, b1: Octet, b2: Octet): nat {
    b0 * 65536 + b1 * 256 + b2
  }

  function FromSextets(v0: nat, v1: nat, v2: nat, v3: nat): nat {
    v0 * 262144 + v1 * 4096 + v2 * 64 + v3
  }

  /** The value of one character; padding stands for nothing. */
  function Bits(c: char): int {
    if c == '=' then 0 else Sextet(c)
  }

  /** The j-th character of a group may stand there, given the ones before it. */
  predicate Allowed(g: string, last: bool, j: nat)
    requires |g| == 4 && j < 4
  {
    if g[j] == '=' then last && j >= 2
    else Sextet(g[j]) >= 0 && (j == 3 ==> g[2] != '=')
  }

  function Padding(g: string): (n: nat)
    requires |g| == 4
    ensures n <= 2
  {
    (if g[2] == '=' then 1 else 0) + if g[3] == '=' then 1 else 0
  }

  function DecodeGroup(g: string, last: bool): Option<seq<Octet>>
    requires |g| == 4
  {
    if Allowed(g, last, 0) && Allowed(g, last, 1) && Allowed(g, last, 2) && Allowed(g, last, 3)
    then Some(Octets(FromSextets(Bits(g[0]), Bits(g[1]), Bits(g[2]), Bits(g[3])), 3 - Padding(g)))
    else None
  }

  /** What a whole string decodes to, whatever the room. */
  function Decode(s: string): Option<seq<Octet>> {
    if s == "" then Some([])
    else if |s| < 4 then None
    else
      var head, tail := DecodeGroup(s[..4], |s| == 4), Decode(s[4..]);
      if head.None? || tail.None? then None else Some(head.value + tail.value)
  }

  /** One to three octets as four characters. */
  function EncodeGroup(b: seq<Octet>): (g: string)
    requires 1 <= |b| <= 3
    ensures |g| == 4
  {
    var t := FromOctets(b[0], if |b| > 1 then b[1] else 0, if |b| > 2 then b[2] else 0);
    [Symbol(SextetAt(t, 0)), Symbol(SextetAt(t, 1)),
     if |b| > 1 then Symbol(SextetAt(t, 2)) else '=', if |b| > 2 then Symbol(SextetAt(t, 3)) else '=']
  }

  /** Section 4 of RFC 4648: three octets to four characters, the last group padded. */
  function Encode(b: seq<Octet>): string {
    if b == [] then "" else if |b| <= 3 then EncodeGroup(b) else EncodeGroup(b[..3]) + Encode(b[3..])
  }

  /** One base-64 digit off the end. */
  lemma Peel(t: nat, bound: nat)
    requires t < 64 * bound
    ensures t == 64 * (t / 64) + t % 64 && t / 64 < bound
  {}

  lemma SextetsAre(t: nat)
    ensures SextetAt(t, 3) == t % 64 && SextetAt(t, 2) == t / 64 % 64
    ensures SextetAt(t, 1) == t / 64 / 64 % 64 && SextetAt(t, 0) == t / 64 / 64 / 64 % 64
  {
    var u := t / 64;
    var v := u / 64;
    assert SextetAt(t, 0) == SextetAt(u, 1) == SextetAt(v, 2) == SextetAt(v / 64, 3);
    assert SextetAt(t, 1) == SextetAt(u, 2) == SextetAt(v, 3);
  }

  lemma SextetsRecombine(t: nat)
    requires t < 16777216
    ensures FromSextets(SextetAt(t, 0), SextetAt(t, 1), SextetAt(t, 2), SextetAt(t, 3)) == t
  {
    hide SextetAt;
    SextetsAre(t);
    Peel(t, 262144);
    Peel(t / 64, 4096);
    Peel(t / 64 / 64, 64);
    Peel(t / 64 / 64 / 64, 1);
  }

  lemma OctetsRecombine(b0: Octet, b1: Octet, b2: Octet)
    ensures var t := FromOctets(b0, b1, b2);
            t < 16777216 && OctetAt(t, 0) == b0 && OctetAt(t, 1) == b1 && OctetAt(t, 2) == b2
  {}

  /** Octets that are not there leave the sextets they alone fill zero. */
  lemma MissingOctets(b0: Octet, b1: Octet)
    ensures SextetAt(FromOctets(b0, b1, 0), 3) == 0 && SextetAt(FromOctets(b0, 0, 0), 2) == 0
  {
    MultipleMod(b0 * 1024 + b1 * 4, 64);
    MultipleMod(b0 * 1024, 64);
    MultipleMod(b0 * 16, 64);
  }

  lemma GroupRoundTrip(b: seq<Octet>, last: bool)
    requires 1 <= |b| <= 3 && (|b| < 3 ==> last)
    ensures DecodeGroup(EncodeGroup(b), last) == Some(b)
  {
    hide SextetAt, OctetAt, FromOctets, FromSextets, Symbol, Sextet;
    var b1: Octet := if |b| > 1 then b[1] else 0;
    var b2: Octet := if |b| > 2 then b[2] else 0;
    var t := FromOctets(b[0], b1, b2);
    OctetsRecombine(b[0], b1, b2);
    SextetsRecombine(t);
    MissingOctets(b[0], b1);
    var g := EncodeGroup(b);
    SextetOfSymbol(SextetAt(t, 0));
    SextetOfSymbol(SextetAt(t, 1));
    SextetOfSymbol(SextetAt(t, 2));
    SextetOfSymbol(SextetAt(t, 3));
    assert Bits(g[2]) == SextetAt(t, 2) && Bits(g[3]) == SextetAt(t, 3);
    assert Padding(g) == 3 - |b|;
    assert Octets(t, 1) == [b[0]] && Octets(t, 2) == [b[0], b1] && Octets(t, 3) == [b[0], b1, b2];
    assert Octets(t, |b|) == b;
  }

  /** Decoding undoes encoding. */
  lemma {:induction false} DecodeUndoesEncode(b: seq<Octet>)
    ensures Decode(Encode(b)) == Some(b)
    decreases |b|
  {
    hide EncodeGroup, DecodeGroup;
    if b != [] {
      var n := if |b| <= 3 then |b| else 3;
      GroupRoundTrip(b[..n], n == |b|);
      DecodeUndoesEncode(b[n..]);
      var s := Encode(b);
      assert n == |b| ==> b[..n] == b && b[n..] == [];
      assert s[..4] == EncodeGroup(b[..n]) && s[4..] == Encode(b[n..]);
      assert Encode(b[n..]) != "" <==> n < |b|;
      assert b[..n] + b[n..] == b;
    }
  }

  /** The inner loop of `base64_decode`: the four values and how many were padding. */
  method ReadGroup(input: string, i: nat) returns (ok: bool, triple: nat, pad: nat)
    requires i + 4 <= |input|
    ensures var g := input[i..i + 4];
            && (ok <==> DecodeGroup(g, i + 4 == |input|).Some?)
            && (ok ==> pad <= 2 && DecodeGroup(g, i + 4 == |input|) == Some(Octets(triple, 3 - pad)))
  {
    hide Sextet, FromSextets, Octets;
    ghost var g, last := input[i..i + 4], i + 4 == |input|;
    var v := new int[4](k => 0);
    var j := 0;
    pad := 0;
    while j < 4
      invariant 0 <= j <= 4
      invariant forall k :: 0 <= k < j ==> Allowed(g, last, k) && v[k] == Bits(g[k]) >= 0
      invariant pad == (if j > 2 && g[2] == '=' then 1 else 0) + if j > 3 && g[3] == '=' then 1 else 0
    {
      var c := input[i + j];
      assert c == g[j];
      if c == '=' {
        if i + 4 != |input| || j < 2 {
          assert !Allowed(g, last, j);
          return false, 0, 0;
        }
        v[j] := 0;
        pad := pad + 1;
      } else {
        v[j] := Sextet(c);
        if v[j] < 0 || pad != 0 {
          assert !Allowed(g, last, j);
          return false, 0, 0;
        }
      }
      j := j + 1;
    }
    triple := FromSextets(v[0], v[1], v[2], v[3]);
    assert Allowed(g, last, 0) && Allowed(g, last, 1) && Allowed(g, last, 2) && Allowed(g, last, 3);
    return true, triple, pad;
  }

  lemma {:induction false} DecodeInGroups(s: string)
    requires |s| % 4 != 0
    ensures Decode(s) == None
    decreases |s|
  {
    hide DecodeGroup;
    if |s| >= 4 { DecodeInGroups(s[4..]); }
  }

  lemma DecodeNext(s: string, i: nat)
    requires i < |s| && (|s| - i) % 4 == 0
    ensures i + 4 <= |s|
    ensures var head, tail := DecodeGroup(s[i..i + 4], i + 4 == |s|), Decode(s[i + 4..]);
            Decode(s[i..]) == if head.None? || tail.None? then None else Some(head.value + tail.value)
  {
    hide DecodeGroup;
    assert s[i..][..4] == s[i..i + 4] && s[i..][4..] == s[i + 4..];
  }

  /** The last loop of `base64_decode`: the octets of one group, as far as there is room. */
  method WriteGroup(out: array<Octet>, produced: nat, triple: nat, bytes: nat) returns (ok: bool)
    requires produced <= out.Length && bytes <= 3
    modifies out
    ensures ok <==> produced + bytes <= out.Length
    ensures ok ==> out[..produced + bytes] == old(out[..produced]) + Octets(triple, bytes)
    ensures ok ==> out[produced + bytes..] == old(out[produced + bytes..])
  {
    hide OctetAt;
    ghost var done := out[..produced];
    assert done + Octets(triple, 0) == done;
    for j := 0 to bytes
      invariant produced + j <= out.Length
      invariant out[..produced + j] == done + Octets(triple, j)
      invariant out[produced + j..] == old(out[produced + j..])
    {
      if produced + j >= out.Length {
        return false;
      }
      out[produced + j] := OctetAt(triple, j);
      assert out[..produced + j + 1] == out[..produced + j] + [OctetAt(triple, j)];
      assert Octets(triple, j + 1) == Octets(triple, j) + [OctetAt(triple, j)];
    }
    return true;
  }

  /** The first i characters decode to these octets. */
  ghost predicate Progress(s: string, i: nat, done: seq<Octet>)
    requires i <= |s|
  {
    Decode(s) == match Decode(s[i..]) case None => None case Some(tail) => Some(done + tail)
  }

  lemma ProgressStep(s: string, i: nat, done: seq<Octet>, head: Option<seq<Octet>>)
    requires i < |s| && (|s| - i) % 4 == 0 && i + 4 <= |s| && Progress(s, i, done)
    requires head == DecodeGroup(s[i..i + 4], i + 4 == |s|)
    ensures head.None? ==> Decode(s) == None
    ensures head.Some? ==> Progress(s, i + 4, done + head.value)
  {
    hide DecodeGroup, Decode;
    DecodeNext(s, i);
    var tail := Decode(s[i + 4..]);
    if head.Some? && tail.Some? {
      assert done + (head.value + tail.value) == done + head.value + tail.value;
    }
  }

  lemma ProgressStarts(s: string)
    ensures Progress(s, 0, [])
  {
    assert s[0..] == s;
    if Decode(s).Some? { assert [] + Decode(s).value == Decode(s).value; }
  }

  lemma ProgressEnds(s: string, done: seq<Octet>)
    requires Progress(s, |s|, done)
    ensures Decode(s) == Some(done)
  {
    assert s[|s|..] == "" && done + [] == done;
  }

  lemma ProgressPrefix(s: string, i: nat, done: seq<Octet>)
    requires i <= |s| && Progress(s, i, done)
    ensures Decode(s).Some? ==> done <= Decode(s).value
  {}

  /** `base64_decode`: the octets written, or -1. */
  method Base64Decode(input: string, out: array<Octet>) returns (r: int)
    modifies out
    ensures r >= 0 <==> Decode(input).Some? && |Decode(input).value| <= out.Length
    ensures r >= 0 ==> r == |Decode(input).value| && out[..r] == Decode(input).value && out[r..] == old(out[r..])
    ensures r < 0 ==> r == -1
  {
    hide DecodeGroup, Decode, Octets, Progress;
    if |input| % 4 != 0 {
      DecodeInGroups(input);
      return -1;
    }
    ProgressStarts(input);
    var i, produced := 0, 0;
    while i < |input|
      invariant 0 <= i <= |input| && (|input| - i) % 4 == 0 && 0 <= produced <= out.Length
      invariant out[produced..] == old(out[..])[produced..] && Progress(input, i, out[..produced])
    {
      ghost var done, was := out[..produced], out[..];
      var ok, triple, pad := ReadGroup(input, i);
      ProgressStep(input, i, done, DecodeGroup(input[i..i + 4], i + 4 == |input|));
      if !ok {
        return -1;
      }
      var bytes := 3 - pad;
      ghost var more := done + Octets(triple, bytes);
      ProgressPrefix(input, i + 4, more);
      ok := WriteGroup(out, produced, triple, bytes);
      if !ok {
        return -1;
      }
      assert out[..produced + bytes] == more;
      assert out[produced + bytes..] == was[produced..][bytes..] == old(out[..])[produced..][bytes..];
      i, produced := i + 4, produced + bytes;
    }
    ProgressEnds(input, out[..produced]);
    return produced;
  }

  // ---- Which strings are what the encoder writes ----

  /** The bits of a group that stand for no octet. */
  function GroupLeftover(g: string): int
    requires |g| == 4
  {
    if Padding(g) == 2 then Bits(g[1]) % 16 else if Padding(g) == 1 then Bits(g[2]) % 4 else 0
  }

  /** The bits left over before the padding. */
  function Leftover(s: string): int {
    if |s| < 4 then 0 else GroupLeftover(s[|s| - 4..])
  }

  lemma OctetsOfSextets(v0: nat, v1: nat, v2: nat, v3: nat)
    requires v0 < 64 && v1 < 64 && v2 < 64 && v3 < 64
    ensures var t := FromSextets(v0, v1, v2, v3);
            && OctetAt(t, 0) == v0 * 4 + v1 / 16 && OctetAt(t, 1) == v1 % 16 * 16 + v2 / 4
            && OctetAt(t, 2) == v2 % 4 * 64 + v3
  {
    var o0, o1, o2 := v0 * 4 + v1 / 16, v1 % 16 * 16 + v2 / 4, v2 % 4 * 64 + v3;
    assert FromSextets(v0, v1, v2, v3) == FromOctets(o0, o1, o2);
    OctetsRecombine(o0, o1, o2);
  }

  lemma SextetsOfOctets(v0: nat, v1: nat, v2: nat, v3: nat)
    requires v0 < 64 && v1 < 64 && v2 < 64 && v3 < 64
    ensures var t := FromOctets(v0 * 4 + v1 / 16, v1 % 16 * 16 + v2 / 4, v2 % 4 * 64 + v3);
            SextetAt(t, 0) == v0 && SextetAt(t, 1) == v1 && SextetAt(t, 2) == v2 && SextetAt(t, 3) == v3
  {
    hide SextetAt;
    var t := FromOctets(v0 * 4 + v1 / 16, v1 % 16 * 16 + v2 / 4, v2 % 4 * 64 + v3);
    SextetsAre(t);
    assert t == 64 * (64 * (64 * v0 + v1) + v2) + v3;
  }

  /** What a group encodes to again: its own sextets, the leftover bits cleared. */
  lemma GroupAgain(g: string, last: bool)
    requires |g| == 4 && DecodeGroup(g, last).Some?
    ensures var b := DecodeGroup(g, last).value;
            && |b| == 3 - Padding(g) && (EncodeGroup(b) == g <==> GroupLeftover(g) == 0)
  {
    hide SextetAt, OctetAt, FromOctets, FromSextets, Symbol, Sextet;
    var v0: nat, v1: nat, v2: nat, v3: nat := Bits(g[0]), Bits(g[1]), Bits(g[2]), Bits(g[3]);
    var t := FromSextets(v0, v1, v2, v3);
    var b := DecodeGroup(g, last).value;
    OctetsOfSextets(v0, v1, v2, v3);
    assert Octets(t, 1) == [OctetAt(t, 0)] && Octets(t, 2) == [OctetAt(t, 0), OctetAt(t, 1)];
    assert Octets(t, 3) == [OctetAt(t, 0), OctetAt(t, 1), OctetAt(t, 2)];
    if Padding(g) == 0 {
      SextetsOfOctets(v0, v1, v2, v3);
    } else if Padding(g) == 1 {
      SextetsOfOctets(v0, v1, v2 / 4 * 4, 0);
      SextetOfSymbol(v2 / 4 * 4);
    } else {
      SextetsOfOctets(v0, v1 / 16 * 16, 0, 0);
      SextetOfSymbol(v1 / 16 * 16);
    }
  }

  /** A string that decodes is the encoding of what it decodes to exactly when the bits left over before its padding
      are zero; otherwise it decodes all the same, which section 3.5 of RFC 4648 lets a decoder do. */
  lemma {:induction false} CanonicalIff(s: string)
    requires Decode(s).Some?
    ensures Encode(Decode(s).value) == s <==> Leftover(s) == 0
    decreases |s|
  {
    if s != "" {
      hide DecodeGroup, EncodeGroup, Padding;
      var g, rest := s[..4], s[4..];
      GroupAgain(g, |s| == 4);
      var head, tail := DecodeGroup(g, |s| == 4).value, Decode(rest).value;
      if rest == "" {
        assert head + tail == head && s[|s| - 4..] == g == s;
      } else {
        CanonicalIff(rest);
        Unpadded(g);
        DecodesToSome(rest);
        var b := head + tail;
        assert b[..3] == head && b[3..] == tail;
        assert rest[|rest| - 4..] == s[|s| - 4..];
        assert s == g + rest;
        assert Encode(b)[..4] == EncodeGroup(head) && Encode(b)[4..] == Encode(tail);
      }
    }
  }

  lemma Unpadded(g: string)
    requires |g| == 4 && DecodeGroup(g, false).Some?
    ensures Padding(g) == 0 && GroupLeftover(g) == 0
  {
    assert Allowed(g, false, 2) && Allowed(g, false, 3);
  }

  lemma DecodesToSome(s: string)
    requires s != "" && Decode(s).Some?
    ensures |s| >= 4 && |Decode(s).value| > 0
  {
    hide EncodeGroup;
    GroupAgain(s[..4], |s| == 4);
  }

  /** A string with such bits, and the one the encoder writes. */
  lemma LeftoverBitsAreIgnored()
    ensures Decode("QQ==") == Decode("QR==") == Some([65]) && Encode([65]) == "QQ=="
    ensures Leftover("QQ==") == 0 && Leftover("QR==") == 1
  {
    assert "QQ=="[4..] == "" && "QR=="[4..] == "" && Decode("") == Some([]);
    assert "QQ=="[..4] == "QQ==" && "QR=="[..4] == "QR==";
    assert Bits('Q') == 16 && Bits('R') == 17;
    assert FromOctets(65, 0, 0) == 4259840 && SextetAt(4259840, 0) == 16 && SextetAt(4259840, 1) == 16;
    assert EncodeGroup([65]) == "QQ==";
    assert Octets(FromSextets(16, 16, 0, 0), 1) == Octets(FromSextets(16, 17, 0, 0), 1) == [65];
    assert DecodeGroup("QQ==", true) == Some([65]) && DecodeGroup("QR==", true) == Some([65]);
    var none: seq<Octet> := [];
    assert [65] + none == [65];
  }
}
