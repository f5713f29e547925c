/** XOR elections: `Claim::get_election_result`, the ordered maps built from its
    results, the quorum election and the miner election. */
module Elections {
  import opened Arithmetic

  // ---- 64-bit words and their exclusive or --------------------------------

  function Pow2(n: nat): (r: nat)
    ensures r > 0
  {
    if n == 0 then 1 else 2 * Pow2(n - 1)
  }

  /** The exclusive or of the lowest `n` bits. */
  function XorBits(a: nat, b: nat, n: nat): (r: nat)
    ensures r < Pow2(n)
  {
    if n == 0 then 0 else 2 * XorBits(a / 2, b / 2, n - 1) + (if a % 2 == b % 2 then 0 else 1)
  }

  lemma {:induction false} XorBitsTwice(a: nat, b: nat, n: nat)
    requires a < Pow2(n)
    ensures XorBits(XorBits(a, b, n), b, n) == a
  {
    if n > 0 {
      var x, high := XorBits(a, b, n), XorBits(a / 2, b / 2, n - 1);
      XorBitsTwice(a / 2, b / 2, n - 1);
      assert x / 2 == high && x % 2 == if a % 2 == b % 2 then 0 else 1;
      assert XorBits(x, b, n) == 2 * XorBits(high, b / 2, n - 1) + if x % 2 == b % 2 then 0 else 1;
    }
  }

  type Word = x: nat | x < Pow2(64) witness 0

  /** `U256` as its four words, least significant first. */
  datatype U256 = U256(w0: Word, w1: Word, w2: Word, w3: Word)

  function Xor(h: U256, seed: Word): U256 {
    U256(XorBits(h.w0, seed, 64), XorBits(h.w1, seed, 64), XorBits(h.w2, seed, 64), XorBits(h.w3, seed, 64))
  }

  /** Exclusive or with a seed undoes itself, so different hashes have different results. */
  lemma XorTwice(h: U256, seed: Word)
    ensures Xor(Xor(h, seed), seed) == h
  {
    XorBitsTwice(h.w0, seed, 64);
    XorBitsTwice(h.w1, seed, 64);
    XorBitsTwice(h.w2, seed, 64);
    XorBitsTwice(h.w3, seed, 64);
  }

  lemma XorInjective(a: U256, b: U256, seed: Word)
    ensures Xor(a, seed) == Xor(b, seed) <==> a == b
  {
    XorTwice(a, seed);
    XorTwice(b, seed);
  }

  /** The order of `U256`: the most significant differing word decides. */
  predicate Less(a: U256, b: U256) {
    || a.w3 < b.w3
    || (a.w3 == b.w3 && a.w2 < b.w2)
    || (a.w3 == b.w3 && a.w2 == b.w2 && a.w1 < b.w1)
    || (a.w3 == b.w3 && a.w2 == b.w2 && a.w1 == b.w1 && a.w0 < b.w0)
  }

  // ---- What exclusive or and order mean -----------------------------------

  predicate Bit(x: nat, i: nat) {
    if i == 0 then x % 2 == 1 else Bit(x / 2, i - 1)
  }

  /** Each bit of the exclusive or is set exactly if the two bits differ. */
  lemma {:induction false} XorBitwise(a: nat, b: nat, n: nat, i: nat)
    requires i < n
    ensures Bit(XorBits(a, b, n), i) <==> Bit(a, i) != Bit(b, i)
  {
    var x, high := XorBits(a, b, n), XorBits(a / 2, b / 2, n - 1);
    assert x / 2 == high && x % 2 == if a % 2 == b % 2 then 0 else 1;
    if i > 0 {
      XorBitwise(a / 2, b / 2, n - 1, i - 1);
    }
  }

  function WordAt(h: U256, k: nat): Word
    requires k < 4
  {
    if k == 0 then h.w0 else if k == 1 then h.w1 else if k == 2 then h.w2 else h.w3
  }

  /** An election result has, in each of its four words, exactly the bits in which that
      word of the claim's hash differs from the seed. */
  lemma ResultBitwise(h: U256, seed: Word, k: nat, i: nat)
    requires k < 4 && i < 64
    ensures Bit(WordAt(Xor(h, seed), k), i) <==> Bit(WordAt(h, k), i) != Bit(seed, i)
  {
    XorBitwise(WordAt(h, k), seed, 64, i);
  }

  function Join(high: nat, low: nat, base: nat): nat {
    high * base + low
  }

  function ValueIn(h: U256, base: nat): nat {
    Join(Join(Join(h.w3, h.w2, base), h.w1, base), h.w0, base)
  }

  /** The 256-bit value of the four words. */
  function Value(h: U256): nat {
    ValueIn(h, Pow2(64))
  }

  lemma HighFirst(high: nat, low: nat, high': nat, low': nat, base: nat)
    requires low < base && low' < base
    ensures Join(high, low, base) < Join(high', low', base) <==> high < high' || (high == high' && low < low')
    ensures Join(high, low, base) == Join(high', low', base) <==> high == high' && low == low'
  {
    if high < high' {
      Apart(high, high', base);
    } else if high' < high {
      Apart(high', high, base);
    }
  }

  lemma Apart(a: nat, b: nat, base: nat)
    requires a < b
    ensures a * base + base <= b * base
  {
    Scaled(a + 1, b, base);
    Expand(a, base);
  }

  lemma LessIn(a: U256, b: U256, base: nat)
    requires a.w0 < base && a.w1 < base && a.w2 < base && b.w0 < base && b.w1 < base && b.w2 < base
    ensures Less(a, b) <==> ValueIn(a, base) < ValueIn(b, base)
  {
    var a2, b2 := Join(a.w3, a.w2, base), Join(b.w3, b.w2, base);
    HighFirst(a.w3, a.w2, b.w3, b.w2, base);
    HighFirst(a2, a.w1, b2, b.w1, base);
    HighFirst(Join(a2, a.w1, base), a.w0, Join(b2, b.w1, base), b.w0, base);
  }

  /** The order of the map's keys is the order of their 256-bit values. */
  lemma LessIsOrder(a: U256, b: U256)
    ensures Less(a, b) <==> Value(a) < Value(b)
  {
    LessIn(a, b, Pow2(64));
  }

  // ---- The first entry of an ordered map ----------------------------------

  predicate IsLeast(keys: set<U256>, k: U256) {
    k in keys && forall x <- keys :: x == k || Less(k, x)
  }

  lemma {:induction false} LeastExists(keys: set<U256>)
    requires keys != {}
    ensures exists k :: IsLeast(keys, k)
  {
    var x :| x in keys;
    var rest := keys - {x};
    var least := x;
    if rest != {} {
      LeastExists(rest);
      var y :| IsLeast(rest, y);
      least := if Less(x, y) then x else y;
    }
    forall z <- keys ensures z == least || Less(least, z) {
      assert z == x || z in rest;
    }
    assert IsLeast(keys, least);
  }

  function Least(keys: set<U256>): (k: U256)
    requires keys != {}
    ensures IsLeast(keys, k)
  {
    LeastExists(keys);
    var k :| k in keys && IsLeast(keys, k); k
  }

  // ---- Collecting pairs into an ordered map -------------------------------

  /** `collect` into a `BTreeMap`: a later pair with the same key replaces an earlier one. */
  function Collect<V>(pairs: seq<(U256, V)>): map<U256, V> {
    if pairs == [] then map[]
    else var last := |pairs| - 1; Collect(pairs[..last])[pairs[last].0 := pairs[last].1]
  }

  ghost predicate DistinctKeys<V>(pairs: seq<(U256, V)>) {
    forall i, j :: 0 <= i < j < |pairs| ==> pairs[i].0 != pairs[j].0
  }

  lemma {:induction false} CollectFaithful<V>(pairs: seq<(U256, V)>)
    ensures var m := Collect(pairs);
            && (forall k <- m :: (k, m[k]) in pairs)
            && (forall p <- pairs :: p.0 in m)
            && |m| <= |pairs|
  {
    if pairs != [] {
      var last := |pairs| - 1;
      CollectFaithful(pairs[..last]);
      assert pairs == pairs[..last] + [pairs[last]];
      assert Collect(pairs).Keys == Collect(pairs[..last]).Keys + {pairs[last].0};
    }
  }

  /** No later pair has the key of pair `i`. */
  ghost predicate LastOfKey<V>(pairs: seq<(U256, V)>, i: nat)
    requires i < |pairs|
  {
    forall j :: i < j < |pairs| ==> pairs[j].0 != pairs[i].0
  }

  /** The last pair with a key decides its value. */
  lemma {:induction false} LastDecides<V>(pairs: seq<(U256, V)>, i: nat)
    requires i < |pairs| && LastOfKey(pairs, i)
    ensures var m := Collect(pairs); pairs[i].0 in m && m[pairs[i].0] == pairs[i].1
  {
    var last := |pairs| - 1;
    if i < last {
      LastDecides(pairs[..last], i);
    }
  }

  lemma {:induction false} LastExists<V>(pairs: seq<(U256, V)>, k: U256) returns (i: nat)
    requires k in Collect(pairs)
    ensures i < |pairs| && LastOfKey(pairs, i) && pairs[i] == (k, Collect(pairs)[k])
  {
    var last := |pairs| - 1;
    if pairs[last].0 == k {
      i := last;
    } else {
      i := LastExists(pairs[..last], k);
    }
  }

  /** With distinct keys nothing is replaced. */
  lemma CollectDistinct<V>(pairs: seq<(U256, V)>)
    requires DistinctKeys(pairs)
    ensures var m := Collect(pairs);
            |m| == |pairs| && forall p <- pairs :: p.0 in m && m[p.0] == p.1
  {
    CollectSize(pairs);
    forall p | p in pairs ensures p.0 in Collect(pairs) && Collect(pairs)[p.0] == p.1 {
      var i: nat :| i < |pairs| && pairs[i] == p;
      LastDecides(pairs, i);
    }
  }

  lemma {:induction false} CollectSize<V>(pairs: seq<(U256, V)>)
    requires DistinctKeys(pairs)
    ensures |Collect(pairs)| == |pairs|
  {
    if pairs != [] {
      var last := |pairs| - 1;
      CollectSize(pairs[..last]);
      CollectFaithful(pairs[..last]);
      assert pairs[last].0 !in Collect(pairs[..last]);
      assert Collect(pairs).Keys == Collect(pairs[..last]).Keys + {pairs[last].0};
    }
  }

  lemma KeysKept<V>(a: seq<(U256, V)>, b: seq<(U256, V)>)
    requires forall p <- a :: p in b
    ensures Collect(a).Keys <= Collect(b).Keys
  {
    CollectFaithful(a);
    CollectFaithful(b);
    var x := Collect(a);
    forall k <- x ensures k in Collect(b) {
      assert (k, x[k]) in b;
    }
  }

  /** The keys never depend on the order of the pairs; with distinct keys the map does not either. */
  lemma CollectIgnoresOrder<V>(a: seq<(U256, V)>, b: seq<(U256, V)>)
    requires forall p :: p in a <==> p in b
    ensures Collect(a).Keys == Collect(b).Keys
    ensures DistinctKeys(a) && DistinctKeys(b) ==> Collect(a) == Collect(b)
  {
    KeysKept(a, b);
    KeysKept(b, a);
    if DistinctKeys(a) && DistinctKeys(b) {
      forall k <- Collect(a) ensures Collect(a)[k] == Collect(b)[k] {
        ValueKept(a, b, k);
      }
    }
  }

  lemma ValueKept<V>(a: seq<(U256, V)>, b: seq<(U256, V)>, k: U256)
    requires (forall p <- a :: p in b) && DistinctKeys(b) && k in Collect(a)
    ensures k in Collect(b) && Collect(a)[k] == Collect(b)[k]
  {
    CollectFaithful(a);
    CollectDistinct(b);
    assert (k, Collect(a)[k]) in b;
  }

  // ---- Claims -------------------------------------------------------------

  datatype Eligibility = Harvester | Miner | Farmer | NotEligible

  datatype Claim = Claim(publicKey: nat, address: nat, hash: U256, eligibility: Eligibility)

  function Ballots(claims: seq<Claim>, seed: Word): seq<(U256, Claim)> {
    seq(|claims|, i requires 0 <= i < |claims| => (Xor(claims[i].hash, seed), claims[i]))
  }

  ghost predicate DistinctHashes(claims: seq<Claim>) {
    forall i, j :: 0 <= i < j < |claims| ==> claims[i].hash != claims[j].hash
  }

  lemma BallotsDistinct(claims: seq<Claim>, seed: Word)
    requires DistinctHashes(claims)
    ensures DistinctKeys(Ballots(claims, seed))
  {
    forall i, j | 0 <= i < j < |claims| ensures Ballots(claims, seed)[i].0 != Ballots(claims, seed)[j].0 {
      XorInjective(claims[i].hash, claims[j].hash, seed);
    }
  }

  ghost predicate SameClaims(a: seq<Claim>, b: seq<Claim>) {
    forall c :: c in a <==> c in b
  }

  lemma BallotsHaveClaims(claims: seq<Claim>, seed: Word, p: (U256, Claim))
    ensures p in Ballots(claims, seed) <==> p.1 in claims && p.0 == Xor(p.1.hash, seed)
  {
    var b := Ballots(claims, seed);
    if p.1 in claims && p.0 == Xor(p.1.hash, seed) {
      var i :| 0 <= i < |claims| && claims[i] == p.1;
      assert b[i] == p;
    }
  }

  lemma ElectionIgnoresOrder(a: seq<Claim>, b: seq<Claim>, seed: Word)
    requires SameClaims(a, b)
    ensures Collect(Ballots(a, seed)).Keys == Collect(Ballots(b, seed)).Keys
    ensures DistinctHashes(a) && DistinctHashes(b) ==> Collect(Ballots(a, seed)) == Collect(Ballots(b, seed))
  {
    forall p ensures p in Ballots(a, seed) <==> p in Ballots(b, seed) {
      BallotsHaveClaims(a, seed, p);
      BallotsHaveClaims(b, seed, p);
    }
    CollectIgnoresOrder(Ballots(a, seed), Ballots(b, seed));
    if DistinctHashes(a) && DistinctHashes(b) {
      BallotsDistinct(a, seed);
      BallotsDistinct(b, seed);
    }
  }
}
