/** Context enumeration of the prior model (`Prior._gen_context_tensor` and
    `Prior._make_contexts`): an explicit list of 0/1 vectors is taken as it
    is; otherwise the integers 0 .. 2^n - 2 are turned into masks, world j
    belonging to context i exactly when bit j of i is clear. */
module Contexts {
  import opened Wrappers
  import opened Masks
  import opened Domain

  function Pow2(n: nat): (r: nat)
    ensures r >= 1
  {
    if n == 0 then 1 else 2 * Pow2(n - 1)
  }

  /** Bit j of i, that is `(i & 2**j) != 0`. */
  function TestBit(i: nat, j: nat): bool {
    if j == 0 then i % 2 == 1 else TestBit(i / 2, j - 1)
  }

  /** `_gen_context_tensor(i, n)`: `(i & 2**arange(n)).eq(0)`, one entry per world. */
  function GenContext(i: nat, n: nat): (r: Mask)
    ensures |r| == n
  {
    seq(n, j requires 0 <= j < n => !TestBit(i, j))
  }

  /** The number a mask was generated from: bit j is set where world j is absent. */
  function ContextCode(m: Mask): nat {
    if m == [] then 0 else (if m[0] then 0 else 1) + 2 * ContextCode(m[1..])
  }

  /** `torch.IntTensor(c).bool()`: a non-zero entry is true. */
  function ToMask(c: seq<int>): (r: Mask)
    ensures |r| == |c|
    ensures forall j :: 0 <= j < |c| ==> (r[j] <==> c[j] != 0)
  {
    seq(|c|, j requires 0 <= j < |c| => c[j] != 0)
  }

  predicate SameLengths(rows: seq<seq<int>>) {
    forall k :: 0 <= k < |rows| ==> |rows[k]| == |rows[0]|
  }

  /** `_make_contexts(cont_str, n)`. `torch.stack` raises on an empty list
      (with n = 0 none is generated) and on rows of different lengths. */
  function MakeContexts(contexts: Option<seq<seq<int>>>, n: nat): (r: Result<seq<Mask>, Error>)
    ensures contexts.Some? ==>
      (r.Ok? <==> contexts.value != [] && SameLengths(contexts.value))
    ensures contexts.Some? && r.Ok? ==>
      |r.value| == |contexts.value| &&
      forall k, j :: 0 <= k < |r.value| && 0 <= j < |contexts.value[k]| ==>
        |r.value[k]| == |contexts.value[k]| && (r.value[k][j] <==> contexts.value[k][j] != 0)
    ensures contexts.None? ==> (r.Ok? <==> n > 0)
    ensures contexts.None? && r.Ok? ==>
      |r.value| == Pow2(n) - 1 &&
      forall i :: 0 <= i < |r.value| ==> r.value[i] == GenContext(i, n)
    ensures r.Err? ==> r.error == StackError
  {
    match contexts
    case Some(rows) =>
      if rows == [] || !SameLengths(rows) then Err(StackError)
      else Ok(seq(|rows|, k requires 0 <= k < |rows| => ToMask(rows[k])))
    case None =>
      if Pow2(n) - 1 == 0 then Err(StackError)
      else Ok(seq(Pow2(n) - 1, i requires 0 <= i < Pow2(n) - 1 => GenContext(i, n)))
  }

  /** Splitting off world 0: its membership is the lowest bit, the rest is i / 2. */
  lemma GenContextCons(i: nat, n: nat)
    ensures GenContext(i, n + 1) == [i % 2 == 0] + GenContext(i / 2, n)
  {
    var a, b := GenContext(i, n + 1), [i % 2 == 0] + GenContext(i / 2, n);
    forall j | 0 <= j < n + 1 ensures a[j] == b[j] {
      if j > 0 {
        assert b[j] == GenContext(i / 2, n)[j - 1];
      }
    }
  }

  /** Context i has world j exactly when bit j of i is clear. */
  lemma ContextHasWorld(i: nat, n: nat, j: nat)
    requires j < n
    ensures GenContext(i, n)[j] <==> (i / Pow2(j)) % 2 == 0
  {
    TestBitDiv(i, j);
  }

  lemma {:induction false} TestBitDiv(i: nat, j: nat)
    ensures TestBit(i, j) <==> (i / Pow2(j)) % 2 == 1
  {
    if j > 0 {
      TestBitDiv(i / 2, j - 1);
      DivDiv(i, Pow2(j - 1));
    }
  }

  lemma DivDiv(i: nat, p: nat)
    requires p >= 1
    ensures i / 2 / p == i / (2 * p)
  {
    var h := i / 2;
    Combine(i, h, i % 2, p, h / p, h % p);
    DivUnique(i, 2 * p, h / p, 2 * (h % p) + i % 2);
  }

  /** i = 2h + b and h = pq + s together give i = (2p)q + (2s + b), whose remainder is below 2p. */
  lemma Combine(i: nat, h: nat, b: nat, p: nat, q: nat, s: nat)
    requires i == 2 * h + b && b < 2
    requires h == p * q + s && s < p
    ensures i == (2 * p) * q + (2 * s + b) && 2 * s + b < 2 * p
  {
    DoubleProduct(p, q);
  }

  lemma DoubleProduct(p: nat, q: nat)
    ensures (2 * p) * q == 2 * (p * q)
  {
  }

  lemma DivUnique(x: nat, p: nat, q: nat, r: nat)
    requires p >= 1 && x == p * q + r && r < p
    ensures x / p == q
  {
    var q', r' := x / p, x % p;
    assert x == p * q' + r' && r' < p;
    var d := q' - q;
    assert p * d == r - r' by {
      assert p * q' - p * q == p * (q' - q);
    }
    NoSmallMultiple(p, d);
  }

  lemma NoSmallMultiple(p: int, d: int)
    requires p >= 1 && -p < p * d < p
    ensures d == 0
  {
  }

  /** Decoding a generated context gives back the integer it was generated from. */
  lemma {:induction false} CodeOfGenContext(i: nat, n: nat)
    requires i < Pow2(n)
    ensures ContextCode(GenContext(i, n)) == i
  {
    if n > 0 {
      GenContextCons(i, n - 1);
      assert GenContext(i, n)[1..] == GenContext(i / 2, n - 1);
      CodeOfGenContext(i / 2, n - 1);
    }
  }

  /** Every mask of length n is generated, from its code, which is below 2^n. */
  lemma {:induction false} GenContextOfCode(m: Mask)
    ensures ContextCode(m) < Pow2(|m|)
    ensures GenContext(ContextCode(m), |m|) == m
  {
    if m != [] {
      GenContextOfCode(m[1..]);
      var c := ContextCode(m);
      assert c % 2 == (if m[0] then 0 else 1);
      assert c / 2 == ContextCode(m[1..]);
      GenContextCons(c, |m| - 1);
      assert m == [m[0]] + m[1..];
    }
  }

  /** The empty mask has the largest code, 2^n - 1. */
  lemma {:induction false} CodeOfNoWorlds(n: nat)
    ensures ContextCode(NoWorlds(n)) == Pow2(n) - 1
  {
    if n > 0 {
      assert NoWorlds(n)[1..] == NoWorlds(n - 1);
      CodeOfNoWorlds(n - 1);
    }
  }

  /** Context 0 is the mask of all worlds. */
  lemma FirstContextIsFull(n: nat, j: nat)
    requires j < n
    ensures GenContext(0, n)[j]
  {
    TestBitZero(j);
  }

  lemma {:induction false} TestBitZero(j: nat)
    ensures !TestBit(0, j)
  {
    if j > 0 {
      TestBitZero(j - 1);
    }
  }

  /** No integer below 2^n - 1 generates the empty mask. */
  lemma GenContextNotEmpty(i: nat, n: nat)
    requires i < Pow2(n) - 1
    ensures Any(GenContext(i, n))
  {
    if !Any(GenContext(i, n)) {
      assert GenContext(i, n) == NoWorlds(n);
      CodeOfGenContext(i, n);
      CodeOfNoWorlds(n);
    }
  }

  /** Distinct integers below 2^n generate distinct masks. */
  lemma GenContextInjective(i: nat, k: nat, n: nat)
    requires i < Pow2(n) && k < Pow2(n) && i != k
    ensures GenContext(i, n) != GenContext(k, n)
  {
    CodeOfGenContext(i, n);
    CodeOfGenContext(k, n);
  }

  /** Without an explicit list, the generated contexts are exactly the
      non-empty masks over the n worlds, each once, starting with the mask
      of all worlds. */
  lemma GeneratedContexts(n: nat)
    requires n > 0
    ensures MakeContexts(None, n).Ok?
    ensures var cs := MakeContexts(None, n).value;
      && |cs| == Pow2(n) - 1
      && (forall j :: 0 <= j < n ==> cs[0][j])
      && (forall m :: m in cs <==> |m| == n && Any(m))
      && (forall i, k :: 0 <= i < k < |cs| ==> cs[i] != cs[k])
  {
    var cs := MakeContexts(None, n).value;
    assert Pow2(n) >= 2 by { assert Pow2(n) == 2 * Pow2(n - 1); }
    forall j | 0 <= j < n ensures cs[0][j] {
      FirstContextIsFull(n, j);
    }
    forall m ensures m in cs <==> |m| == n && Any(m) {
      if m in cs {
        var i :| 0 <= i < |cs| && cs[i] == m;
        GenContextNotEmpty(i, n);
      }
      if |m| == n && Any(m) {
        GenContextOfCode(m);
        var c := ContextCode(m);
        assert c != Pow2(n) - 1 by {
          CodeOfNoWorlds(n);
          GenContextOfCode(NoWorlds(n));
          assert m != NoWorlds(n);
        }
        assert cs[c] == m;
      }
    }
    forall i, k | 0 <= i < k < |cs| ensures cs[i] != cs[k] {
      GenContextInjective(i, k, n);
    }
  }
}
