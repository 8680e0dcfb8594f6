/** Boolean tensors of shape (n,) over the worlds, and the tensor operations
    the priors and the reasoners apply to them: `&`, `torch.any`,
    `torch.nn.functional.one_hot` and `torch.nonzero(...).item()`. */
module Masks {
  import opened Wrappers

  /** A world (one-hot), a context, an utterance meaning or a QUD alternative. */
  type Mask = seq<bool>

  /** Elementwise `a & b`. */
  function And(a: Mask, b: Mask): (r: Mask)
    requires |a| == |b|
    ensures |r| == |a|
    ensures forall j :: 0 <= j < |r| ==> r[j] == (a[j] && b[j])
  {
    seq(|a|, j requires 0 <= j < |a| => a[j] && b[j])
  }

  /** `torch.any(m)`. */
  predicate Any(m: Mask) {
    exists j :: 0 <= j < |m| && m[j]
  }

  /** `torch.any(a & b)`: the two masks share a world. */
  predicate Intersects(a: Mask, b: Mask)
    requires |a| == |b|
  {
    Any(And(a, b))
  }

  /** The all-false mask of length n. */
  function NoWorlds(n: nat): (r: Mask)
    ensures |r| == n && !Any(r)
  {
    seq(n, _ => false)
  }

  /** `one_hot(i, num_classes=n).bool()`; `one_hot` raises when i >= n. */
  function OneHot(i: nat, n: nat): (r: Mask)
    requires i < n
    ensures |r| == n && r[i]
    ensures forall j :: 0 <= j < n && j != i ==> !r[j]
  {
    seq(n, j => j == i)
  }

  /** Number of true entries. */
  function TrueCount(m: Mask): nat {
    if m == [] then 0 else (if m[0] then 1 else 0) + TrueCount(m[1..])
  }

  /** A mask with exactly one true entry denotes a single world. */
  predicate IsOneHot(m: Mask) {
    TrueCount(m) == 1
  }

  /** Position of the first true entry, or |m| when there is none. */
  function FirstTrue(m: Mask): (r: nat)
    ensures r <= |m|
    ensures r < |m| ==> m[r]
    ensures forall j :: 0 <= j < r && j < |m| ==> !m[j]
  {
    if m == [] then 0 else if m[0] then 0 else 1 + FirstTrue(m[1..])
  }

  lemma {:induction false} TrueCountNone(m: Mask)
    requires forall j :: 0 <= j < |m| ==> !m[j]
    ensures TrueCount(m) == 0
  {
    if m != [] {
      TrueCountNone(m[1..]);
    }
  }

  /** A mask whose only true entry is at i has exactly one true entry. */
  lemma {:induction false} TrueCountSingle(m: Mask, i: nat)
    requires i < |m| && m[i]
    requires forall j :: 0 <= j < |m| && j != i ==> !m[j]
    ensures TrueCount(m) == 1
  {
    if i == 0 {
      TrueCountNone(m[1..]);
    } else {
      TrueCountSingle(m[1..], i - 1);
    }
  }

  /** A mask with exactly one true entry has no true entry after its first. */
  lemma {:induction false} SingleTrueIsFirst(m: Mask)
    requires TrueCount(m) == 1
    ensures FirstTrue(m) < |m|
    ensures forall j :: 0 <= j < |m| && j != FirstTrue(m) ==> !m[j]
  {
    if m[0] {
      assert TrueCount(m[1..]) == 0;
      ZeroCountNoTrue(m[1..]);
      forall j | 0 < j < |m| ensures !m[j] {
        assert m[j] == m[1..][j - 1];
      }
    } else {
      SingleTrueIsFirst(m[1..]);
      forall j | 0 <= j < |m| && j != FirstTrue(m) ensures !m[j] {
        if j > 0 {
          assert m[j] == m[1..][j - 1];
        }
      }
    }
  }

  lemma {:induction false} ZeroCountNoTrue(m: Mask)
    requires TrueCount(m) == 0
    ensures forall j :: 0 <= j < |m| ==> !m[j]
  {
    if m != [] {
      ZeroCountNoTrue(m[1..]);
      forall j | 0 < j < |m| ensures !m[j] {
        assert m[j] == m[1..][j - 1];
      }
    }
  }

  /** `torch.nonzero(m).item()`: the index of the single true entry;
      `item()` raises unless there is exactly one. */
  function NonzeroItem(m: Mask): (r: Option<nat>)
    ensures r.Some? <==> IsOneHot(m)
    ensures r.Some? ==> r.value < |m| && m[r.value]
    ensures r.Some? ==> forall j :: 0 <= j < |m| && j != r.value ==> !m[j]
  {
    if TrueCount(m) == 1 then
      SingleTrueIsFirst(m);
      Some(FirstTrue(m))
    else
      None
  }

  /** One-hot encoding and `nonzero().item()` are inverse to each other:
      decoding an encoded index gives the index back, and re-encoding a
      decoded one-hot mask gives the mask back. */
  lemma {:induction false} OneHotRoundTrip(i: nat, n: nat, m: Mask)
    requires i < n
    ensures NonzeroItem(OneHot(i, n)) == Some(i)
    ensures NonzeroItem(m).Some? ==> OneHot(NonzeroItem(m).value, |m|) == m
  {
    TrueCountSingle(OneHot(i, n), i);
  }

  /** A one-hot world meets a mask exactly when the mask holds its index. */
  lemma OneHotIntersects(i: nat, a: Mask)
    requires i < |a|
    ensures Intersects(OneHot(i, |a|), a) <==> a[i]
  {
    if a[i] {
      assert And(OneHot(i, |a|), a)[i];
    }
  }
}
