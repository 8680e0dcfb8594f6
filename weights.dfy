/** Weight vectors over exact reals: the `torch.ones(n) / n` vector, the
    elementwise product with a boolean mask and the division by the sum
    that normalise a world prior against a context. */
module Weights {
  import opened Masks

  function Sum(s: seq<real>): real {
    if s == [] then 0.0 else s[0] + Sum(s[1..])
  }

  /** `torch.ones(n) / n`. */
  function Uniform(n: nat): (r: seq<real>)
    ensures |r| == n
    ensures forall j :: 0 <= j < n ==> r[j] == 1.0 / n as real
  {
    if n == 0 then [] else seq(n, _ => 1.0 / n as real)
  }

  /** `w * c` for a boolean mask c: the weight is kept where c is true and
      multiplied by zero elsewhere. */
  function Masked(w: seq<real>, c: Mask): (r: seq<real>)
    requires |w| == |c|
    ensures |r| == |w|
    ensures forall j :: 0 <= j < |r| ==> r[j] == if c[j] then w[j] else 0.0
  {
    seq(|w|, j requires 0 <= j < |w| => w[j] * (if c[j] then 1.0 else 0.0))
  }

  /** `a / s` elementwise. */
  function DivideAll(a: seq<real>, s: real): (r: seq<real>)
    requires s != 0.0
    ensures |r| == |a|
    ensures forall j :: 0 <= j < |r| ==> r[j] == a[j] / s
  {
    seq(|a|, j requires 0 <= j < |a| => a[j] / s)
  }

  lemma {:induction false} SumConstant(n: nat, c: real)
    ensures Sum(seq(n, _ => c)) == n as real * c
  {
    if n > 0 {
      assert seq(n, _ => c)[1..] == seq(n - 1, _ => c);
      SumConstant(n - 1, c);
      assert Sum(seq(n, _ => c)) == c + Sum(seq(n - 1, _ => c));
      assert n as real * c == c + (n - 1) as real * c;
    }
  }

  /** The uniform weights over n > 0 outcomes sum to one. */
  lemma UniformSumsToOne(n: nat)
    requires n > 0
    ensures Sum(Uniform(n)) == 1.0
  {
    SumConstant(n, 1.0 / n as real);
  }

  /** Dividing every entry by s divides the sum by s. */
  lemma {:induction false} SumDivide(a: seq<real>, s: real)
    requires s != 0.0
    ensures Sum(DivideAll(a, s)) == Sum(a) / s
  {
    if a != [] {
      assert DivideAll(a, s)[1..] == DivideAll(a[1..], s);
      SumDivide(a[1..], s);
    }
  }

  /** A vector divided by its own non-zero sum sums to one. */
  lemma NormalisedSumsToOne(a: seq<real>)
    requires Sum(a) != 0.0
    ensures Sum(DivideAll(a, Sum(a))) == 1.0
  {
    SumDivide(a, Sum(a));
    var t := Sum(a);
    assert t / t == 1.0;
  }

  /** Non-negative weights sum to zero exactly when every weight is zero. */
  lemma {:induction false} SumZeroIff(s: seq<real>)
    requires forall j :: 0 <= j < |s| ==> s[j] >= 0.0
    ensures Sum(s) >= 0.0
    ensures Sum(s) == 0.0 <==> forall j :: 0 <= j < |s| ==> s[j] == 0.0
  {
    if s != [] {
      SumZeroIff(s[1..]);
      if Sum(s) == 0.0 {
        forall j | 0 < j < |s| ensures s[j] == 0.0 {
          assert s[j] == s[1..][j - 1];
        }
      } else {
        assert s[0] != 0.0 || exists j :: 0 <= j < |s[1..]| && s[1..][j] != 0.0;
        if s[0] == 0.0 {
          var j :| 0 <= j < |s[1..]| && s[1..][j] != 0.0;
          assert s[j + 1] != 0.0;
        }
      }
    }
  }
}
