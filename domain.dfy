/** The language specification a model is built from (the dictionary the
    language file evaluates to), the ordered-dictionary operations the
    priors and the reasoners apply to it, and the exceptions they raise. */
module Domain {
  import opened Wrappers
  import opened Masks

  /** A Python dict: its (key, value) items in insertion order. */
  type OrderedMap<V> = seq<(string, V)>

  /** The exceptions the modelled code can raise. */
  datatype Error =
    | KeyError(key: string)          // dict lookup of a missing key
    | ValueError(message: string)    // `list.index` of a missing item, an unknown output type
    | NotImplemented                 // the non-uniform QUD prior
    | TypeError                      // a Python int where a tensor is needed; a string used as a list index
    | StackError                     // `torch.stack` of no tensors or of tensors of different sizes
    | NotOneHot                      // `nonzero().item()` on a mask without exactly one true entry
    | OutOfSupport                   // an index outside `0 .. num_classes - 1` given to `one_hot`
    | ZeroMass                       // a categorical distribution whose weights sum to zero

  /** The contents of a language file. `worldPrior` and `contexts` are the
      optional keys; None stands for an absent key. */
  datatype LangSpec = LangSpec(
    worlds: OrderedMap<string>,                  // world id -> display label
    worldPrior: Option<map<string, real>>,       // world id -> weight
    contexts: Option<seq<seq<int>>>,             // 0/1 vectors over the worlds
    utterances: OrderedMap<Mask>,                // utterance -> worlds it is true of
    quds: OrderedMap<OrderedMap<Mask>>)          // QUD -> (alternative -> worlds)

  /** `list(d.keys())`. */
  function Keys<V>(m: OrderedMap<V>): (r: seq<string>)
    ensures |r| == |m|
    ensures forall i :: 0 <= i < |m| ==> r[i] == m[i].0
  {
    seq(|m|, i requires 0 <= i < |m| => m[i].0)
  }

  /** `list(d.values())`. */
  function Values<V>(m: OrderedMap<V>): (r: seq<V>)
    ensures |r| == |m|
    ensures forall i :: 0 <= i < |m| ==> r[i] == m[i].1
  {
    seq(|m|, i requires 0 <= i < |m| => m[i].1)
  }

  /** Keys of a dict are distinct. */
  predicate DistinctKeys<V>(m: OrderedMap<V>) {
    forall i, k :: 0 <= i < k < |m| ==> m[i].0 != m[k].0
  }

  /** `s.index(x)`: the first position of x, or None where Python raises ValueError. */
  function IndexOf(s: seq<string>, x: string): (r: Option<nat>)
    ensures r.None? <==> x !in s
    ensures r.Some? ==> r.value < |s| && s[r.value] == x
    ensures r.Some? ==> forall k :: 0 <= k < r.value ==> s[k] != x
  {
    if s == [] then None
    else if s[0] == x then Some(0)
    else match IndexOf(s[1..], x)
      case None => None
      case Some(k) => Some(k + 1)
  }

  /** `d[key]` (None where Python raises KeyError). */
  function Lookup<V>(m: OrderedMap<V>, key: string): (r: Option<V>)
    requires DistinctKeys(m)
    ensures r.None? <==> key !in Keys(m)
    ensures forall i :: 0 <= i < |m| && m[i].0 == key ==> r == Some(m[i].1)
  {
    match IndexOf(Keys(m), key)
    case None => None
    case Some(i) => Some(m[i].1)
  }

  /** Every vector of the specification has one entry per world, keys are
      distinct and world-prior weights are non-negative, as the language
      file format prescribes. */
  predicate WellFormed(spec: LangSpec) {
    var n := |spec.worlds|;
    && DistinctKeys(spec.worlds)
    && DistinctKeys(spec.utterances)
    && DistinctKeys(spec.quds)
    && (spec.worldPrior.Some? ==>
          forall w :: w in spec.worldPrior.value ==> spec.worldPrior.value[w] >= 0.0)
    && (spec.contexts.Some? ==>
          forall k :: 0 <= k < |spec.contexts.value| ==> |spec.contexts.value[k]| == n)
    && (forall i :: 0 <= i < |spec.utterances| ==> |spec.utterances[i].1| == n)
    && (forall q :: 0 <= q < |spec.quds| ==>
          DistinctKeys(spec.quds[q].1) &&
          forall a :: 0 <= a < |spec.quds[q].1| ==> |spec.quds[q].1[a].1| == n)
  }
}
