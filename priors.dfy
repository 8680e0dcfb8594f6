/** The prior model (`priors.py`): the fields `Prior.__init__` derives from a
    language specification and the weights and values of the world, context,
    QUD and utterance sample sites. A `pyro.sample` site is modelled by the
    categorical weights it draws from and the value it returns; where the
    site is not observed, the value is the index the enumerating inference
    picks, passed in as `draw`. */
module Priors {
  import opened Wrappers
  import opened Masks
  import opened Weights
  import opened Domain
  import opened Contexts

  /** One sample site: its categorical weights and the value it returns. */
  datatype Draw<T> = Draw(probs: seq<real>, value: T)

  /** `utterance_cost`: the null utterance is free, every other costs one. */
  function UtteranceCost(utterance: string): (c: real)
    ensures c == 0.0 <==> utterance == "_"
    ensures c == 0.0 || c == 1.0
  {
    if utterance == "_" then 0.0 else 1.0
  }

  /** `[world_prior[w] for w in worlds]`; the first world without a weight raises KeyError. */
  function DeclaredWeights(weights: map<string, real>, worlds: seq<string>): (r: Result<seq<real>, Error>)
    ensures r.Ok? <==> forall i :: 0 <= i < |worlds| ==> worlds[i] in weights
    ensures r.Ok? ==> |r.value| == |worlds|
    ensures r.Ok? ==> forall i :: 0 <= i < |worlds| ==> r.value[i] == weights[worlds[i]]
    ensures r.Err? ==>
      exists k :: (0 <= k < |worlds| && worlds[k] !in weights && r.error == KeyError(worlds[k]) &&
                   forall i :: 0 <= i < k ==> worlds[i] in weights)
  {
    if worlds == [] then Ok([])
    else if worlds[0] !in weights then Err(KeyError(worlds[0]))
    else match DeclaredWeights(weights, worlds[1..])
      case Err(e) =>
        ghost var k :| 0 <= k < |worlds[1..]| && worlds[1..][k] !in weights &&
          e == KeyError(worlds[1..][k]) && forall i :: 0 <= i < k ==> worlds[1..][i] in weights;
        assert worlds[k + 1] !in weights && e == KeyError(worlds[k + 1]);
        assert forall i :: 0 <= i < k + 1 ==> worlds[i] in weights by {
          forall i | 0 < i < k + 1 ensures worlds[i] in weights {
            assert worlds[i] == worlds[1..][i - 1];
          }
        }
        Err(e)
      case Ok(rest) =>
        assert forall i :: 0 < i < |worlds| ==> worlds[i] == worlds[1..][i - 1];
        Ok([weights[worlds[0]]] + rest)
  }

  /** The weights given to the world site have no mass: with a context, the
      masked weights sum to zero (dividing by that sum leaves weights that
      are not numbers); without one, the weights themselves sum to zero. */
  predicate NoMass(w: seq<real>, context: Option<Mask>)
    requires context.Some? ==> |context.value| == |w|
  {
    if context.Some? then Sum(Masked(w, context.value)) == 0.0 else Sum(w) == 0.0
  }

  /** The index the world site returns: a drawn index is a tensor; an
      observation is handed back as it was given, here a Python int. */
  datatype SiteIndex = TensorIndex(index: nat) | IntIndex(index: nat)

  /** `one_hot(ix, num_classes=n).bool()`: `one_hot` accepts a tensor only
      (TypeError for a Python int) and raises for an index of n or more. */
  function OneHotOf(ix: SiteIndex, n: nat): (r: Result<Mask, Error>)
    ensures ix.IntIndex? ==> r == Err(TypeError)
    ensures ix.TensorIndex? ==> (r.Ok? <==> ix.index < n)
    ensures ix.TensorIndex? && ix.index >= n ==> r == Err(OutOfSupport)
    ensures r.Ok? ==> |r.value| == n && NonzeroItem(r.value) == Some(ix.index)
  {
    match ix
    case IntIndex(_) => Err(TypeError)
    case TensorIndex(i) =>
      if i < n then
        OneHotRoundTrip(i, n, []);
        Ok(OneHot(i, n))
      else Err(OutOfSupport)
  }

  /** `torch.nonzero(obs).item()`, as `world_prior` converts an observed
      world: the position of the single true entry, as a Python int. */
  function ObservedIndex(obs: Mask): (r: Result<SiteIndex, Error>)
    ensures r.Ok? <==> IsOneHot(obs)
    ensures r.Err? ==> r.error == NotOneHot
    ensures r.Ok? ==> r.value.IntIndex? && r.value.index < |obs| && obs[r.value.index]
  {
    match NonzeroItem(obs)
    case None => Err(NotOneHot)
    case Some(i) => Ok(IntIndex(i))
  }

  /** The conversion evidently intended: the same position wrapped in
      `torch.tensor`, as `qud_prior` wraps its observed index. */
  function ObservedIndexAsTensor(obs: Mask): (r: Result<SiteIndex, Error>)
    ensures r.Ok? <==> IsOneHot(obs)
    ensures r.Err? ==> r.error == NotOneHot
    ensures r.Ok? ==> r.value.TensorIndex? && r.value.index < |obs| && obs[r.value.index]
  {
    match NonzeroItem(obs)
    case None => Err(NotOneHot)
    case Some(i) => Ok(TensorIndex(i))
  }

  /** As written, every one-hot observation of the world fails: the Python
      int reaches `one_hot`, which raises TypeError, whatever the number of
      worlds. */
  lemma ObservedWorldAsWritten(obs: Mask, n: nat)
    requires IsOneHot(obs)
    ensures ObservedIndex(obs).Ok?
    ensures OneHotOf(ObservedIndex(obs).value, n) == Err(TypeError)
  {
  }

  /** With the index wrapped in a tensor, an observed one-hot world comes
      back as the very mask observed. */
  lemma ObservedWorldIntended(obs: Mask)
    requires IsOneHot(obs)
    ensures ObservedIndexAsTensor(obs).Ok?
    ensures OneHotOf(ObservedIndexAsTensor(obs).value, |obs|) == Ok(obs)
  {
    var i := NonzeroItem(obs).value;
    OneHotRoundTrip(i, |obs|, obs);
  }

  class Prior {
    const langSpecs: LangSpec
    const worlds: seq<string>
    const nWorlds: nat
    const contexts: seq<Mask>
    const nContexts: nat
    const utterances: seq<string>
    const nUtterances: nat

    /** The fields are the ones `__init__` derives from the specification. */
    predicate Valid() {
      && WellFormed(langSpecs)
      && worlds == Keys(langSpecs.worlds) && nWorlds == |worlds|
      && MakeContexts(langSpecs.contexts, nWorlds) == Ok(contexts) && nContexts == |contexts|
      && utterances == Keys(langSpecs.utterances) && nUtterances == |utterances|
    }

    /** The assignments of `__init__`, once the contexts have been stacked. */
    constructor (spec: LangSpec, cs: seq<Mask>)
      requires WellFormed(spec) && MakeContexts(spec.contexts, |spec.worlds|) == Ok(cs)
      ensures Valid() && langSpecs == spec && contexts == cs
    {
      langSpecs := spec;
      worlds := Keys(spec.worlds);
      nWorlds := |spec.worlds|;
      contexts := cs;
      nContexts := |cs|;
      utterances := Keys(spec.utterances);
      nUtterances := |spec.utterances|;
    }

    /** `Prior(lang_file)` for the specification the file evaluates to: it
        raises only where `torch.stack` gets no contexts, that is for an
        empty explicit list or, without an explicit list, for zero worlds.
        Without an explicit list there are 2^n - 1 contexts. */
    static method Load(spec: LangSpec) returns (r: Result<Prior, Error>)
      requires WellFormed(spec)
      ensures r.Err? <==> spec.contexts == Some([]) || (spec.contexts.None? && |spec.worlds| == 0)
      ensures r.Err? ==> r.error == StackError
      ensures r.Ok? ==> fresh(r.value) && r.value.Valid() && r.value.langSpecs == spec
      ensures r.Ok? && spec.contexts.None? ==> r.value.nContexts == Pow2(r.value.nWorlds) - 1
      ensures r.Ok? && spec.contexts.Some? ==> r.value.nContexts == |spec.contexts.value|
    {
      var made := MakeContexts(spec.contexts, |spec.worlds|);
      if made.Err? {
        return Err(made.error);
      }
      var p := new Prior(spec, made.value);
      return Ok(p);
    }

    /** The weights `world_prior` starts from: uniform when asked for or when
        the specification declares none, otherwise the declared weights in
        world order. */
    function BaseWeights(uniform: bool): (r: Result<seq<real>, Error>)
      requires Valid()
      ensures r.Ok? ==> |r.value| == nWorlds
      ensures r.Ok? ==> forall j :: 0 <= j < nWorlds ==> r.value[j] >= 0.0
      ensures uniform || langSpecs.worldPrior.None? ==>
        r.Ok? && forall j :: 0 <= j < nWorlds ==> r.value[j] == 1.0 / nWorlds as real
      ensures !uniform && langSpecs.worldPrior.Some? ==>
        (r.Ok? <==> forall j :: 0 <= j < nWorlds ==> worlds[j] in langSpecs.worldPrior.value)
      ensures !uniform && langSpecs.worldPrior.Some? && r.Ok? ==>
        forall j :: 0 <= j < nWorlds ==> r.value[j] == langSpecs.worldPrior.value[worlds[j]]
      ensures r.Err? ==> r.error.KeyError?
    {
      if uniform || langSpecs.worldPrior.None? then
        Ok(Uniform(nWorlds))
      else
        DeclaredWeights(langSpecs.worldPrior.value, worlds)
    }

    /** `world_prior(context, obs, uniform)`. The weights are normalised
        against the context when one is given. The categorical
        distribution rejects weights without mass. An unobserved world is
        the one-hot mask of the index drawn. An observed world never comes
        back: its index is recovered as a Python int, which the sample site
        returns as given and `one_hot` rejects (TypeError); see
        `ObservedWorldAsWritten`. */
    method WorldPrior(context: Option<Mask>, obs: Option<Mask>, uniform: bool, draw: nat)
      returns (r: Result<Draw<Mask>, Error>)
      requires Valid()
      requires context.Some? ==> |context.value| == nWorlds
      requires obs.None? && nWorlds > 0 ==> draw < nWorlds
      ensures BaseWeights(uniform).Err? ==> r == Err(BaseWeights(uniform).error)
      ensures BaseWeights(uniform).Ok? ==>
        (r.Err? <==> obs.Some? || NoMass(BaseWeights(uniform).value, context))
      ensures BaseWeights(uniform).Ok? && obs.Some? && !IsOneHot(obs.value) ==> r == Err(NotOneHot)
      ensures BaseWeights(uniform).Ok? && obs.Some? && IsOneHot(obs.value) ==>
        r == Err(if NoMass(BaseWeights(uniform).value, context) then ZeroMass else TypeError)
      ensures BaseWeights(uniform).Ok? && obs.None? && NoMass(BaseWeights(uniform).value, context) ==>
        r == Err(ZeroMass)
      ensures r.Ok? ==> |r.value.probs| == nWorlds
      ensures r.Ok? && context.None? ==> r.value.probs == BaseWeights(uniform).value
      ensures r.Ok? && context.Some? ==> Sum(r.value.probs) == 1.0
      ensures r.Ok? && context.Some? ==> forall j :: 0 <= j < nWorlds ==>
        r.value.probs[j] ==
          if context.value[j]
          then BaseWeights(uniform).value[j] / Sum(Masked(BaseWeights(uniform).value, context.value))
          else 0.0
      ensures r.Ok? ==> draw < nWorlds
      ensures r.Ok? ==> r.value.value == OneHot(draw, nWorlds) && NonzeroItem(r.value.value) == Some(draw)
    {
      var worldProbs :- BaseWeights(uniform);
      var isNumber := true;
      if context.Some? {
        var masked := Masked(worldProbs, context.value);
        var total := Sum(masked);
        if total == 0.0 {
          isNumber := false;
        } else {
          NormalisedSumsToOne(masked);
          worldProbs := DivideAll(masked, total);
        }
      }
      var ix := TensorIndex(draw);
      if obs.Some? {
        ix :- ObservedIndex(obs.value);
      }
      if !isNumber || Sum(worldProbs) == 0.0 {
        return Err(ZeroMass);
      }
      var world :- OneHotOf(ix, nWorlds);
      r := Ok(Draw(worldProbs, world));
    }

    /** `context_prior()`: a uniform draw over the contexts. A generated
        context is never empty. */
    function ContextPrior(draw: nat): (r: Draw<Mask>)
      requires Valid() && draw < nContexts
      ensures |r.probs| == nContexts && Sum(r.probs) == 1.0
      ensures forall k :: 0 <= k < nContexts ==> r.probs[k] == 1.0 / nContexts as real
      ensures |r.value| == nWorlds
      ensures langSpecs.contexts.None? ==> r.value == GenContext(draw, nWorlds) && Any(r.value)
      ensures langSpecs.contexts.Some? ==> r.value == ToMask(langSpecs.contexts.value[draw])
    {
      UniformSumsToOne(nContexts);
      if langSpecs.contexts.None? then
        GenContextNotEmpty(draw, nWorlds);
        Draw(Uniform(nContexts), contexts[draw])
      else
        Draw(Uniform(nContexts), contexts[draw])
    }

    /** `list(self.lang_specs["quds"].keys())`. */
    function Quds(): (r: seq<string>)
      requires Valid()
      ensures |r| == |langSpecs.quds|
      ensures forall i :: 0 <= i < |r| ==> r[i] == langSpecs.quds[i].0
      ensures forall i, k :: 0 <= i < k < |r| ==> r[i] != r[k]
    {
      Keys(langSpecs.quds)
    }

    /** `qud_prior(world, context, obs, uniform)`. A non-empty observed label
        is looked up first (ValueError when it is not declared); then only
        the uniform mode is implemented. The empty label is skipped by
        `if obs:` but is still passed on as the observation, and indexing
        the QUD list with it raises TypeError. With no QUD declared, the
        categorical distribution over none is rejected before that. */
    function QudPrior(world: Mask, context: Mask, obs: Option<string>, uniform: bool, draw: nat)
      : (r: Result<Draw<string>, Error>)
      requires Valid()
      requires uniform && obs.None? && |Quds()| > 0 ==> draw < |Quds()|
      ensures obs.Some? && obs.value != "" && obs.value !in Quds() ==> r.Err? && r.error.ValueError?
      ensures obs.Some? && obs.value != "" && obs.value in Quds() && uniform ==>
        r.Ok? && r.value.value == obs.value
      ensures !uniform && (obs.None? || obs.value == "" || obs.value in Quds()) ==> r == Err(NotImplemented)
      ensures uniform && |Quds()| == 0 && (obs.None? || obs == Some("")) ==> r == Err(ZeroMass)
      ensures uniform && |Quds()| > 0 && obs == Some("") ==> r == Err(TypeError)
      ensures uniform && |Quds()| > 0 && obs.None? ==> r.Ok? && r.value.value == Quds()[draw]
      ensures r.Ok? ==> r.value.value in Quds()
      ensures r.Ok? ==> |r.value.probs| == |Quds()| && Sum(r.value.probs) == 1.0
      ensures r.Ok? ==> forall k :: 0 <= k < |Quds()| ==> r.value.probs[k] == 1.0 / |Quds()| as real
    {
      var quds := Quds();
      var indexed := obs.Some? && obs.value != "";
      if indexed && IndexOf(quds, obs.value).None? then
        Err(ValueError("not in list"))
      else if !uniform then
        Err(NotImplemented)
      else if |quds| == 0 then
        Err(ZeroMass)
      else if obs == Some("") then
        Err(TypeError)
      else
        var ix := if indexed then IndexOf(quds, obs.value).value else draw;
        UniformSumsToOne(|quds|);
        Ok(Draw(Uniform(|quds|), quds[ix]))
    }

    /** The cost vector `utterance_prior` builds, in utterance order: only
        the null utterance, declared at most once, is free. */
    function UtteranceCosts(): (r: seq<real>)
      requires Valid()
      ensures |r| == nUtterances
      ensures forall i :: 0 <= i < nUtterances ==> (r[i] == 0.0 <==> utterances[i] == "_")
      ensures forall i :: 0 <= i < nUtterances ==> r[i] == 0.0 || r[i] == 1.0
      ensures forall i, k :: 0 <= i < k < nUtterances ==> r[i] == 1.0 || r[k] == 1.0
    {
      seq(nUtterances, i requires 0 <= i < nUtterances => UtteranceCost(utterances[i]))
    }
  }
}
