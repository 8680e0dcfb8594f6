/** The structural layer of the reasoning engine (`rsa.py`): the utterance
    and QUD tables `RSA.__init__` builds, utterance meanings with their
    fallback to the null utterance, the first-match QUD alternative lookup,
    the literal listener's admissibility factor, and what each reasoner
    samples and conditions on. The nested marginals themselves are computed
    by the inference runtime and are not modelled. */
module Rsa {
  import opened Wrappers
  import opened Masks
  import opened Weights
  import opened Domain
  import opened Contexts
  import opened Priors

  /** The factor the literal listener adds for a world outside the utterance's meaning or the context. */
  const Penalty: real := -999999.0

  /** The first alternative, in declaration order, that meets `state`. */
  function FirstMatch(state: Mask, alternatives: seq<Mask>): (r: Option<nat>)
    requires forall i :: 0 <= i < |alternatives| ==> |alternatives[i]| == |state|
    ensures r.Some? ==> r.value < |alternatives| && Intersects(state, alternatives[r.value])
    ensures r.Some? ==> forall k :: 0 <= k < r.value ==> !Intersects(state, alternatives[k])
    ensures r.None? <==> forall k :: 0 <= k < |alternatives| ==> !Intersects(state, alternatives[k])
  {
    if alternatives == [] then None
    else if Intersects(state, alternatives[0]) then Some(0)
    else match FirstMatch(state, alternatives[1..])
      case None => None
      case Some(k) => Some(k + 1)
  }

  /** What `get_alternative(state, alternatives)` returns: the one-hot vector,
      one entry per alternative, of the first alternative meeting `state`, or
      None (Python's fall-through) when no alternative does. */
  function Alternative(state: Mask, alternatives: seq<Mask>): (r: Option<Mask>)
    requires forall i :: 0 <= i < |alternatives| ==> |alternatives[i]| == |state|
    ensures r.None? <==> forall k :: 0 <= k < |alternatives| ==> !Intersects(state, alternatives[k])
    ensures forall i :: 0 <= i < |alternatives| ==>
      (r == Some(OneHot(i, |alternatives|)) <==>
        Intersects(state, alternatives[i]) && forall k :: 0 <= k < i ==> !Intersects(state, alternatives[k]))
  {
    match FirstMatch(state, alternatives)
    case None => None
    case Some(i) =>
      assert forall k :: 0 <= k < |alternatives| && k != i ==> OneHot(k, |alternatives|)[i] != OneHot(i, |alternatives|)[i];
      Some(OneHot(i, |alternatives|))
  }

  /** `get_alternative`: a search loop that returns at the first alternative meeting `state`. */
  method GetAlternative(state: Mask, alternatives: seq<Mask>) returns (r: Option<Mask>)
    requires forall i :: 0 <= i < |alternatives| ==> |alternatives[i]| == |state|
    ensures r == Alternative(state, alternatives)
  {
    for i := 0 to |alternatives|
      invariant forall k :: 0 <= k < i ==> !Intersects(state, alternatives[k])
    {
      if Intersects(state, alternatives[i]) {
        return Some(OneHot(i, |alternatives|));
      }
    }
    return None;
  }

  /** The dictionary `_gen_qud_fn_dict` returns. Each value it stores is the
      closure `lambda state: get_alternative(state, alternatives)`, and all of
      them read the one variable `alternatives` of the enclosing call at the
      time they are called, not the value it had when they were stored. The
      dictionary is therefore its key set and the value that variable holds
      once the loop is over (None if the loop never ran). */
  datatype QudFnDict = QudFnDict(keys: set<string>, alternatives: Option<seq<Mask>>)

  /** `_gen_qud_fn_dict`: one entry per declared QUD, every entry looking up
      against the alternatives of the last declared QUD. */
  method GenQudFnDict(quds: OrderedMap<OrderedMap<Mask>>) returns (d: QudFnDict)
    ensures d.keys == set i | 0 <= i < |quds| :: quds[i].0
    ensures quds == [] ==> d.alternatives.None?
    ensures quds != [] ==> d.alternatives == Some(Values(quds[|quds| - 1].1))
  {
    var keys: set<string> := {};
    var alternatives: Option<seq<Mask>> := None;
    for i := 0 to |quds|
      invariant keys == set k | 0 <= k < i :: quds[k].0
      invariant i == 0 ==> alternatives.None?
      invariant i > 0 ==> alternatives == Some(Values(quds[i - 1].1))
    {
      alternatives := Some(Values(quds[i].1));
      keys := keys + {quds[i].0};
    }
    d := QudFnDict(keys, alternatives);
  }

  /** `_gen_utterance_dict`: the comprehension over the utterance items, a
      map from each declared utterance to its own vector. */
  function UtteranceDict(utterances: OrderedMap<Mask>): (d: map<string, Mask>)
    requires DistinctKeys(utterances)
    ensures d.Keys == set i | 0 <= i < |utterances| :: utterances[i].0
    ensures forall i :: 0 <= i < |utterances| ==> d[utterances[i].0] == utterances[i].1
  {
    map i | 0 <= i < |utterances| :: utterances[i].0 := utterances[i].1
  }

  /** The literal listener's factor: 0 when the world, the context and the
      utterance's meaning share a world, the penalty otherwise. */
  function LiteralFactor(world: Mask, context: Mask, possible: Mask): (f: real)
    requires |world| == |context| == |possible|
    ensures f == 0.0 <==> exists j :: 0 <= j < |world| && world[j] && context[j] && possible[j]
    ensures f == 0.0 || f == Penalty
  {
    var both := And(And(world, context), possible);
    if Any(both) then 0.0
    else
      assert forall j :: 0 <= j < |world| ==> both[j] == (world[j] && context[j] && possible[j]);
      Penalty
  }

  /** `pragmatic_listener`'s return: the world or the context, by `output_type`. */
  function SelectOutput(outputType: string, world: Mask, context: Mask): (r: Result<Mask, Error>)
    ensures outputType == "world" ==> r == Ok(world)
    ensures outputType == "context" ==> r == Ok(context)
    ensures outputType != "world" && outputType != "context" ==> r == Err(ValueError("Invalid output_type"))
  {
    if outputType == "world" then Ok(world)
    else if outputType == "context" then Ok(context)
    else Err(ValueError("Invalid output_type"))
  }

  /** One run of the literal listener: the world drawn and the factor added. */
  datatype LiteralStep = LiteralStep(world: Draw<Mask>, factor: real)

  /** One run of the speaker: the utterance drawn, its cost, and the QUD
      value the projected literal listener is observed at (None: the site
      is left unobserved). */
  datatype SpeakerStep = SpeakerStep(utterance: string, cost: real, observed: Option<Mask>)

  /** One run of the pragmatic listener: the context, world and QUD sites, and the value returned. */
  datatype PragmaticStep = PragmaticStep(context: Draw<Mask>, world: Draw<Mask>, qud: Draw<string>, output: Mask)

  class RSA {
    const priors: Prior
    const langSpecs: LangSpec
    const utteranceDict: map<string, Mask>
    const qudFns: QudFnDict

    /** The fields are the ones `__init__` derives from the specification. */
    predicate Valid() {
      && priors.Valid()
      && langSpecs == priors.langSpecs
      && utteranceDict == UtteranceDict(langSpecs.utterances)
      && qudFns.keys == (set i | 0 <= i < |langSpecs.quds| :: langSpecs.quds[i].0)
      && (langSpecs.quds == [] ==> qudFns.alternatives.None?)
      && (langSpecs.quds != [] ==>
            qudFns.alternatives == Some(Values(langSpecs.quds[|langSpecs.quds| - 1].1)))
    }

    /** The assignments of `__init__` once the priors are built. */
    constructor (p: Prior)
      requires p.Valid()
      ensures Valid() && priors == p
    {
      priors := p;
      langSpecs := p.langSpecs;
      utteranceDict := UtteranceDict(p.langSpecs.utterances);
      var fns := GenQudFnDict(p.langSpecs.quds);
      qudFns := fns;
    }

    /** `RSA(lang_file)`: raises exactly when building the priors does. */
    static method Load(spec: LangSpec) returns (r: Result<RSA, Error>)
      requires WellFormed(spec)
      ensures r.Err? <==> spec.contexts == Some([]) || (spec.contexts.None? && |spec.worlds| == 0)
      ensures r.Ok? ==> fresh(r.value) && r.value.Valid() && r.value.langSpecs == spec
    {
      var p :- Prior.Load(spec);
      var rsa := new RSA(p);
      return Ok(rsa);
    }

    /** The alternatives every QUD function of this model looks up against:
        those of the last declared QUD. */
    function LastAlternatives(): (r: seq<Mask>)
      requires Valid() && langSpecs.quds != []
      ensures |r| == |langSpecs.quds[|langSpecs.quds| - 1].1|
      ensures forall a :: 0 <= a < |r| ==> |r[a]| == priors.nWorlds
    {
      Values(langSpecs.quds[|langSpecs.quds| - 1].1)
    }

    /** `meaning(utterance)`: the declared meaning, or that of the null
        utterance `_` for an undeclared one (KeyError if `_` is not declared). */
    function Meaning(utterance: string): (r: Result<Mask, Error>)
      requires Valid()
      ensures forall i :: 0 <= i < |langSpecs.utterances| && langSpecs.utterances[i].0 == utterance ==>
        r == Ok(langSpecs.utterances[i].1)
      ensures utterance !in Keys(langSpecs.utterances) ==>
        forall i :: 0 <= i < |langSpecs.utterances| && langSpecs.utterances[i].0 == "_" ==>
          r == Ok(langSpecs.utterances[i].1)
      ensures utterance !in Keys(langSpecs.utterances) && "_" !in Keys(langSpecs.utterances) ==>
        r == Err(KeyError("_"))
      ensures r.Ok? ==> |r.value| == priors.nWorlds
    {
      var utts := langSpecs.utterances;
      assert forall u :: u in utteranceDict <==> u in Keys(utts) by {
        forall u ensures u in utteranceDict <==> u in Keys(utts) {
          if u in Keys(utts) {
            var i :| 0 <= i < |utts| && Keys(utts)[i] == u;
            assert utts[i].0 == u;
          }
        }
      }
      if utterance !in utteranceDict then
        if "_" in utteranceDict then Ok(utteranceDict["_"]) else Err(KeyError("_"))
      else
        Ok(utteranceDict[utterance])
    }

    /** `self.qud_fns[qud](state)`, used by the speaker and by `project`:
        KeyError for an undeclared QUD; otherwise, for every declared QUD,
        the lookup against the last declared QUD's alternatives. */
    function QudValue(qud: string, state: Mask): (r: Result<Option<Mask>, Error>)
      requires Valid() && |state| == priors.nWorlds
      ensures qud !in Keys(langSpecs.quds) ==> r == Err(KeyError(qud))
      ensures qud in Keys(langSpecs.quds) ==> r == Ok(Alternative(state, LastAlternatives()))
      ensures r.Ok? && r.value.Some? ==> |r.value.value| == |LastAlternatives()|
    {
      assert qud in qudFns.keys <==> qud in Keys(langSpecs.quds) by {
        if qud in Keys(langSpecs.quds) {
          var i :| 0 <= i < |langSpecs.quds| && Keys(langSpecs.quds)[i] == qud;
          assert langSpecs.quds[i].0 == qud;
        }
      }
      if qud !in qudFns.keys then Err(KeyError(qud))
      else Ok(Alternative(state, qudFns.alternatives.value))
    }

    /** Because of the shared variable, any two declared QUDs give the same
        answer for every state. */
    lemma QudFnsAgree(q1: string, q2: string, state: Mask)
      requires Valid() && |state| == priors.nWorlds
      requires q1 in Keys(langSpecs.quds) && q2 in Keys(langSpecs.quds)
      ensures QudValue(q1, state) == QudValue(q2, state)
    {
    }

    /** `literal_listener(utterance, context)`, one run: the world drawn from
        the unconditioned world prior and the factor it is weighted by. */
    method LiteralListener(utterance: string, context: Mask, draw: nat) returns (r: Result<LiteralStep, Error>)
      requires Valid() && |context| == priors.nWorlds && (priors.nWorlds > 0 ==> draw < priors.nWorlds)
      ensures r.Err? <==>
        priors.BaseWeights(false).Err? || Sum(priors.BaseWeights(false).value) == 0.0 || Meaning(utterance).Err?
      ensures r.Ok? ==> draw < priors.nWorlds
      ensures r.Ok? ==> r.value.world.value == OneHot(draw, priors.nWorlds)
      ensures r.Ok? ==> r.value.world.probs == priors.BaseWeights(false).value
      ensures r.Ok? ==> (r.value.factor == 0.0 <==> context[draw] && Meaning(utterance).value[draw])
      ensures r.Ok? ==> r.value.factor == 0.0 || r.value.factor == Penalty
    {
      var world :- priors.WorldPrior(None, None, false, draw);
      var possible :- Meaning(utterance);
      var factor := LiteralFactor(world.value, context, possible);
      OneHotIntersects(draw, And(context, possible));
      return Ok(LiteralStep(world, factor));
    }

    /** The failure the literal listener's marginal raises whatever it is
        asked: `world_prior()` with the declared weights raises KeyError for
        a world without a weight, and the categorical distribution rejects
        weights without mass. */
    function LiteralPriorFailure(): (r: Option<Error>)
      requires Valid()
      ensures r.None? <==> priors.BaseWeights(false).Ok? && Sum(priors.BaseWeights(false).value) != 0.0
      ensures priors.BaseWeights(false).Err? ==> r == Some(priors.BaseWeights(false).error)
      ensures r.Some? ==> r.value.KeyError? || r.value == ZeroMass
    {
      match priors.BaseWeights(false)
      case Err(e) => Some(e)
      case Ok(w) => if Sum(w) == 0.0 then Some(ZeroMass) else None
    }

    /** `speaker(world, qud, context)`, one run: the QUD value of `world`
        (line 47), then the utterance drawn from the cost-weighted prior
        (a categorical over no utterances is rejected);
        the projected literal listener for that utterance and context is
        observed at the QUD value, and computing it fails where the literal
        listener's world prior does. */
    method Speaker(world: Mask, qud: string, context: Mask, draw: nat) returns (r: Result<SpeakerStep, Error>)
      requires Valid() && |world| == priors.nWorlds && (priors.nUtterances > 0 ==> draw < priors.nUtterances)
      ensures r.Err? <==>
        || qud !in Keys(langSpecs.quds)
        || priors.nUtterances == 0
        || priors.BaseWeights(false).Err? || Sum(priors.BaseWeights(false).value) == 0.0
      ensures qud !in Keys(langSpecs.quds) ==> r == Err(KeyError(qud))
      ensures qud in Keys(langSpecs.quds) && priors.nUtterances == 0 ==> r == Err(ZeroMass)
      ensures qud in Keys(langSpecs.quds) && priors.nUtterances > 0 && LiteralPriorFailure().Some? ==>
        r == Err(LiteralPriorFailure().value)
      ensures r.Ok? ==> draw < priors.nUtterances
      ensures r.Ok? ==> r.value.utterance == priors.utterances[draw]
      ensures r.Ok? ==> (r.value.cost == 0.0 <==> r.value.utterance == "_")
      ensures r.Ok? ==> r.value.observed == Alternative(world, LastAlternatives())
    {
      var qudValue :- QudValue(qud, world);
      if priors.nUtterances == 0 {
        return Err(ZeroMass);
      }
      var utterance := priors.utterances[draw];
      var failure := LiteralPriorFailure();
      if failure.Some? {
        return Err(failure.value);
      }
      return Ok(SpeakerStep(utterance, UtteranceCost(utterance), qudValue));
    }

    /** `pragmatic_listener(utterance, qud, output_type)`, one run: a
        context, a world drawn uniformly within it, the QUD fixed to the
        observed one, the speaker's marginal for them observed at
        `utterance` (failing where the speaker's does), and the world or the
        context returned. */
    method PragmaticListener(utterance: string, qud: string, outputType: string,
                             contextDraw: nat, worldDraw: nat)
      returns (r: Result<PragmaticStep, Error>)
      requires Valid() && contextDraw < priors.nContexts && (priors.nWorlds > 0 ==> worldDraw < priors.nWorlds)
      ensures r.Err? <==>
        || !Any(priors.ContextPrior(contextDraw).value)
        || qud == "" || qud !in priors.Quds()
        || priors.nUtterances == 0
        || priors.BaseWeights(false).Err? || Sum(priors.BaseWeights(false).value) == 0.0
        || (outputType != "world" && outputType != "context")
      ensures r.Ok? ==> r.value.context == priors.ContextPrior(contextDraw)
      ensures r.Ok? ==> worldDraw < priors.nWorlds
      ensures r.Ok? ==> r.value.world.value == OneHot(worldDraw, priors.nWorlds)
      ensures r.Ok? ==> |r.value.world.probs| == |r.value.context.value| == priors.nWorlds
      ensures r.Ok? ==> Sum(Masked(Uniform(priors.nWorlds), r.value.context.value)) > 0.0
      ensures r.Ok? ==> Sum(r.value.world.probs) == 1.0
      ensures r.Ok? ==> forall j :: 0 <= j < priors.nWorlds ==>
        r.value.world.probs[j] ==
          if r.value.context.value[j]
          then (1.0 / priors.nWorlds as real) / Sum(Masked(Uniform(priors.nWorlds), r.value.context.value))
          else 0.0
      ensures r.Ok? ==> (r.value.world.probs[worldDraw] > 0.0 <==> r.value.context.value[worldDraw])
      ensures r.Ok? ==> r.value.qud.value == qud
      ensures r.Ok? && outputType == "world" ==> r.value.output == r.value.world.value
      ensures r.Ok? && outputType == "context" ==> r.value.output == r.value.context.value
    {
      var context := priors.ContextPrior(contextDraw);
      var c := context.value;
      ghost var base := Uniform(priors.nWorlds);
      assert priors.BaseWeights(true) == Ok(base);
      UniformWithinContext(priors.nWorlds, c);
      var worldResult := priors.WorldPrior(Some(c), None, true, worldDraw);
      if worldResult.Err? {
        return Err(worldResult.error);
      }
      var world := worldResult.value;
      ghost var total := Sum(Masked(base, c));
      assert total > 0.0;
      assert forall j :: 0 <= j < priors.nWorlds ==>
        world.probs[j] == if c[j] then (1.0 / priors.nWorlds as real) / total else 0.0;
      assert world.probs[worldDraw] > 0.0 <==> c[worldDraw] by {
        if c[worldDraw] {
          PositiveShare(priors.nWorlds, total);
        }
      }
      var q :- priors.QudPrior(world.value, c, Some(qud), true, 0);
      if priors.nUtterances == 0 {
        return Err(ZeroMass);
      }
      var failure := LiteralPriorFailure();
      if failure.Some? {
        return Err(failure.value);
      }
      var output :- SelectOutput(outputType, world.value, c);
      return Ok(PragmaticStep(context, world, q, output));
    }

    /** `get_world_labels()`: the display labels, in world order. */
    function WorldLabels(): (r: seq<string>)
      requires Valid()
      ensures |r| == priors.nWorlds
      ensures forall i :: 0 <= i < |r| ==> langSpecs.worlds[i] == (priors.worlds[i], r[i])
    {
      Values(langSpecs.worlds)
    }

    /** `get_utterance_labels()`: the utterances in the order the utterance prior indexes them. */
    function UtteranceLabels(): (r: seq<string>)
      requires Valid()
      ensures r == priors.utterances
      ensures forall i :: 0 <= i < |r| ==> r[i] in utteranceDict
    {
      Keys(langSpecs.utterances)
    }

    /** `get_qud_labels()`: the QUDs in the order the QUD prior indexes them, each with a QUD function. */
    function QudLabels(): (r: seq<string>)
      requires Valid()
      ensures r == priors.Quds()
      ensures forall i :: 0 <= i < |r| ==> r[i] in qudFns.keys
    {
      Keys(langSpecs.quds)
    }

    /** `get_alternatives_labels(qud)`: the alternative names of a declared QUD. */
    function AlternativesLabels(qud: string): (r: Result<seq<string>, Error>)
      requires Valid()
      ensures r.Err? <==> qud !in Keys(langSpecs.quds)
      ensures r.Err? ==> r.error == KeyError(qud)
      ensures forall i :: 0 <= i < |langSpecs.quds| && langSpecs.quds[i].0 == qud ==>
        r == Ok(Keys(langSpecs.quds[i].1))
    {
      match Lookup(langSpecs.quds, qud)
      case None => Err(KeyError(qud))
      case Some(alternatives) => Ok(Keys(alternatives))
    }

    /** `get_context_labels()`: one row per context, in the order the context prior draws them. */
    function ContextLabels(): (r: seq<Mask>)
      requires Valid()
      ensures |r| == priors.nContexts
      ensures forall i :: 0 <= i < |r| ==> r[i] == priors.ContextPrior(i).value
    {
      priors.contexts
    }
  }

  /** A world's share of the uniform weight within a context of positive total is positive. */
  lemma PositiveShare(n: nat, total: real)
    requires n > 0 && total > 0.0
    ensures (1.0 / n as real) / total > 0.0
  {
  }

  /** Uniform weights masked by a context of the same length sum to zero
      exactly when the context is empty; a world in the context keeps a
      positive weight. */
  lemma UniformWithinContext(n: nat, c: Mask)
    requires |c| == n
    ensures Sum(Masked(Uniform(n), c)) == 0.0 <==> !Any(c)
    ensures Sum(Masked(Uniform(n), c)) >= 0.0
    ensures forall j :: 0 <= j < n && c[j] ==> Masked(Uniform(n), c)[j] > 0.0
  {
    var m := Masked(Uniform(n), c);
    SumZeroIff(m);
    if Any(c) {
      var j :| 0 <= j < n && c[j];
      assert m[j] > 0.0;
    }
  }
}
