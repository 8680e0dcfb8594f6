# Rational Speech Act model: the discrete layer, in Dafny

This project models the deterministic logic around the probabilistic
reasoners of a Rational Speech Act (RSA) implementation. Three reasoners
take part: a literal listener, a speaker and a pragmatic listener. They
run on an exact-enumeration inference runtime. The model covers what
decides what those reasoners sample from and condition on:

- the prior model (`priors.py`, class `Prior`): the fields derived from a
  language specification, context enumeration by bit masks, world weights
  (uniform or declared, normalised against a context over exact reals),
  one-hot encoding and decoding of worlds, the context, QUD and utterance
  sample sites, and utterance costs;
- the reasoning engine's structural layer (`rsa.py`, class `RSA`): the
  utterance dictionary and its fallback to the null utterance `_`, the
  first-match QUD alternative lookup, the dictionary of QUD functions, the
  literal listener's admissibility factor, the pragmatic listener's output
  dispatch and the label accessors.

A `pyro.sample` site is modelled as a `Draw`: the categorical weights it
draws from and the value it returns. Where a site is observed, the value is
the observation. Otherwise it is the index the enumerating inference picks,
passed in as a `draw` parameter that lies within the support whenever the support is non-empty. A categorical distribution over nothing is rejected (`ZeroMass`). Exceptions
the code raises are `Err` values of `Domain.Error`. A language
specification is the `Domain.LangSpec` value a language file evaluates to.
Python dicts are sequences of (key, value) items in insertion order. The
format itself prescribes (`Domain.WellFormed`) distinct keys, one
entry per world in every vector, and non-negative world weights.

Files: `wrappers.dfy` (Option, Result), `masks.dfy` (boolean tensors),
`weights.dfy` (real weight vectors), `domain.dfy` (the specification),
`contexts.dfy` and `priors.dfy` (`priors.py`), `rsa.dfy` (`rsa.py`).

Points where the code, which the model follows, differs from the documented
design of the system:

- Contexts are generated from the integers `0 .. 2^n - 2`, world `j` being
  in context `i` when bit `j` of `i` is clear. Context 0 is therefore the
  mask of all worlds, and the empty mask is never produced. The documented
  design speaks of the integers `1 .. 2^n - 2` read bit by bit.
  `Contexts.GeneratedContexts` proves what the code does: the generated
  contexts are exactly the non-empty masks, each once, starting with the
  full mask.
- `_gen_qud_fn_dict` stores closures that all read the same loop variable
  `alternatives` when they are called. Every QUD function therefore looks
  up against the alternatives of the last declared QUD.
  `Rsa.QudFnDict` makes the shared variable explicit. `Rsa.RSA.QudValue`
  and `Rsa.RSA.QudFnsAgree` state the consequence: every declared QUD gives
  the same answer.
- When no alternative meets a world, `get_alternative` falls through and
  returns `None`. No exception is raised. In the speaker, an observation of
  `None` leaves the site unobserved (`Rsa.SpeakerStep.observed`).
- The literal listener scores an inadmissible world with the finite factor
  `-999999.0` (`Rsa.Penalty`), not with an exact exclusion.

## Model

| member | source | states |
|---|---|---|
| `Priors.Prior.Load` | priors.py:7-16 | Building the priors fails (torch.stack error) exactly for an empty explicit context list or, without an explicit list, zero worlds. Otherwise the fields are those derived from the specification, and without an explicit list there are 2^n - 1 contexts. |
| `Priors.Prior.constructor` | priors.py:9-16 | The worlds and utterances are the specification's keys in order, and each count is the length of its list. |
| `Priors.Prior.BaseWeights` | priors.py:27-32 | The uniform weights are 1/n for every world. Declared weights follow world-key order. A world with no declared weight raises KeyError. |
| `Priors.DeclaredWeights` | priors.py:30-32 | The list of declared weights has one entry per world, in order. It raises KeyError for the first world that has no weight. |
| `Priors.Prior.WorldPrior` | priors.py:18-43 | With a context, worlds outside it get weight 0, the others get w/Σ(w·c), and the weights sum to 1. Weights without mass are rejected. An observation that is not one-hot raises first. Every other observation raises TypeError. An unobserved call succeeds exactly when the weights have mass, and returns the one-hot mask of the drawn index. |
| `Priors.OneHotOf` | priors.py:41-43 | `one_hot` rejects a Python int with TypeError and an index of n or more. A tensor index below n gives a mask of length n that decodes back to that index. |
| `Priors.ObservedIndex` | priors.py:37-38 | Converting an observed world succeeds exactly on a one-hot mask. It yields that mask's true position as a Python int. |
| `Priors.ObservedIndexAsTensor` | priors.py:37-38 | The intended conversion succeeds on the same masks and yields the same position, as a tensor. |
| `Priors.ObservedWorldAsWritten` | priors.py:37-43 | As written, every one-hot observed world ends in TypeError, whatever the number of worlds. |
| `Priors.ObservedWorldIntended` | priors.py:37-43 | With the index wrapped in a tensor, an observed one-hot world is returned as the very mask observed. |
| `Priors.Prior.ContextPrior` | priors.py:45-53 | A context is drawn with weight 1/n_contexts each. It is the generated mask for its index (never empty) or the explicit vector read as booleans. |
| `Priors.Prior.QudPrior` | priors.py:72-97 | An observed declared QUD under the uniform prior is returned as it is. An undeclared non-empty label raises ValueError before the mode is checked. The non-uniform mode raises NotImplemented. An absent observation draws index `draw`. Each QUD has weight 1/n_quds whether or not it is observed. The empty label skips the lookup, but as an observation it raises TypeError. With no QUD declared, the empty categorical is rejected first, whether the label is empty or absent. |
| `Priors.UtteranceCost` | priors.py:99-100 | The cost is 0 exactly for `_` and 1 for every other utterance. |
| `Priors.Prior.UtteranceCosts` | priors.py:61-63 | There is one cost per utterance in declaration order. At most one entry is free, the null utterance's. |
| `Contexts.MakeContexts` | priors.py:106-112 | An explicit list is used as it is, entry by entry as booleans. Otherwise 2^n - 1 generated masks are used. It fails for an empty explicit list, explicit rows of unequal length, or, without an explicit list, zero worlds. |
| `Contexts.ToMask` | priors.py:108 | A row entry becomes true exactly when it is non-zero. |
| `Contexts.GenContext` | priors.py:102-104 | A generated context has one entry per world. Which worlds it holds is stated by `Contexts.ContextHasWorld`. |
| `Contexts.ContextHasWorld` | priors.py:102-104 | Generated context i contains world j exactly when bit j of i is 0. |
| `Contexts.FirstContextIsFull` | priors.py:102-104 | Context 0 contains every world. |
| `Contexts.CodeOfGenContext` | priors.py:102-104 | Reading the clear bits of a generated mask gives back the index it came from. |
| `Contexts.GenContextOfCode` | priors.py:102-104 | Every mask over n worlds is the generated context of an index below 2^n. |
| `Contexts.GenContextNotEmpty` | priors.py:103-111 | No index up to 2^n - 2 generates the empty mask. |
| `Contexts.GenContextInjective` | priors.py:103-111 | Distinct indices generate distinct contexts. |
| `Contexts.GeneratedContexts` | priors.py:109-112 | There are 2^n - 1 generated contexts, starting with the all-worlds mask. They are exactly the non-empty masks of length n, pairwise distinct. |
| `Masks.NonzeroItem` | priors.py:38 | `nonzero().item()` succeeds exactly on a mask with one true entry and returns that entry's position. |
| `Masks.OneHotRoundTrip` | priors.py:37-43 | Decoding the one-hot mask of i gives i. Re-encoding a decoded one-hot mask gives the mask back. |
| `Masks.OneHot` | priors.py:41-43 | `one_hot(i, n)` is true at i and false everywhere else. |
| `Weights.Uniform` | priors.py:28 | `ones(n)/n` has n entries, each 1/n. |
| `Weights.Masked` | priors.py:35 | `w * context` keeps a weight where the context is true and is 0 elsewhere. |
| `Weights.DivideAll` | priors.py:35 | Every entry is divided by the sum. `Weights.SumDivide` then gives the new total. |
| `Weights.UniformSumsToOne` | priors.py:28 | `ones(n)/n` sums to 1 for n > 0. |
| `Weights.SumDivide` | priors.py:35 | Dividing every weight by s divides the total by s. |
| `Weights.NormalisedSumsToOne` | priors.py:35 | Weights divided by their own non-zero sum add up to 1. |
| `Weights.SumZeroIff` | priors.py:35 | Non-negative masked weights sum to zero exactly when every one of them is zero (the failing normalisation). |
| `Rsa.RSA.Load` | rsa.py:13-19 | Building the engine fails exactly when building its priors does. |
| `Rsa.RSA.constructor` | rsa.py:13-19 | The utterance dictionary and the QUD function dictionary are those built from the specification. |
| `Rsa.UtteranceDict` | rsa.py:114-122 | The dictionary's keys are exactly the declared utterances, each mapped to its own vector. |
| `Rsa.RSA.Meaning` | rsa.py:78-86 | A declared utterance gets its own meaning. Any other gets the meaning of `_`, or KeyError when `_` is not declared. |
| `Rsa.FirstMatch` | rsa.py:131-132 | It finds the least index whose alternative meets the state, or None when no alternative does. |
| `Rsa.Alternative` | rsa.py:130-135 | The result is the one-hot vector at i exactly when alternative i meets the state and no earlier one does. It is None exactly when none meets the state. |
| `Rsa.GetAlternative` | rsa.py:130-135 | The early-return search loop returns that first-match one-hot vector, or None. |
| `Rsa.GenQudFnDict` | rsa.py:137-144 | There is one entry per declared QUD. The shared captured variable ends up holding the last QUD's alternatives. |
| `Rsa.RSA.LastAlternatives` | rsa.py:139-142 | The alternatives every QUD function reads are the last declared QUD's: one vector per alternative, each with one entry per world. |
| `Rsa.RSA.QudValue` | rsa.py:96-97 | An undeclared QUD raises KeyError. Every declared QUD is answered against the last QUD's alternatives. |
| `Rsa.RSA.QudFnsAgree` | rsa.py:139-144 | Any two declared QUD functions give the same value on every state. |
| `Rsa.LiteralFactor` | rsa.py:31-34 | The factor is 0.0 exactly when world, context and meaning share a world, and -999999.0 otherwise. |
| `Rsa.RSA.LiteralListener` | rsa.py:21-35 | The world is drawn from the unconditioned prior. The factor is 0 exactly when the drawn world is in both the context and the utterance's meaning. |
| `Rsa.RSA.LiteralPriorFailure` | rsa.py:28 | The literal listener's world prior fails exactly when a world has no declared weight (KeyError) or the weights sum to zero. |
| `Rsa.RSA.Speaker` | rsa.py:37-54 | It fails exactly for an undeclared QUD (KeyError, raised first), an empty utterance prior (no utterances declared) or a failing literal-listener world prior. The utterance drawn has cost 0 exactly when it is `_`. The observed QUD value is the first-match lookup in the last QUD's alternatives. |
| `Rsa.RSA.PragmaticListener` | rsa.py:56-76 | It fails exactly for an empty context, an empty or unknown QUD label, an empty utterance prior or a failing literal-listener world prior (both reached through the speaker), or an invalid output type. The world weights are the uniform prior normalised to the drawn context: 0 outside it, (1/n)/Σ inside it, summing to 1. The observed QUD is kept, and the output is the world or the context. |
| `Rsa.SelectOutput` | rsa.py:71-76 | The output is the world for "world" and the context for "context". Any other type raises ValueError. |
| `Rsa.UniformWithinContext` | priors.py:34-35 | Uniform weights masked by a context sum to zero exactly when the context is empty. Every world in the context keeps a positive weight. |
| `Rsa.RSA.WorldLabels` | rsa.py:99-100 | There is one display label per world, in world order. |
| `Rsa.RSA.UtteranceLabels` | rsa.py:102-103 | The labels come in the order the utterance prior indexes them, and each has a meaning. |
| `Rsa.RSA.QudLabels` | rsa.py:105-106 | The labels come in the order the QUD prior indexes them, and each has a QUD function. |
| `Rsa.RSA.AlternativesLabels` | rsa.py:108-109 | A declared QUD gives its alternative names in order. An undeclared one raises KeyError. |
| `Rsa.RSA.ContextLabels` | rsa.py:111-112 | There is one row per context, in the order the context prior draws them. |
| `Priors.Prior.Quds` | priors.py:81 | The QUD labels are the declared keys in order, pairwise distinct. |
| `Domain.Lookup` | rsa.py:109 | A dict lookup finds the value stored under the key, and fails exactly when the key is absent. |
| `Domain.IndexOf` | priors.py:84 | `list.index` gives the first position of the item, or fails exactly when the item is absent. |

## Findings

| source | as written | input that shows it | evidently intended | confidence | as-written member | corrected member |
|---|---|---|---|---|---|---|
| priors.py:37-43 | An observed world is turned into a Python int by `.item()`. The sample site hands the int back unchanged, and `one_hot` accepts only tensors, so it raises TypeError. | Any one-hot observation, e.g. `[False, True, False]` over three worlds with positive weights | The index is wrapped in `torch.tensor`, as `qud_prior` does at line 84, so the observed world comes back as the mask observed | not executed | `Priors.ObservedWorldAsWritten` | `Priors.ObservedWorldIntended` |

`Priors.Prior.WorldPrior` keeps the behaviour as written: an observed world always raises. No caller in `rsa.py` observes the world (rsa.py:28 and rsa.py:65 pass no `obs`), so the reasoners are not affected.

## Left out

- Inference: Pyro sampling and exact enumeration, the `Search` and `HashingMarginal` machinery and the memoisation cache. They come from `search_inference`, which is not part of this model. The model states only what each reasoner samples from and conditions on, not the posteriors.
- `project` as a marginal: only the lookup it applies to each sampled world (`Rsa.RSA.QudValue`) is modelled.
- Softmax, `log` and `exp` in `utterance_prior`, the `alpha` scaling in `speaker` and the numerical effect of the `-999999.0` factor: floating-point numerics. World weights are exact reals.
- Rsa.RSA.Speaker: does not compute the literal listener's marginal or its projection, only the value the projection is observed at. The weights of the utterance draw (the softmax) are not modelled.
- Rsa.RSA.PragmaticListener: the speaker's marginal, observed at the utterance, is not computed. The speaker is called with the `qud` argument.
- Rsa.RSA.Speaker and Rsa.RSA.PragmaticListener: their error conditions cover the failures of the code they run, of the utterance prior, and of the world prior their nested marginals draw from. Failures raised inside the inference runtime, such as observing a value outside a marginal's support, are not modelled, because `search_inference` is not part of this model.
- Priors.Prior.WorldPrior: does not model tensor broadcasting. Contexts and observations of length one are not spread over the worlds; a context must have one entry per world.
- Negative world weights are outside the specification format (`Domain.WellFormed`). Their rejection by the categorical distribution is not modelled.
- Integer widths: contexts are generated over unbounded integers. The 32-bit tensor of `_gen_context_tensor` is not modelled, nor are entries of an explicit context list that are not integers (a float is truncated by `IntTensor`).
- Loading the language file with `eval`, the `__main__` driver, `inference_algorithms.py` (approximate SVI, importance sampling and best-first search wrappers) and `plot_utils.py` (plotting).
