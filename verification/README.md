# Metropolis local sampler core: proposal state machine and sampling schedule

This project models, in Dafny, the two behavioural parts of
`Sources/Sampler/metropolis_local_v2.hpp` of NetKet's batched Metropolis sampler:

- **`StepsRange`**: the `(start, end, step)` sampling schedule. Burn-in discards the
  steps before `start`. Thinning keeps every `step`-th step of `[start, end)`.
  `size()` is the number of recorded steps.
- **`detail::Flipper`**: the single-site proposal generator for a batch of Markov
  chains. Its state is a `BatchSize() x SystemSize()` matrix of quantum numbers
  drawn from a fixed list of allowed local states. It also holds one staged
  suggestion per chain: a site, and a value for that site.

Files:

- `wrappers.dfy`: `Result`, used for the constructors' argument checks.
- `configurations.dfy`: helpers on one chain's configuration: membership in the
  allowed local states, position of a value, and the number of differing sites.
- `arith.dfy`: facts about multiplication and Euclidean division that the schedule
  proofs use.
- `steps_range.dfy`: module `StepsRanges`.
- `flipper.dfy`: module `Flippers`.

Modelling choices:

- Quantum numbers are a type parameter `V` that is only compared for equality. No
  floating point is involved.
- The random engine is replaced by explicit draws, so every transition is a total,
  deterministic function and its invariants are proved for every draw:
  - a state draw is an index into the local states;
  - a site draw is a site index;
  - a value draw `k` in `[0, |localStates| - 1)` selects the `k`-th allowed value
    when the current value's position is skipped.
  The order in which the engine produces the draws is not modelled.
- Each chain's site draw is used directly as its staged site, which is what
  `RandomSites` does with a uniform draw.
- The source writes into mutable members and buffers. In the model a flipper is
  an immutable value, so `Reset` and `Next` return the new flipper. The buffer
  that `Read(x)` fills is returned as a fresh matrix, so it is evident that
  reading modifies nothing.
- The constructor checks the shape and the local states. It does not randomize:
  the state is set by `Reset`. The header shows neither the constructor's body nor
  the order of its checks. The model checks the batch size, then the system size,
  then the local states.
- `CheckValid`'s body is not shown either. The model's gate accepts exactly the
  schedules with `start < end` and `step > 0`, and refuses all others with one
  invalid-argument error. In particular it accepts a negative `start`. The sample
  collector numbers its moves from 0, so with a negative `start` it records fewer
  batches than `size()` counts (`StepsRanges.NegativeStartShortfall`). Whether
  `CheckValid` refuses a negative `start` is not visible in the header.

## Model

| member | source | states |
|---|---|---|
| StepsRanges.Make | Sources/Sampler/metropolis_local_v2.hpp:141-154 | the constructor succeeds exactly when `start < end` and `step > 0`; `start()`, `end()`, `step()` then return the three tuple components; otherwise it fails with an invalid-argument error |
| StepsRanges.Size | Sources/Sampler/metropolis_local_v2.hpp:151 | for a valid schedule, `1 <= size() <= end - start`, and `size()` is the ceiling of `(end - start) / step`: `(size-1)*step < end-start <= size*step` |
| StepsRanges.SizeIsScheduledCount | Sources/Sampler/metropolis_local_v2.hpp:151 | `size()` equals the number of indices `i` in `[start, end)` with `(i - start) % step == 0`, counted one index at a time |
| StepsRanges.Schedule | Sources/Sampler/metropolis_local_v2.hpp:151 | the listing of the schedule has `size()` entries, starts at `start`, and consecutive entries are `step` apart |
| StepsRanges.ScheduledIsListed | Sources/Sampler/metropolis_local_v2.hpp:151 | a step with `start <= i < end` and `(i - start) % step == 0` appears in the listing `start, start + step, ...` of `size()` entries |
| StepsRanges.ListedIsScheduled | Sources/Sampler/metropolis_local_v2.hpp:151 | every entry of the listing of `size()` entries lies in `[start, end)` and is a multiple of `step` past `start` |
| StepsRanges.ScheduledIsArithmetic | Sources/Sampler/metropolis_local_v2.hpp:151 | step `i` satisfies `start <= i < end` and `(i - start) % step == 0` if and only if it appears in the listing `start, start + step, ...` of `size()` entries |
| StepsRanges.CollectedSteps | Sources/Sampler/metropolis_local_v2.hpp:161-164 | advancing the chains `end` times from move 0 records, in increasing order, exactly the non-negative steps that pass the burn-in and thinning test; with `start >= 0` that is the whole listing of the schedule, `size()` steps |
| StepsRanges.NegativeStartShortfall | Sources/Sampler/metropolis_local_v2.hpp:151 | the schedule `(-5, 1, 1)` passes the gate and has `size()` 6, yet step 0 is its only step at or after move 0 |
| Flippers.New | Sources/Sampler/metropolis_local_v2.hpp:44-45 | construction succeeds exactly for a positive batch size, a positive system size and a non-empty list of local states, and keeps all three; every reported error names a condition that actually fails |
| Flippers.RandomState | Sources/Sampler/metropolis_local_v2.hpp:76-79 | the randomized state has `BatchSize()` rows of `SystemSize()` entries, each one of the allowed local states |
| Flippers.RandomStateReachesAll | Sources/Sampler/metropolis_local_v2.hpp:76-79 | every valid state is produced by some state draw |
| Flippers.RandomStateInjective | Sources/Sampler/metropolis_local_v2.hpp:76-79 | for distinct local states, different state draws produce different states, so uniform draws give a uniformly distributed state |
| Flippers.RandomValue | Sources/Sampler/metropolis_local_v2.hpp:86-90 | the proposed value is an allowed local state and differs from the current value at the site |
| Flippers.RandomValueUniform | Sources/Sampler/metropolis_local_v2.hpp:86-90 | every allowed value other than the current one is proposed by exactly one value draw, so the choice is uniform over "all quantum numbers except the current one" |
| Flippers.Stage | Sources/Sampler/metropolis_local_v2.hpp:81-97 | staging leaves the state alone and yields one suggestion per chain whose site is the site draw and whose value is the one the value draw selects among the allowed values other than the current one (uniform by `RandomValueUniform`) |
| Flippers.Reset | Sources/Sampler/metropolis_local_v2.hpp:51-54 | the new state is the one the state draws select (uniform by `RandomStateReachesAll` and `RandomStateInjective`), the staged values are the ones the value draws select, and the whole invariant holds: valid state, one staged suggestion per chain, staged sites in range, no self-transition |
| Flippers.BatchSize | Sources/Sampler/metropolis_local_v2.hpp:47 | the batch size is positive and is the number of state rows, staged sites and staged values |
| Flippers.SystemSize | Sources/Sampler/metropolis_local_v2.hpp:48 | the system size is positive and is the length of every chain's row |
| Flippers.Current | Sources/Sampler/metropolis_local_v2.hpp:63-67 | the current state has one row per chain, each a configuration of allowed local states |
| Flippers.Proposed | Sources/Sampler/metropolis_local_v2.hpp:72-73 | each proposed row holds the staged value at the staged site and differs from the current row in exactly one entry; every entry is an allowed local state |
| Flippers.Read | Sources/Sampler/metropolis_local_v2.hpp:69-73 | one suggestion per chain, with a site in range and a value that is allowed and differs from the current value there; applying each suggestion to its chain's current row gives the configurations `Read(x)` writes |
| Flippers.ReadInto | Sources/Sampler/metropolis_local_v2.hpp:72-73 | the buffer written entry by entry equals the proposed configurations and has the state's shape |
| Flippers.Next | Sources/Sampler/metropolis_local_v2.hpp:56-61 | an accepted chain takes its proposed row (exactly one entry changes), a rejected chain keeps its row (no entry changes), the invariant is preserved, and fresh sites and values are staged from the draws against the new state; with every flip rejected the state is unchanged, with every flip accepted it is exactly the proposed configurations |
| Flippers.Run | Sources/Sampler/metropolis_local_v2.hpp:56-61 | any number of moves preserves the invariant, so entries never leave the local states |
| Flippers.RunRejectedChainUnchanged | Sources/Sampler/metropolis_local_v2.hpp:56-61 | a chain whose flip is rejected at every step ends a run with its starting configuration |

## Left out

- `MetropolisLocalV2` (`Read`, `Next`, `Reset`, lines 109-138): its bodies are not
  part of this model. They evaluate the variational machine's complex
  log-amplitudes and floating-point acceptance probabilities. The acceptance
  decision appears only as the `accept` mask passed to `Flippers.Next`.
- `ComputeSamples` (lines 161-164): its body is not part of this model, and it
  drives the floating-point sampler. Only the steps at which it records a batch are
  modelled (`StepsRanges.CollectedSteps`), assuming the collector makes `end`
  moves numbered from 0 and records after move `i` when `i` passes the burn-in
  and thinning test.
- `LocalValuesV2` and `Gradient` (lines 166-172): complex floating-point estimators
  over an external operator and machine, with no body in the header.
- `DistributedRandomEngine` and `Generator()` (lines 49, 105): replaced by explicit
  draw parameters. The bounds of the draws stand for the uniform distributions.
- The `Suggestion` span struct and the `proposed_` vector (lines 32-35, 104), and
  the `Eigen::Ref` and `nonstd::span` views: memory layout only. Suggestions are a
  sequence of (site, value) pairs, and matrices are sequences of rows.
- Flippers.Stage: requires at least two distinct local states, a condition the
  header does not state. With one local state there is no other value to
  propose, so the value draw would have an empty range. With a repeated value,
  "every value except the current one" could still propose the current value.
- Flippers.RandomValue: requires at least two distinct local states, as for `Stage`.
- Flippers.Reset: requires at least two distinct local states, as for `Stage`.
- Flippers.Next: requires at least two distinct local states, as for `Stage`.
- Flippers.Run: requires at least two distinct local states, as for `Stage`.
- StepsRanges.Size: uses unbounded integers, so it does not model overflow of the
  64-bit `Index` when `end - start` exceeds its range.
