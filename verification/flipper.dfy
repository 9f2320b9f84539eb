/**
 The single-site proposal generator ("Flipper") of a batch of Markov chains.

 Its state is a `BatchSize() x SystemSize()` matrix, one row per chain, whose
 entries are allowed local states, plus one staged suggestion per chain: a site
 and the value that site would take. Randomness is replaced by explicit draws,
 so every transition is a total function and its invariants hold for every
 possible draw:
 - a state draw is an index into the allowed local states;
 - a site draw is a site index in `[0, SystemSize())`;
 - a value draw is an index in `[0, |localStates| - 1)` that selects one of the
   allowed values other than the current one.
 */
module Flippers {
  import opened Wrappers
  import opened Configurations

  datatype Error = NonPositiveBatchSize | NonPositiveSystemSize | EmptyLocalStates

  /** What is fixed at construction: number of chains, number of sites, allowed values. */
  datatype Shape<V> = Shape(batchSize: nat, systemSize: nat, localStates: seq<V>)

  predicate ValidShape<V>(sh: Shape<V>) {
    sh.batchSize > 0 && sh.systemSize > 0 && |sh.localStates| > 0
  }

  /**
   Staging a suggestion needs, for every current value, another allowed value:
   at least two allowed values, none listed twice.
   */
  predicate CanPropose<V(==)>(sh: Shape<V>) {
    ValidShape(sh) && |sh.localStates| >= 2 && Distinct(sh.localStates)
  }

  /** The constructor's checks on the requested shape and local states. */
  function New<V>(batchSize: int, systemSize: int, localStates: seq<V>): (r: Result<Shape<V>, Error>)
    ensures r.Success? <==> batchSize > 0 && systemSize > 0 && |localStates| > 0
    ensures r.Success? ==> ValidShape(r.value)
    ensures r.Success? ==> r.value.batchSize == batchSize && r.value.systemSize == systemSize
    ensures r.Success? ==> r.value.localStates == localStates
    ensures r.Failure? && r.error == NonPositiveBatchSize ==> batchSize <= 0
    ensures r.Failure? && r.error == NonPositiveSystemSize ==> systemSize <= 0
    ensures r.Failure? && r.error == EmptyLocalStates ==> |localStates| == 0
  {
    if batchSize <= 0 then Failure(NonPositiveBatchSize)
    else if systemSize <= 0 then Failure(NonPositiveSystemSize)
    else if |localStates| == 0 then Failure(EmptyLocalStates)
    else Success(Shape(batchSize, systemSize, localStates))
  }

  /** A `batchSize x systemSize` matrix whose every entry is an allowed local state. */
  predicate ValidState<V(==)>(sh: Shape<V>, m: seq<seq<V>>) {
    && |m| == sh.batchSize
    && forall b :: 0 <= b < |m| ==> |m[b]| == sh.systemSize && AllIn(m[b], sh.localStates)
  }

  /** One chain's staged single-site change. */
  datatype Suggestion<V> = Suggestion(site: nat, value: V)

  datatype Flipper<V> = Flipper(shape: Shape<V>, state: seq<seq<V>>, sites: seq<nat>, values: seq<V>)

  /**
   The invariant every reachable flipper keeps: the state is valid, there is one
   suggestion per chain, each staged site is a site of the system, and each staged
   value is allowed and differs from that chain's current value at that site.
   */
  predicate Valid<V(==)>(f: Flipper<V>) {
    && CanPropose(f.shape)
    && ValidState(f.shape, f.state)
    && |f.sites| == f.shape.batchSize
    && |f.values| == f.shape.batchSize
    && forall b :: 0 <= b < |f.sites| ==>
         && f.sites[b] < f.shape.systemSize
         && f.values[b] in f.shape.localStates
         && f.values[b] != f.state[b][f.sites[b]]
  }

  /** One index into the allowed local states per site of every chain. */
  predicate StateDrawsOk<V>(sh: Shape<V>, d: seq<seq<nat>>) {
    && |d| == sh.batchSize
    && forall b :: 0 <= b < |d| ==>
         |d[b]| == sh.systemSize && forall s :: 0 <= s < |d[b]| ==> d[b][s] < |sh.localStates|
  }

  /**
   The draws consumed when staging: one site draw and one value draw per chain;
   the value draw is read against the value at the drawn site.
   */
  datatype StepDraws = StepDraws(sites: seq<nat>, values: seq<nat>)

  predicate StepDrawsOk<V>(sh: Shape<V>, d: StepDraws) {
    && |d.sites| == sh.batchSize
    && |d.values| == sh.batchSize
    && forall b :: 0 <= b < |d.sites| ==> d.sites[b] < sh.systemSize && d.values[b] < |sh.localStates| - 1
  }

  datatype ResetDraws = ResetDraws(state: seq<seq<nat>>, step: StepDraws)

  /** Randomizes the state: every site of every chain takes the local state its draw selects. */
  function RandomState<V(==)>(sh: Shape<V>, d: seq<seq<nat>>): (m: seq<seq<V>>)
    requires StateDrawsOk(sh, d)
    ensures ValidState(sh, m)
  {
    seq(|d|, b requires 0 <= b < |d| =>
      seq(|d[b]|, s requires 0 <= s < |d[b]| => sh.localStates[d[b][s]]))
  }

  /** Every valid state is produced by some state draw. */
  lemma RandomStateReachesAll<V>(sh: Shape<V>, m: seq<seq<V>>)
    requires ValidState(sh, m)
    ensures exists d :: StateDrawsOk(sh, d) && RandomState(sh, d) == m
  {
    var d := seq(|m|, b requires 0 <= b < |m| =>
      seq(|m[b]|, s requires 0 <= s < |m[b]| => IndexOf(sh.localStates, m[b][s])));
    assert StateDrawsOk(sh, d);
    var r := RandomState(sh, d);
    forall b | 0 <= b < |m|
      ensures r[b] == m[b]
    {
    }
  }

  /**
   Distinct state draws produce distinct states, so with the previous lemma the
   draws and the valid states are in one-to-one correspondence: independent
   uniform draws give a uniformly distributed state.
   */
  lemma RandomStateInjective<V>(sh: Shape<V>, d1: seq<seq<nat>>, d2: seq<seq<nat>>)
    requires Distinct(sh.localStates)
    requires StateDrawsOk(sh, d1) && StateDrawsOk(sh, d2)
    requires RandomState(sh, d1) == RandomState(sh, d2)
    ensures d1 == d2
  {
    var m := RandomState(sh, d1);
    forall b | 0 <= b < |d1|
      ensures d1[b] == d2[b]
    {
      forall s | 0 <= s < |d1[b]|
        ensures d1[b][s] == d2[b][s]
      {
        assert m[b][s] == sh.localStates[d1[b][s]];
        assert RandomState(sh, d2)[b][s] == sh.localStates[d2[b][s]];
      }
    }
  }

  /** Maps a value draw to a position in the allowed states, skipping the current position `c`. */
  function Skip(k: nat, c: nat): (j: nat)
    ensures j != c
  {
    if k < c then k else k + 1
  }

  /**
   The value proposed for a site currently holding `current`: the allowed value
   that the draw `k` selects among all allowed values except `current`.
   */
  function RandomValue<V(==)>(localStates: seq<V>, current: V, k: nat): (v: V)
    requires |localStates| >= 2 && Distinct(localStates)
    requires current in localStates && k < |localStates| - 1
    ensures v in localStates && v != current
  {
    var c := IndexOf(localStates, current);
    localStates[Skip(k, c)]
  }

  /**
   Each allowed value other than the current one is selected by exactly one
   value draw, so a uniform draw proposes the other values uniformly.
   */
  lemma RandomValueUniform<V>(localStates: seq<V>, current: V, v: V) returns (k: nat)
    requires |localStates| >= 2 && Distinct(localStates)
    requires current in localStates && v in localStates && v != current
    ensures k < |localStates| - 1 && RandomValue(localStates, current, k) == v
    ensures forall k' :: 0 <= k' < |localStates| - 1 && RandomValue(localStates, current, k') == v ==> k' == k
  {
    var c := IndexOf(localStates, current);
    var j := IndexOf(localStates, v);
    k := if j < c then j else j - 1;
    assert Skip(k, c) == j;
    forall k' | 0 <= k' < |localStates| - 1 && RandomValue(localStates, current, k') == v
      ensures k' == k
    {
      IndexOfUnique(localStates, Skip(k', c));
    }
  }

  /** Stages one suggestion per chain: a site from the site draw, then a value other than the current one. */
  function Stage<V(==)>(sh: Shape<V>, state: seq<seq<V>>, d: StepDraws): (f: Flipper<V>)
    requires CanPropose(sh) && ValidState(sh, state) && StepDrawsOk(sh, d)
    ensures Valid(f)
    ensures f.shape == sh && f.state == state && f.sites == d.sites
    ensures forall b :: 0 <= b < sh.batchSize ==>
      f.values[b] == RandomValue(sh.localStates, state[b][d.sites[b]], d.values[b])
  {
    var values := seq(sh.batchSize, b requires 0 <= b < sh.batchSize =>
      RandomValue(sh.localStates, state[b][d.sites[b]], d.values[b]));
    Flipper(sh, state, d.sites, values)
  }

  /** Resets the flipper: randomizes the state, then stages fresh sites and values. */
  function Reset<V(==)>(sh: Shape<V>, d: ResetDraws): (f: Flipper<V>)
    requires CanPropose(sh) && StateDrawsOk(sh, d.state) && StepDrawsOk(sh, d.step)
    ensures Valid(f)
    ensures f.shape == sh && f.sites == d.step.sites
    ensures f.state == RandomState(sh, d.state)
    ensures forall b :: 0 <= b < sh.batchSize ==>
      f.values[b] == RandomValue(sh.localStates, f.state[b][f.sites[b]], d.step.values[b])
  {
    Stage(sh, RandomState(sh, d.state), d.step)
  }

  /** Number of chains: the rows of the state and the staged suggestions. */
  function BatchSize<V(==)>(f: Flipper<V>): (n: nat)
    requires Valid(f)
    ensures n > 0 && n == |f.state| && n == |f.sites| && n == |f.values|
  {
    |f.state|
  }

  /** Number of sites: the length of every chain's configuration. */
  function SystemSize<V(==)>(f: Flipper<V>): (n: nat)
    requires Valid(f)
    ensures n > 0
    ensures forall b :: 0 <= b < |f.state| ==> |f.state[b]| == n
  {
    f.shape.systemSize
  }

  /** The current configurations, one row per chain, each entry an allowed local state. */
  function Current<V(==)>(f: Flipper<V>): (m: seq<seq<V>>)
    requires Valid(f)
    ensures ValidState(f.shape, m)
    ensures m == f.state
  {
    f.state
  }

  /**
   The proposed configurations: every chain's current row with its staged site
   set to its staged value. Exactly that one entry differs from the current row.
   */
  function Proposed<V(==)>(f: Flipper<V>): (x: seq<seq<V>>)
    requires Valid(f)
    ensures ValidState(f.shape, x)
    ensures forall b :: 0 <= b < |x| ==> x[b][f.sites[b]] == f.values[b]
    ensures forall b :: 0 <= b < |x| ==> DiffCount(f.state[b], x[b]) == 1
  {
    var x := seq(|f.state|, b requires 0 <= b < |f.state| => f.state[b][f.sites[b] := f.values[b]]);
    assert forall b :: 0 <= b < |x| ==> DiffCount(f.state[b], x[b]) == 1 by {
      forall b | 0 <= b < |x| {
        DiffCountSingleUpdate(f.state[b], f.sites[b], f.values[b]);
      }
    }
    x
  }

  /** The staged suggestions, one per chain, without changing anything. */
  function Read<V(==)>(f: Flipper<V>): (r: seq<Suggestion<V>>)
    requires Valid(f)
    ensures |r| == BatchSize(f)
    ensures forall b :: 0 <= b < |r| ==>
      && r[b].site < |f.state[b]| == SystemSize(f)
      && r[b].value in f.shape.localStates
      && r[b].value != f.state[b][r[b].site]
    ensures forall b :: 0 <= b < |r| ==> f.state[b][r[b].site := r[b].value] == Proposed(f)[b]
  {
    seq(|f.sites|, b requires 0 <= b < |f.sites| => Suggestion(f.sites[b], f.values[b]))
  }

  /**
   Writes the proposed configurations into a fresh `BatchSize() x SystemSize()`
   buffer, site by site; the flipper itself is a value and is left as it was.
   */
  method ReadInto<V(==)>(f: Flipper<V>) returns (x: seq<seq<V>>)
    requires Valid(f)
    ensures x == Proposed(f)
    ensures ValidState(f.shape, x)
  {
    x := [];
    var b := 0;
    while b < |f.state|
      invariant 0 <= b <= |f.state|
      invariant x == Proposed(f)[..b]
    {
      var row := [];
      var s := 0;
      while s < |f.state[b]|
        invariant 0 <= s <= |f.state[b]|
        invariant row == Proposed(f)[b][..s]
      {
        var entry := if s == f.sites[b] then f.values[b] else f.state[b][s];
        row := row + [entry];
        s := s + 1;
      }
      assert row == Proposed(f)[b];
      assert Proposed(f)[..b + 1] == Proposed(f)[..b] + [Proposed(f)[b]];
      x := x + [row];
      b := b + 1;
    }
    assert Proposed(f)[..b] == Proposed(f);
  }

  /**
   Makes a move: a chain whose flip was accepted takes its proposed
   configuration, a rejected chain keeps its row, and then every chain gets a
   fresh suggestion.
   */
  function Next<V(==)>(f: Flipper<V>, accept: seq<bool>, d: StepDraws): (g: Flipper<V>)
    requires Valid(f) && |accept| == BatchSize(f) && StepDrawsOk(f.shape, d)
    ensures Valid(g)
    ensures g.shape == f.shape && g.sites == d.sites
    ensures forall b :: 0 <= b < |accept| ==>
      g.state[b] == (if accept[b] then Proposed(f)[b] else f.state[b])
    ensures forall b :: 0 <= b < |accept| ==>
      g.values[b] == RandomValue(f.shape.localStates, g.state[b][d.sites[b]], d.values[b])
    ensures forall b :: 0 <= b < |accept| ==>
      DiffCount(f.state[b], g.state[b]) == (if accept[b] then 1 else 0)
    ensures (forall b :: 0 <= b < |accept| ==> !accept[b]) ==> g.state == f.state
    ensures (forall b :: 0 <= b < |accept| ==> accept[b]) ==> g.state == Proposed(f)
  {
    var proposed := Proposed(f);
    var committed := seq(|f.state|, b requires 0 <= b < |f.state| =>
      if accept[b] then proposed[b] else f.state[b]);
    Stage(f.shape, committed, d)
  }

  /** Per-step inputs of a run are well-formed for the flipper's shape. */
  predicate StepsOk<V>(sh: Shape<V>, accepts: seq<seq<bool>>, draws: seq<StepDraws>) {
    && |accepts| == |draws|
    && forall t :: 0 <= t < |accepts| ==> |accepts[t]| == sh.batchSize && StepDrawsOk(sh, draws[t])
  }

  /** Makes one move per step, in order, as the sampler does between recorded batches. */
  function Run<V(==)>(f: Flipper<V>, accepts: seq<seq<bool>>, draws: seq<StepDraws>): (g: Flipper<V>)
    requires Valid(f) && StepsOk(f.shape, accepts, draws)
    ensures Valid(g) && g.shape == f.shape
    decreases |accepts|
  {
    if |accepts| == 0 then f
    else
      var f' := Next(f, accepts[0], draws[0]);
      Run(f', accepts[1..], draws[1..])
  }

  /** A chain whose flip is rejected at every step ends the run where it started. */
  lemma {:induction false} RunRejectedChainUnchanged<V>(
    f: Flipper<V>, accepts: seq<seq<bool>>, draws: seq<StepDraws>, b: nat)
    requires Valid(f) && StepsOk(f.shape, accepts, draws) && b < f.shape.batchSize
    requires forall t :: 0 <= t < |accepts| ==> !accepts[t][b]
    ensures Run(f, accepts, draws).state[b] == f.state[b]
    decreases |accepts|
  {
    if |accepts| > 0 {
      var f' := Next(f, accepts[0], draws[0]);
      RunRejectedChainUnchanged(f', accepts[1..], draws[1..], b);
    }
  }
}
