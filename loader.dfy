/** `loadData`: start one fetch per data source and call the callback once
    every fetch has delivered its data. The fetches themselves are I/O; what
    is modelled is the bookkeeping their handlers do, run as the sequence of
    handler calls in completion order. */
module Loader {

  /** The d3 loader a source names: `d3.json` or `d3.csv`. */
  datatype Fetcher = Json | Csv

  /** A data source: the loader, its arguments (the URL) and the key its
      data is stored under in `results`. */
  datatype Source = Source(fetcher: Fetcher, args: seq<string>, key: string)

  /** `dataSources`: the topology, the id table and the census CSV. */
  const DataSources: seq<Source> := [
    Source(Json, ["data/romania-topo.json"], "judete"),
    Source(Json, ["data/judete-id.json"], "id_judete"),
    Source(Csv, ["data/recensaminte.csv"], "recensaminte")
  ]

  /** What a handler receives: the data, or an error. */
  datatype Outcome<D> = Loaded(data: D) | Failed

  /** One handler call: the index of the source whose fetch completed. */
  datatype Completion<D> = Completion(source: nat, outcome: Outcome<D>)

  /** A fetch started by `loadData`: the loader, the arguments it is given
      before the handler, and the source that handler belongs to. */
  datatype Request = Request(fetcher: Fetcher, args: seq<string>, source: nat)

  /** The barrier's state: the counter, the results object, and the
      callback invocations so far, each with the results it was given. */
  datatype Barrier<D> = Barrier(remaining: int, results: map<string, D>, delivered: seq<map<string, D>>)

  /** `remaining = sources.length`, `results = {}`, no callback yet. */
  function Start<D>(sources: seq<Source>): (b: Barrier<D>)
    ensures b.remaining == |sources| && b.results == map[] && b.delivered == []
  {
    Barrier(|sources|, map[], [])
  }

  /** The handler: an error throws before anything changes; otherwise the
      data is stored, the counter goes down, and the callback runs when it
      reaches 0. */
  function Step<D>(sources: seq<Source>, b: Barrier<D>, c: Completion<D>): (r: Barrier<D>)
    requires c.source < |sources|
    ensures c.outcome.Failed? ==> r == b
    ensures c.outcome.Loaded? ==>
      && r.remaining == b.remaining - 1
      && r.results.Keys == b.results.Keys + {sources[c.source].key}
      && r.results[sources[c.source].key] == c.outcome.data
      && forall k :: k in b.results && k != sources[c.source].key ==> r.results[k] == b.results[k]
    ensures r.delivered == b.delivered || (r.remaining == 0 && r.delivered == b.delivered + [r.results])
    ensures c.outcome.Loaded? && r.remaining == 0 ==> r.delivered == b.delivered + [r.results]
    ensures r.remaining != 0 ==> r.delivered == b.delivered
  {
    match c.outcome
    case Failed => b
    case Loaded(data) =>
      var results := b.results[sources[c.source].key := data];
      var remaining := b.remaining - 1;
      Barrier(remaining, results, if remaining == 0 then b.delivered + [results] else b.delivered)
  }

  predicate ValidEvents<D>(sources: seq<Source>, events: seq<Completion<D>>) {
    forall k :: 0 <= k < |events| ==> events[k].source < |sources|
  }

  /** d3 calls each fetch's handler once: no source completes twice. */
  predicate Distinct<D>(events: seq<Completion<D>>) {
    forall k, l :: 0 <= k < l < |events| ==> events[k].source != events[l].source
  }

  /** The state after the handler calls `events`, in order. */
  function Run<D>(sources: seq<Source>, events: seq<Completion<D>>): (r: Barrier<D>)
    requires ValidEvents(sources, events)
    ensures |sources| - |events| <= r.remaining <= |sources|
    decreases |events|
  {
    if events == [] then Start(sources)
    else Step(sources, Run(sources, events[..|events| - 1]), events[|events| - 1])
  }

  /** The sources whose handler has run without an error. */
  function LoadedSources<D>(events: seq<Completion<D>>): set<nat>
    decreases |events|
  {
    if events == [] then {}
    else
      var c := events[|events| - 1];
      LoadedSources(events[..|events| - 1]) + (if c.outcome.Loaded? then {c.source} else {})
  }

  /** The indices of `sources`, 0 to n - 1. */
  function Indices(n: nat): set<nat> {
    if n == 0 then {} else Indices(n - 1) + {n - 1}
  }

  /** Some handler call delivered the data of source `i`. */
  predicate HasLoaded<D>(events: seq<Completion<D>>, i: nat) {
    exists k :: 0 <= k < |events| && events[k].source == i && events[k].outcome.Loaded?
  }

  /** The keys of all sources. */
  function Keys(sources: seq<Source>): set<string> {
    set i | 0 <= i < |sources| :: sources[i].key
  }

  /** No two sources share a key, as in `dataSources`. */
  predicate DistinctKeys(sources: seq<Source>) {
    forall i, j :: 0 <= i < j < |sources| ==> sources[i].key != sources[j].key
  }

  // ---------------------------------------------------------------------
  // Lemmas

  lemma {:induction false} IndicesSize(n: nat)
    ensures |Indices(n)| == n
    ensures forall i: int :: i in Indices(n) <==> 0 <= i < n
  {
    if n > 0 {
      IndicesSize(n - 1);
      assert n - 1 !in Indices(n - 1);
    }
  }

  lemma SubsetOfSameSize(a: set<nat>, b: set<nat>)
    requires a <= b && |a| >= |b|
    ensures a == b
  {
    assert b == a + (b - a);
    assert |b| == |a| + |b - a|;
  }

  lemma {:induction false} LoadedSourcesMembers<D>(events: seq<Completion<D>>, i: nat)
    ensures i in LoadedSources(events) <==> HasLoaded(events, i)
    decreases |events|
  {
    if events != [] {
      var init := events[..|events| - 1];
      LoadedSourcesMembers(init, i);
      if HasLoaded(init, i) {
        var k :| 0 <= k < |init| && init[k].source == i && init[k].outcome.Loaded?;
        assert events[k] == init[k];
      }
      if HasLoaded(events, i) {
        var k :| 0 <= k < |events| && events[k].source == i && events[k].outcome.Loaded?;
        if k < |init| {
          assert init[k] == events[k];
        }
      }
    }
  }

  lemma {:induction false} LoadedSourcesBound<D>(sources: seq<Source>, events: seq<Completion<D>>)
    requires ValidEvents(sources, events)
    ensures LoadedSources(events) <= Indices(|sources|)
    decreases |events|
  {
    IndicesSize(|sources|);
    if events != [] {
      LoadedSourcesBound(sources, events[..|events| - 1]);
    }
  }

  /** Whatever the completions, the callback runs at most once: after it
      runs the counter is 0 and can only go further down. */
  lemma {:induction false} AtMostOnce<D>(sources: seq<Source>, events: seq<Completion<D>>)
    requires ValidEvents(sources, events)
    ensures |Run(sources, events).delivered| <= 1
    ensures Run(sources, events).delivered != [] ==> Run(sources, events).remaining <= 0
    ensures |sources| > 0 ==> (Run(sources, events).delivered != [] <==> Run(sources, events).remaining <= 0)
    decreases |events|
  {
    if events != [] {
      AtMostOnce(sources, events[..|events| - 1]);
    }
  }

  /** The results object holds the key of every source loaded so far. */
  lemma {:induction false} RunResults<D>(sources: seq<Source>, events: seq<Completion<D>>)
    requires ValidEvents(sources, events)
    ensures Run(sources, events).results.Keys
      == set i | i in LoadedSources(events) && i < |sources| :: sources[i].key
    decreases |events|
  {
    if events != [] {
      RunResults(sources, events[..|events| - 1]);
    }
  }

  /** A source that completes for the last time was not loaded before. */
  lemma LastIsNew<D>(events: seq<Completion<D>>)
    requires events != [] && Distinct(events)
    ensures Distinct(events[..|events| - 1])
    ensures events[|events| - 1].source !in LoadedSources(events[..|events| - 1])
  {
    var init := events[..|events| - 1];
    LoadedSourcesMembers(init, events[|events| - 1].source);
  }

  /** With each source completing at most once, the counter is the number
      of sources still missing. */
  lemma {:induction false} RunRemaining<D>(sources: seq<Source>, events: seq<Completion<D>>)
    requires ValidEvents(sources, events) && Distinct(events)
    ensures Run(sources, events).remaining == |sources| - |LoadedSources(events)|
    decreases |events|
  {
    if events != [] {
      LastIsNew(events);
      RunRemaining(sources, events[..|events| - 1]);
    }
  }

  /** With each source completing at most once, a callback that has run was
      given the final results: no handler runs after it. */
  lemma {:induction false} RunDelivered<D>(sources: seq<Source>, events: seq<Completion<D>>)
    requires ValidEvents(sources, events) && Distinct(events)
    ensures Run(sources, events).delivered != [] ==> Run(sources, events).delivered[0] == Run(sources, events).results
    decreases |events|
  {
    if events != [] {
      var init := events[..|events| - 1];
      var c := events[|events| - 1];
      LastIsNew(events);
      RunDelivered(sources, init);
      if c.outcome.Loaded? && Run(sources, init).delivered != [] {
        AtMostOnce(sources, init);
        RunRemaining(sources, init);
        LoadedSourcesBound(sources, init);
        IndicesSize(|sources|);
        SubsetOfSameSize(LoadedSources(init), Indices(|sources|));
        assert false;
      }
    }
  }

  /** With distinct keys and each source completing at most once, the
      results hold, under each loaded source's key, the data its handler
      received. */
  lemma {:induction false} RunValues<D>(sources: seq<Source>, events: seq<Completion<D>>, k: nat)
    requires ValidEvents(sources, events) && Distinct(events) && DistinctKeys(sources)
    requires k < |events| && events[k].outcome.Loaded?
    ensures sources[events[k].source].key in Run(sources, events).results
    ensures Run(sources, events).results[sources[events[k].source].key] == events[k].outcome.data
    decreases |events|
  {
    var n := |events| - 1;
    if k < n {
      var init := events[..n];
      assert init[k] == events[k];
      LastIsNew(events);
      RunValues(sources, init, k);
      assert events[n].source != events[k].source;
    }
  }

  /** The results the callback receives hold each source's loaded data
      under that source's key. */
  lemma {:induction false} DeliveredValues<D>(sources: seq<Source>, events: seq<Completion<D>>)
    requires ValidEvents(sources, events) && Distinct(events) && DistinctKeys(sources)
    requires Run(sources, events).delivered != []
    ensures forall k :: 0 <= k < |events| && events[k].outcome.Loaded? ==>
      && sources[events[k].source].key in Run(sources, events).delivered[0]
      && Run(sources, events).delivered[0][sources[events[k].source].key] == events[k].outcome.data
  {
    RunDelivered(sources, events);
    forall k | 0 <= k < |events| && events[k].outcome.Loaded?
      ensures sources[events[k].source].key in Run(sources, events).results
      ensures Run(sources, events).results[sources[events[k].source].key] == events[k].outcome.data
    {
      RunValues(sources, events, k);
    }
  }

  /** With each source completing at most once, the callback has run if and
      only if every source has been loaded. */
  lemma FiresIffAllLoaded<D>(sources: seq<Source>, events: seq<Completion<D>>)
    requires ValidEvents(sources, events) && Distinct(events) && |sources| > 0
    ensures Run(sources, events).delivered != [] <==> LoadedSources(events) == Indices(|sources|)
  {
    RunRemaining(sources, events);
    AtMostOnce(sources, events);
    LoadedSourcesBound(sources, events);
    IndicesSize(|sources|);
    if |LoadedSources(events)| >= |sources| {
      SubsetOfSameSize(LoadedSources(events), Indices(|sources|));
    }
  }

  lemma FirstEventValid<D>(sources: seq<Source>, events: seq<Completion<D>>)
    requires ValidEvents(sources, events) && events != []
    ensures events[0].source < |sources|
  {
  }

  /** Handler calls for an empty source list are impossible. */
  lemma NoEventsWithoutSources<D>(events: seq<Completion<D>>)
    requires ValidEvents([], events)
    ensures events == []
  {
    if events != [] {
      FirstEventValid([], events);
      assert false;
    }
  }

  /** When the callback has run, it ran once, every source had completed
      without an error, and the results it received hold every source key. */
  lemma DeliveredResults<D>(sources: seq<Source>, events: seq<Completion<D>>)
    requires ValidEvents(sources, events) && Distinct(events)
    requires Run(sources, events).delivered != []
    ensures |Run(sources, events).delivered| == 1
    ensures forall i :: 0 <= i < |sources| ==> HasLoaded(events, i)
    ensures Run(sources, events).delivered[0].Keys == Keys(sources)
  {
    AtMostOnce(sources, events);
    RunDelivered(sources, events);
    RunResults(sources, events);
    if sources == [] {
      NoEventsWithoutSources(events);
    }
    FiresIffAllLoaded(sources, events);
    IndicesSize(|sources|);
    forall i | 0 <= i < |sources| ensures HasLoaded(events, i) {
      LoadedSourcesMembers(events, i);
    }
    assert (set i | i in LoadedSources(events) && i < |sources| :: sources[i].key) == Keys(sources);
  }

  /** A handler that receives an error throws before the counter goes down,
      so the callback never runs. */
  lemma FailureSuppresses<D>(sources: seq<Source>, events: seq<Completion<D>>, k: nat)
    requires ValidEvents(sources, events) && Distinct(events)
    requires k < |events| && events[k].outcome.Failed?
    ensures Run(sources, events).delivered == []
  {
    var i := events[k].source;
    LoadedSourcesMembers(events, i);
    IndicesSize(|sources|);
    assert i !in LoadedSources(events) && i in Indices(|sources|);
    FiresIffAllLoaded(sources, events);
  }

  /** With no sources no handler exists, so the callback never runs. */
  lemma NoSourcesNeverFires<D>(events: seq<Completion<D>>)
    requires ValidEvents([], events)
    ensures Run([], events).delivered == []
  {
    NoEventsWithoutSources(events);
  }

  /** Once every source has loaded, each once, the callback has run exactly
      once with every key. */
  lemma AllLoadedFiresOnce<D>(sources: seq<Source>, events: seq<Completion<D>>)
    requires ValidEvents(sources, events) && Distinct(events) && |sources| > 0
    requires forall i :: 0 <= i < |sources| ==> HasLoaded(events, i)
    ensures |Run(sources, events).delivered| == 1
    ensures Run(sources, events).delivered[0].Keys == Keys(sources)
  {
    LoadedSourcesBound(sources, events);
    IndicesSize(|sources|);
    forall i: nat | i < |sources| ensures i in LoadedSources(events) {
      LoadedSourcesMembers(events, i);
    }
    FiresIffAllLoaded(sources, events);
    DeliveredResults(sources, events);
  }

  /** For the three data sources the results carry the topology, the id
      table and the census, under their keys. */
  lemma {:induction false} DataSourcesDelivered<D>(events: seq<Completion<D>>)
    requires ValidEvents(DataSources, events) && Distinct(events)
    requires Run(DataSources, events).delivered != []
    ensures Run(DataSources, events).delivered[0].Keys == {"judete", "id_judete", "recensaminte"}
    ensures forall k :: 0 <= k < |events| && events[k].outcome.Loaded? ==>
      Run(DataSources, events).delivered[0][DataSources[events[k].source].key] == events[k].outcome.data
  {
    assert DataSources[0].key == "judete";
    assert DataSources[1].key == "id_judete";
    assert DataSources[2].key == "recensaminte";
    assert Keys(DataSources) == {"judete", "id_judete", "recensaminte"};
    assert DistinctKeys(DataSources);
    DeliveredResults(DataSources, events);
    DeliveredValues(DataSources, events);
  }

  // ---------------------------------------------------------------------
  // The barrier as `loadData` keeps it

  /** `loadData`'s closure state: the counter and results object shared by
      the handlers, and the callback invocations they made. */
  class LoadBarrier<D> {
    const sources: seq<Source>
    var requests: seq<Request>
    var remaining: int
    var results: map<string, D>
    var delivered: seq<map<string, D>>
    ghost var events: seq<Completion<D>>

    function State(): Barrier<D>
      reads this
    {
      Barrier(remaining, results, delivered)
    }

    ghost predicate Valid()
      reads this
    {
      ValidEvents(sources, events) && State() == Run(sources, events)
    }

    /** Lines 138-157: set the counter, empty the results, and start one
        fetch per source, in order, each with its own handler. */
    constructor (sources: seq<Source>)
      ensures this.sources == sources && events == [] && Valid()
      ensures remaining == |sources| && results == map[] && delivered == []
      ensures |requests| == |sources|
      ensures forall i :: 0 <= i < |sources| ==>
        requests[i] == Request(sources[i].fetcher, sources[i].args, i)
    {
      var issued: seq<Request> := [];
      var i := 0;
      while i < |sources|
        invariant 0 <= i <= |sources| && |issued| == i
        invariant forall j :: 0 <= j < i ==> issued[j] == Request(sources[j].fetcher, sources[j].args, j)
      {
        issued := issued + [Request(sources[i].fetcher, sources[i].args, i)];
        i := i + 1;
      }
      this.sources := sources;
      requests := issued;
      remaining := |sources|;
      results := map[];
      delivered := [];
      events := [];
    }

    /** The handler of source `c.source`, called with `c.outcome`.
        `thrown` is the `throw error` of line 143. */
    method Handle(c: Completion<D>) returns (thrown: bool)
      requires Valid() && c.source < |sources|
      modifies this
      ensures Valid() && events == old(events) + [c]
      ensures State() == Step(sources, old(State()), c)
      ensures thrown <==> c.outcome.Failed?
      ensures requests == old(requests)
    {
      events := events + [c];
      assert events[..|events| - 1] == old(events);
      if c.outcome.Failed? {
        return true;
      }
      thrown := false;
      results := results[sources[c.source].key := c.outcome.data];
      remaining := remaining - 1;
      if remaining == 0 {
        delivered := delivered + [results];
      }
    }
  }
}
