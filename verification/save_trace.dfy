/**
 * Sequences of saves, possibly interleaving several series: per series the
 * returned versions are strictly increasing, and the version list records
 * exactly the successful ones in order.
 */
module SaveTrace {
  import opened Outcome
  import opened Decimal
  import opened Keys
  import opened Redis
  import opened ModelStore
  import opened StoreInvariant
  import opened SaveProperties

  /** The final store and the result of each save, in order. */
  datatype Trace = Trace(store: Store, results: seq<Result<string, Failure>>)

  /** Runs save_model for each (series, model) pair in turn. */
  function SaveAll(st: Store, ops: seq<(string, Model)>): (t: Trace)
    ensures |t.results| == |ops|
    decreases |ops|
  {
    if |ops| == 0 then Trace(st, [])
    else
      var o := SaveModel(st, ops[0].0, ops[0].1);
      var rest := SaveAll(o.store, ops[1..]);
      Trace(rest.store, [o.result] + rest.results)
  }

  /** The counter value a version string stands for; 0 for a string that is not a version. */
  function Ordinal(v: string): nat {
    match VersionNumber(v)
    case Some(k) => k
    case None => 0
  }

  /** The versions successfully returned for series s, in order. */
  function SavedVersions(ops: seq<(string, Model)>, results: seq<Result<string, Failure>>, s: string): seq<string>
    requires |ops| == |results|
    decreases |ops|
  {
    if |ops| == 0 then []
    else (if ops[0].0 == s && results[0].Ok? then [results[0].value] else [])
         + SavedVersions(ops[1..], results[1..], s)
  }

  /**
   * On a well-formed store, every save either returns a version above the
   * series' counter at the start and at most its counter at the end, or
   * fails on counter overflow; no counter ever goes down.
   */
  lemma {:induction false} SaveAllVersions(st: Store, ops: seq<(string, Model)>)
    requires Wf(st)
    ensures var t := SaveAll(st, ops);
      && Wf(t.store)
      && (forall s :: CounterValue(st, s) <= CounterValue(t.store, s))
      && (forall i :: 0 <= i < |ops| && t.results[i].Err? ==> t.results[i].error == IncrOverflow)
      && (forall i :: 0 <= i < |ops| && t.results[i].Ok? ==>
            && VersionNumber(t.results[i].value).Some?
            && CounterValue(st, ops[i].0) < Ordinal(t.results[i].value) <= CounterValue(t.store, ops[i].0))
    decreases |ops|
  {
    if |ops| > 0 {
      var t := SaveAll(st, ops);
      var o := SaveModel(st, ops[0].0, ops[0].1);
      SavePreservesWf(st, ops[0].0, ops[0].1);
      var rest := SaveAll(o.store, ops[1..]);
      SaveAllVersions(o.store, ops[1..]);
      assert t.store == rest.store;
      assert t.results == [o.result] + rest.results;
      forall s ensures CounterValue(st, s) <= CounterValue(o.store, s) {
        if s != ops[0].0 {
          assert CounterValue(o.store, s) == CounterValue(st, s);
        }
      }
      forall i | 0 <= i < |ops| && t.results[i].Ok?
        ensures VersionNumber(t.results[i].value).Some?
        ensures CounterValue(st, ops[i].0) < Ordinal(t.results[i].value) <= CounterValue(t.store, ops[i].0)
      {
        if i > 0 {
          assert t.results[i] == rest.results[i - 1];
          assert ops[i] == ops[1..][i - 1];
        }
      }
    }
  }

  /**
   * Over any interleaving of saves from a well-formed store, the versions
   * returned to one series strictly increase, so none is returned twice.
   */
  lemma {:induction false} SaveAllIncreasing(st: Store, ops: seq<(string, Model)>)
    requires Wf(st)
    ensures var t := SaveAll(st, ops);
      forall i, j :: 0 <= i < j < |ops| && ops[i].0 == ops[j].0 && t.results[i].Ok? && t.results[j].Ok? ==>
        Ordinal(t.results[i].value) < Ordinal(t.results[j].value)
    decreases |ops|
  {
    if |ops| > 0 {
      var t := SaveAll(st, ops);
      var o := SaveModel(st, ops[0].0, ops[0].1);
      SavePreservesWf(st, ops[0].0, ops[0].1);
      var rest := SaveAll(o.store, ops[1..]);
      SaveAllVersions(o.store, ops[1..]);
      SaveAllIncreasing(o.store, ops[1..]);
      assert t.results == [o.result] + rest.results;
      forall i, j | 0 <= i < j < |ops| && ops[i].0 == ops[j].0 && t.results[i].Ok? && t.results[j].Ok?
        ensures Ordinal(t.results[i].value) < Ordinal(t.results[j].value)
      {
        assert t.results[j] == rest.results[j - 1];
        assert ops[j] == ops[1..][j - 1];
        if i > 0 {
          assert t.results[i] == rest.results[i - 1];
          assert ops[i] == ops[1..][i - 1];
        }
      }
    }
  }

  lemma AppendAssociative(a: seq<string>, b: seq<string>, c: seq<string>)
    ensures (a + b) + c == a + (b + c)
  {
  }

  /** One save appends to series s's list exactly when it saved s successfully. */
  lemma SaveStepIndex(st: Store, s0: string, m: Model, s: string)
    ensures var o := SaveModel(st, s0, m);
      IndexOf(o.store, s) == IndexOf(st, s) + (if s0 == s && o.result.Ok? then [o.result.value] else [])
  {
    var o := SaveModel(st, s0, m);
    if s0 != s {
      SaveKeepsOtherSeries(st, s0, m, s, IndexSuffix);
    }
    if s0 != s || o.result.Err? {
      assert IndexOf(st, s) + [] == IndexOf(st, s);
    }
  }

  /** The version list of every series is its old list followed by the versions the run returned for it. */
  lemma {:induction false} SaveAllIndex(st: Store, ops: seq<(string, Model)>, s: string)
    ensures var t := SaveAll(st, ops);
      IndexOf(t.store, s) == IndexOf(st, s) + SavedVersions(ops, t.results, s)
    decreases |ops|
  {
    var t := SaveAll(st, ops);
    if |ops| == 0 {
      assert IndexOf(st, s) + [] == IndexOf(st, s);
    } else {
      var o := SaveModel(st, ops[0].0, ops[0].1);
      var rest := SaveAll(o.store, ops[1..]);
      SaveStepIndex(st, ops[0].0, ops[0].1, s);
      SaveAllIndex(o.store, ops[1..], s);
      var head := if ops[0].0 == s && o.result.Ok? then [o.result.value] else [];
      var tail := SavedVersions(ops[1..], rest.results, s);
      assert t.store == rest.store && t.results == [o.result] + rest.results;
      assert t.results[1..] == rest.results;
      assert SavedVersions(ops, t.results, s) == head + tail;
      assert IndexOf(o.store, s) == IndexOf(st, s) + head;
      assert IndexOf(t.store, s) == IndexOf(o.store, s) + tail;
      AppendAssociative(IndexOf(st, s), head, tail);
    }
  }

  /** On a well-formed store, one save moves series s's latest pointer exactly when it saved s successfully. */
  lemma SaveStepLatest(st: Store, s0: string, m: Model, s: string)
    requires Wf(st)
    ensures var o := SaveModel(st, s0, m);
      Lookup(o.store, LatestKey(s)) == (if s0 == s && o.result.Ok? then Some(Text(o.result.value)) else Lookup(st, LatestKey(s)))
  {
    var o := SaveModel(st, s0, m);
    if s0 != s {
      SaveKeepsOtherSeries(st, s0, m, s, LatestSuffix);
    } else if o.result.Err? {
      SaveAllVersions(st, [(s0, m)]);
      assert SaveAll(st, [(s0, m)]).results[0] == o.result;
    }
  }

  /** The last element of a + b is b's when b is non-empty, and a's otherwise. */
  lemma LastOfAppend(a: seq<string>, b: seq<string>)
    requires a + b != []
    ensures (a + b)[|a + b| - 1] == if b != [] then b[|b| - 1] else a[|a| - 1]
  {
  }

  /** A run of saves is its first save followed by the run of the others from the store it left. */
  lemma SaveAllStep(st: Store, ops: seq<(string, Model)>, s: string)
    requires |ops| > 0
    ensures var t := SaveAll(st, ops);
      var o := SaveModel(st, ops[0].0, ops[0].1);
      var rest := SaveAll(o.store, ops[1..]);
      && t.store == rest.store
      && SavedVersions(ops, t.results, s)
         == (if ops[0].0 == s && o.result.Ok? then [o.result.value] else []) + SavedVersions(ops[1..], rest.results, s)
  {
    var t := SaveAll(st, ops);
    var o := SaveModel(st, ops[0].0, ops[0].1);
    var rest := SaveAll(o.store, ops[1..]);
    assert t.results[1..] == rest.results;
  }

  /**
   * On a well-formed store the latest pointer of series s ends at the last
   * version the run returned for s, and is untouched when it returned none.
   */
  lemma {:induction false} SaveAllLatest(st: Store, ops: seq<(string, Model)>, s: string)
    requires Wf(st)
    ensures var t := SaveAll(st, ops);
      var saved := SavedVersions(ops, t.results, s);
      && (saved != [] ==> Lookup(t.store, LatestKey(s)) == Some(Text(saved[|saved| - 1])))
      && (saved == [] ==> Lookup(t.store, LatestKey(s)) == Lookup(st, LatestKey(s)))
    decreases |ops|
  {
    if |ops| > 0 {
      var o := SaveModel(st, ops[0].0, ops[0].1);
      SaveAllStep(st, ops, s);
      SaveStepLatest(st, ops[0].0, ops[0].1, s);
      SavePreservesWf(st, ops[0].0, ops[0].1);
      SaveAllLatest(o.store, ops[1..], s);
      var head := if ops[0].0 == s && o.result.Ok? then [o.result.value] else [];
      var tail := SavedVersions(ops[1..], SaveAll(o.store, ops[1..]).results, s);
      if head + tail != [] {
        LastOfAppend(head, tail);
      }
    }
  }

  /**
   * From the empty store, latest_model of a series that some save returned
   * a version for serves a model under the last such version.
   */
  lemma LatestAfterSaves(ops: seq<(string, Model)>, s: string)
    requires var t := SaveAll(map[], ops); SavedVersions(ops, t.results, s) != []
    ensures var t := SaveAll(map[], ops);
      var saved := SavedVersions(ops, t.results, s);
      && LatestModel(t.store, s).Ok?
      && LatestModel(t.store, s).value.model.Some?
      && LatestModel(t.store, s).value.version == Some(saved[|saved| - 1])
  {
    var t := SaveAll(map[], ops);
    EmptyStoreWf();
    SaveAllVersions(map[], ops);
    SaveAllLatest(map[], ops, s);
    WfLatestResolves(t.store, s);
  }

  /**
   * From the empty store, list_versions returns exactly the versions the
   * saves of that series returned, in order, and none of them twice.
   */
  lemma ListVersionsAfterSaves(ops: seq<(string, Model)>, s: string)
    ensures var t := SaveAll(map[], ops);
      && ListVersions(t.store, s) == Ok(SavedVersions(ops, t.results, s))
      && (forall i, j :: 0 <= i < j < |ops| && ops[i].0 == s && ops[j].0 == s && t.results[i].Ok? && t.results[j].Ok? ==>
            t.results[i].value != t.results[j].value)
  {
    var t := SaveAll(map[], ops);
    EmptyStoreWf();
    SaveAllVersions(map[], ops);
    SaveAllIncreasing(map[], ops);
    SaveAllIndex(map[], ops, s);
    assert SeriesWf(t.store, s);
    assert IndexOf(map[], s) == [];
    assert [] + SavedVersions(ops, t.results, s) == SavedVersions(ops, t.results, s);
  }
}
