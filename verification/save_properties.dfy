/**
 * What one save promises to the readers: the version it returns loads back
 * the saved model, becomes the latest, ends the version list, and leaves
 * every other series as it was.
 */
module SaveProperties {
  import opened Outcome
  import opened Decimal
  import opened Keys
  import opened Redis
  import opened ModelStore
  import opened StoreInvariant

  /** On a series whose counter was never incremented, the first save returns "v1". */
  lemma FirstSaveIsV1(st: Store, s: string, m: Model)
    requires CounterKey(s) !in st && IndexIsList(st, s)
    ensures SaveModel(st, s, m).result == Ok("v1")
  {
    assert DigitChar(1) == '1';
    assert VersionName(CounterValue(st, s) + 1) == "v1";
  }

  /** Round trip: loading the returned version gives back the saved model. */
  lemma SaveThenLoad(st: Store, s: string, m: Model)
    requires SaveModel(st, s, m).result.Ok?
    ensures LoadModel(SaveModel(st, s, m).store, s, SaveModel(st, s, m).result.value) == Ok(Some(m))
  {
  }

  /** After a save the latest key holds the returned version, whatever it held before, and resolves to the model. */
  lemma SaveThenLatest(st: Store, s: string, m: Model)
    requires SaveModel(st, s, m).result.Ok?
    ensures var o := SaveModel(st, s, m);
      LatestModel(o.store, s) == Ok(Latest(Some(m), Some(o.result.value)))
  {
    var o := SaveModel(st, s, m);
    SaveThenLoad(st, s, m);
    assert o.store[LatestKey(s)] == Text(o.result.value);
  }

  /** After a save the version list is the old list with the returned version appended. */
  lemma SaveThenList(st: Store, s: string, m: Model)
    requires SaveModel(st, s, m).result.Ok?
    ensures ListVersions(st, s).Ok?
    ensures var o := SaveModel(st, s, m);
      ListVersions(o.store, s) == Ok(ListVersions(st, s).value + [o.result.value])
  {
    var o := SaveModel(st, s, m);
    assert o.store[IndexKey(s)] == List(IndexOf(st, s) + [o.result.value]);
  }

  /** Two successive saves on one series return strictly increasing, hence distinct, versions. */
  lemma SuccessiveSavesIncrease(st: Store, s: string, m1: Model, m2: Model)
    requires Wf(st)
    requires SaveModel(st, s, m1).result.Ok?
    requires SaveModel(SaveModel(st, s, m1).store, s, m2).result.Ok?
    ensures var o1 := SaveModel(st, s, m1);
      var o2 := SaveModel(o1.store, s, m2);
      && VersionNumber(o1.result.value).Some?
      && VersionNumber(o2.result.value).Some?
      && VersionNumber(o1.result.value).value < VersionNumber(o2.result.value).value
      && o1.result.value != o2.result.value
  {
    var o1 := SaveModel(st, s, m1);
    SavePreservesWf(st, s, m1);
    SavePreservesWf(o1.store, s, m2);
  }

  /** Under the invariant latest_model never raises, and it returns a model exactly when it returns a version. */
  lemma WfLatestResolves(st: Store, s: string)
    requires Wf(st)
    ensures LatestModel(st, s).Ok?
    ensures var l := LatestModel(st, s).value;
      l.model.Some? <==> l.version.Some?
    ensures LatestKey(s) !in st <==> LatestModel(st, s) == Ok(Latest(None, None))
  {
    assert SeriesWf(st, s);
    if LatestKey(s) in st {
      var v := st[LatestKey(s)].text;
      assert Published(st, s, v);
      VersionNameOfNumber(v);
    }
  }

  /** Under the invariant, every listed version loads a model. */
  lemma WfListedVersionsLoad(st: Store, s: string, i: nat)
    requires Wf(st)
    requires i < |IndexOf(st, s)|
    ensures ListVersions(st, s) == Ok(IndexOf(st, s))
    ensures LoadModel(st, s, IndexOf(st, s)[i]).Ok?
    ensures LoadModel(st, s, IndexOf(st, s)[i]).value.Some?
  {
    assert SeriesWf(st, s);
    assert Published(st, s, IndexOf(st, s)[i]);
  }

  /**
   * A save on series s changes nothing any reader of another series t can
   * observe: its version list, its latest model, and every version string
   * without a colon.
   */
  lemma SaveLeavesOtherSeries(st: Store, s: string, m: Model, t: string, x: string)
    requires Wf(st)
    requires t != s && ':' !in x
    ensures var st' := SaveModel(st, s, m).store;
      && LoadModel(st', t, x) == LoadModel(st, t, x)
      && ListVersions(st', t) == ListVersions(st, t)
      && LatestModel(st', t) == LatestModel(st, t)
  {
    var st' := SaveModel(st, s, m).store;
    SaveKeepsOtherSeries(st, s, m, t, x);
    SaveKeepsOtherSeries(st, s, m, t, IndexSuffix);
    SaveKeepsOtherSeries(st, s, m, t, LatestSuffix);
    assert SeriesWf(st, t);
    if LatestKey(t) in st {
      var v := st[LatestKey(t)].text;
      assert Published(st, t, v);
      VersionIsPlainSuffix(v);
      SaveKeepsOtherSeries(st, s, m, t, v);
    }
  }
}
