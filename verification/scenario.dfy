/**
 * The worked example of the store: two trainings of series "temp" from an
 * empty store, then the reads.
 */
module Scenario {
  import opened Outcome
  import opened Decimal
  import opened Keys
  import opened Redis
  import opened ModelStore
  import opened StoreInvariant
  import opened SaveProperties
  import opened Prediction

  /** The two trainings return v1 and then v2, and the list holds both in that order. */
  lemma TwoTrainingsVersions(m1: Model, m2: Model)
    ensures var o1 := SaveModel(map[], "temp", m1);
      var o2 := SaveModel(o1.store, "temp", m2);
      && o1.result == Ok("v1")
      && o2.result == Ok("v2")
      && ListVersions(o2.store, "temp") == Ok(["v1", "v2"])
  {
    var o1 := SaveModel(map[], "temp", m1);
    FirstSaveIsV1(map[], "temp", m1);
    assert CounterValue(o1.store, "temp") == 1;
    assert DigitChar(2) == '2';
    assert VersionName(2) == "v2";
    SaveThenList(map[], "temp", m1);
    SaveThenList(o1.store, "temp", m2);
    assert ListVersions(o1.store, "temp") == Ok([] + ["v1"]);
    assert [] + ["v1"] == ["v1"] && ["v1"] + ["v2"] == ["v1", "v2"];
  }

  /** After both trainings, latest serves the second model under v2. */
  lemma TwoTrainingsLatest(m1: Model, m2: Model)
    ensures var o1 := SaveModel(map[], "temp", m1);
      var o2 := SaveModel(o1.store, "temp", m2);
      LatestModel(o2.store, "temp") == Ok(Latest(Some(m2), Some("v2")))
  {
    var o1 := SaveModel(map[], "temp", m1);
    TwoTrainingsVersions(m1, m2);
    SaveThenLatest(o1.store, "temp", m2);
  }

  /** After both trainings, v1 still loads the first model. */
  lemma TwoTrainingsKeepFirst(m1: Model, m2: Model)
    ensures var o1 := SaveModel(map[], "temp", m1);
      var o2 := SaveModel(o1.store, "temp", m2);
      LoadModel(o2.store, "temp", "v1") == Ok(Some(m1))
  {
    var o1 := SaveModel(map[], "temp", m1);
    TwoTrainingsVersions(m1, m2);
    SaveThenLoad(map[], "temp", m1);
    assert CounterValue(o1.store, "temp") == 1;
    assert VersionName(1) == "v1";
    SaveKeepsEarlierArtifacts(o1.store, "temp", m2, 1);
  }

  /** A series that was never trained answers 404 on the latest branch. */
  lemma UntrainedSeriesNotFound(m1: Model, m2: Model)
    ensures var o1 := SaveModel(map[], "temp", m1);
      var o2 := SaveModel(o1.store, "temp", m2);
      Predict(o2.store, "never_trained", None, true) == NotFound
  {
    var o1 := SaveModel(map[], "temp", m1);
    var o2 := SaveModel(o1.store, "temp", m2);
    SaveKeepsOtherSeries(map[], "temp", m1, "never_trained", LatestSuffix);
    SaveKeepsOtherSeries(o1.store, "temp", m2, "never_trained", LatestSuffix);
    NeverTrainedIsNotFound(o2.store, "never_trained", true);
  }
}
