/**
 * The model/version resolution step of POST /predict/{series_id}: with no
 * `version` query the latest pointer is followed; otherwise the client's
 * string is used as the version, unchecked. A missing model is a 404, decided
 * before the timestamp is parsed.
 */
module Prediction {
  import opened Outcome
  import opened Decimal
  import opened Keys
  import opened Redis
  import opened ModelStore
  import opened StoreInvariant
  import opened SaveProperties

  /**
   * How the request ends: 404, 400 for a timestamp `int()` rejects, 500 for
   * an exception from the store or the decoder, or a model ready to score
   * together with the version the response reports.
   */
  datatype Response =
    | NotFound
    | BadTimestamp
    | ServerError(failure: Failure)
    | Scoring(model: Model, modelVersion: Option<string>)

  /** The (model, model_version) pair the route resolves. */
  function Resolve(st: Store, s: string, version: Option<string>): (r: Result<Latest, Failure>)
    ensures version.None? ==> r == LatestModel(st, s)
    ensures version.Some? ==>
      match LoadModel(st, s, version.value)
      case Ok(mo) => r == Ok(Latest(mo, version))
      case Err(e) => r == Err(e)
    ensures r.Ok? && r.value.model.Some? ==> r.value.version.Some?
  {
    match version
    case None => LatestModel(st, s)
    case Some(v) =>
      match LoadModel(st, s, v)
      case Err(e) => Err(e)
      case Ok(mo) => Ok(Latest(mo, Some(v)))
  }

  /**
   * The route up to scoring; `timestampParses` stands for whether
   * `int(point.timestamp)` succeeds.
   */
  function Predict(st: Store, s: string, version: Option<string>, timestampParses: bool): (r: Response)
    ensures r == NotFound <==> Resolve(st, s, version).Ok? && Resolve(st, s, version).value.model.None?
    ensures r.ServerError? <==> Resolve(st, s, version).Err?
    ensures r == BadTimestamp <==> !timestampParses && Resolve(st, s, version).Ok? && Resolve(st, s, version).value.model.Some?
    ensures r.Scoring? ==> r.modelVersion.Some?
    ensures r.Scoring? <==> timestampParses && Resolve(st, s, version).Ok? && Resolve(st, s, version).value.model.Some?
    ensures r.Scoring? ==> Resolve(st, s, version) == Ok(Latest(Some(r.model), r.modelVersion))
    ensures r.Scoring? && version.Some? ==> r.modelVersion == version
  {
    match Resolve(st, s, version)
    case Err(e) => ServerError(e)
    case Ok(Latest(None, _)) => NotFound
    case Ok(Latest(Some(m), mv)) => if timestampParses then Scoring(m, mv) else BadTimestamp
  }

  /** After a save, both the latest branch and the explicit returned version serve the saved model under that version. */
  lemma SavedModelIsServed(st: Store, s: string, m: Model)
    requires SaveModel(st, s, m).result.Ok?
    ensures var o := SaveModel(st, s, m);
      var v := o.result.value;
      && Predict(o.store, s, None, true) == Scoring(m, Some(v))
      && Predict(o.store, s, Some(v), true) == Scoring(m, Some(v))
  {
    SaveThenLatest(st, s, m);
    SaveThenLoad(st, s, m);
  }

  /** A series never trained, or whose pointer is unset, answers 404 on the latest branch whatever the timestamp. */
  lemma NeverTrainedIsNotFound(st: Store, s: string, parses: bool)
    requires LatestKey(s) !in st
    ensures Predict(st, s, None, parses) == NotFound
  {
  }

  /** Under the invariant the latest branch never fails with a server error. */
  lemma WfLatestBranchNeverFails(st: Store, s: string, parses: bool)
    requires Wf(st)
    ensures !Predict(st, s, None, parses).ServerError?
    ensures Predict(st, s, None, parses) == NotFound <==> LatestKey(s) !in st
  {
    WfLatestResolves(st, s);
  }

  /**
   * The version string is not validated: after a save, `version=latest`
   * reads the pointer's text as if it were a pickled model and fails, and
   * `version=versions` issues GET on a list.
   */
  lemma MetadataVersionStringsFail(st: Store, s: string, m: Model, parses: bool)
    requires SaveModel(st, s, m).result.Ok?
    ensures var st' := SaveModel(st, s, m).store;
      && Predict(st', s, Some(LatestSuffix), parses) == ServerError(Undecodable)
      && Predict(st', s, Some(IndexSuffix), parses) == ServerError(WrongType)
      && Predict(st', s, Some(CounterSuffix), parses) == ServerError(Undecodable)
  {
    var o := SaveModel(st, s, m);
    assert o.store[LatestKey(s)] == Text(o.result.value);
    assert o.store[IndexKey(s)].List?;
  }

  /** A version string with a colon resolves against another series: "x:y" on s reads version y of s + ":" + x. */
  lemma ColonVersionReadsOtherSeries(st: Store, s: string, x: string, y: string, parses: bool)
    ensures LoadModel(st, s, x + ":" + y) == LoadModel(st, s + ":" + x, y)
    ensures Predict(st, s + ":" + x, Some(y), parses).Scoring? ==>
      Predict(st, s, Some(x + ":" + y), parses).Scoring?
      && Predict(st, s, Some(x + ":" + y), parses).model == Predict(st, s + ":" + x, Some(y), parses).model
  {
    ColonVersionAliasesSeries(s, x, y);
  }
}
