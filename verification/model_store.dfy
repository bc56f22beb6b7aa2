/**
 * The model-versioning store: save_model, load_model, latest_model and
 * list_versions over the shared key-value map. Each Redis command is one
 * atomic step; save_model issues four of them in sequence with no
 * transaction, so a later command can fail after earlier ones took effect.
 */
module ModelStore {
  import opened Outcome
  import opened Decimal
  import opened Keys
  import opened Redis

  /** The store after a save, and the version it returned or the error it raised. */
  datatype Saved = Saved(store: Store, result: Result<string, Failure>)

  /** What latest_model returns: the model (None when absent) and the pointer's version. */
  datatype Latest = Latest(model: Option<Model>, version: Option<string>)

  /** The counter a series' next INCR starts from; an unset counter counts as 0. */
  function CounterValue(st: Store, s: string): int {
    var k := CounterKey(s);
    if k in st && st[k].Int? then st[k].n else 0
  }

  /** INCR on the series' counter key succeeds. */
  predicate CanIncrement(st: Store, s: string) {
    var k := CounterKey(s);
    k !in st || (st[k].Int? && st[k].n < MaxInt64)
  }

  /** The series' index key is unset or holds a list, so RPUSH and LRANGE succeed. */
  predicate IndexIsList(st: Store, s: string) {
    var k := IndexKey(s);
    k !in st || st[k].List?
  }

  /** The series' version list, empty when unset. */
  function IndexOf(st: Store, s: string): seq<string> {
    var k := IndexKey(s);
    if k in st && st[k].List? then st[k].items else []
  }

  /** The four keys a save that draws counter value n may write. */
  function Touched(s: string, n: int): set<string> {
    {CounterKey(s), ArtifactKey(s, VersionName(n)), LatestKey(s), IndexKey(s)}
  }

  /**
   * save_model: INCR the counter, name the version "v" + n, SET the blob,
   * SET the latest pointer, RPUSH the version onto the list.
   */
  function SaveModel(st: Store, s: string, m: Model): (o: Saved)
    ensures o.result.Ok? <==> CanIncrement(st, s) && IndexIsList(st, s)
    ensures !CanIncrement(st, s) ==> o.store == st
    ensures CanIncrement(st, s) ==>
      var n := CounterValue(st, s) + 1;
      var v := VersionName(n);
      && Lookup(o.store, CounterKey(s)) == Some(Int(n))
      && Lookup(o.store, ArtifactKey(s, v)) == Some(Blob(m))
      && Lookup(o.store, LatestKey(s)) == Some(Text(v))
      && (o.result.Ok? ==> o.result.value == v)
      && (IndexIsList(st, s) ==> Lookup(o.store, IndexKey(s)) == Some(List(IndexOf(st, s) + [v])))
      && (!IndexIsList(st, s) ==> Lookup(o.store, IndexKey(s)) == Lookup(st, IndexKey(s)))
    ensures forall k :: k !in Touched(s, CounterValue(st, s) + 1) ==> Lookup(o.store, k) == Lookup(st, k)
  {
    match Incr(st, CounterKey(s))
    case Err(e) => Saved(st, Err(e))
    case Ok((st1, n)) =>
      var version := VersionName(n);
      KeyKindsDistinctForName(s, n);
      var st2 := Set(st1, ArtifactKey(s, version), Blob(m));
      var st3 := Set(st2, LatestKey(s), Text(version));
      match RPush(st3, IndexKey(s), version)
      case Err(e) => Saved(st3, Err(e))
      case Ok(st4) => Saved(st4, Ok(version))
  }

  /** The artifact key of any drawn counter value, even a negative one, differs from the metadata keys. */
  lemma KeyKindsDistinctForName(s: string, n: int)
    ensures ArtifactKey(s, VersionName(n)) != CounterKey(s)
    ensures ArtifactKey(s, VersionName(n)) != LatestKey(s)
    ensures ArtifactKey(s, VersionName(n)) != IndexKey(s)
    ensures CounterKey(s) != LatestKey(s) && CounterKey(s) != IndexKey(s) && LatestKey(s) != IndexKey(s)
  {
    var v := VersionName(n);
    assert v[1] != CounterSuffix[1] && v[1] != IndexSuffix[1];
    assert v[0] != LatestSuffix[0];
    KeyInjective(s, s, v, CounterSuffix);
    KeyInjective(s, s, v, LatestSuffix);
    KeyInjective(s, s, v, IndexSuffix);
    KeyInjective(s, s, CounterSuffix, LatestSuffix);
    KeyInjective(s, s, CounterSuffix, IndexSuffix);
    KeyInjective(s, s, LatestSuffix, IndexSuffix);
  }

  /**
   * load_model: GET the key built from the unvalidated version string; an
   * unset or empty value gives None, anything but a pickled model raises.
   */
  function LoadModel(st: Store, s: string, version: string): (r: Result<Option<Model>, Failure>)
    ensures ArtifactKey(s, version) !in st ==> r == Ok(None)
    ensures (r.Ok? && r.value.Some?) <==> (ArtifactKey(s, version) in st && st[ArtifactKey(s, version)].Blob?)
    ensures r.Ok? && r.value.Some? ==> st[ArtifactKey(s, version)] == Blob(r.value.value)
    ensures r.Err? <==> (ArtifactKey(s, version) in st &&
                         var d := st[ArtifactKey(s, version)]; !d.Blob? && !IsEmptyBytes(d))
  {
    match Get(st, ArtifactKey(s, version))
    case Err(e) => Err(e)
    case Ok(None) => Ok(None)
    case Ok(Some(data)) =>
      if IsEmptyBytes(data) then Ok(None)
      else if data.Blob? then Ok(Some(data.model))
      else Err(Undecodable)
  }

  /**
   * latest_model: GET the pointer; unset or empty gives (None, None),
   * otherwise the decoded text is loaded as a version and reported with it.
   */
  function LatestModel(st: Store, s: string): (r: Result<Latest, Failure>)
    ensures LatestKey(s) !in st ==> r == Ok(Latest(None, None))
    ensures r.Ok? && r.value.model.Some? ==> r.value.version.Some?
    ensures LatestKey(s) in st && st[LatestKey(s)].Text? && st[LatestKey(s)].text != "" ==>
      var v := st[LatestKey(s)].text;
      match LoadModel(st, s, v)
      case Ok(mo) => r == Ok(Latest(mo, Some(v)))
      case Err(e) => r == Err(e)
    ensures LatestKey(s) in st && IsEmptyBytes(st[LatestKey(s)]) ==> r == Ok(Latest(None, None))
    ensures LatestKey(s) in st && st[LatestKey(s)].Int? ==>
      var v := Render(st[LatestKey(s)].n);
      match LoadModel(st, s, v)
      case Ok(mo) => r == Ok(Latest(mo, Some(v)))
      case Err(e) => r == Err(e)
    ensures LatestKey(s) in st && st[LatestKey(s)].Blob? ==> r == Err(Undecodable)
    ensures LatestKey(s) in st && st[LatestKey(s)].List? ==> r == Err(WrongType)
  {
    match Get(st, LatestKey(s))
    case Err(e) => Err(e)
    case Ok(None) => Ok(Latest(None, None))
    case Ok(Some(raw)) =>
      if IsEmptyBytes(raw) then Ok(Latest(None, None))
      else match DecodeText(raw)
        case Err(e) => Err(e)
        case Ok(version) =>
          match LoadModel(st, s, version)
          case Err(e) => Err(e)
          case Ok(mo) => Ok(Latest(mo, Some(version)))
  }

  /** list_versions: the whole version list, in push order; empty for a series never saved. */
  function ListVersions(st: Store, s: string): (r: Result<seq<string>, Failure>)
    ensures r.Ok? <==> IndexIsList(st, s)
    ensures r.Ok? ==> r.value == IndexOf(st, s)
    ensures IndexKey(s) !in st ==> r == Ok([])
  {
    LRangeAll(st, IndexKey(s))
  }
}
