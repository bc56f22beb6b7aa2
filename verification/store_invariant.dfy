/**
 * The invariant every sequence of saves keeps, per series: the counter is a
 * non-negative integer, no artifact key above it is occupied, and the latest
 * pointer and every listed version name an issued version whose blob is
 * stored.
 */
module StoreInvariant {
  import opened Outcome
  import opened Keys
  import opened Redis
  import opened ModelStore

  /** v is "v" + k for some 1 <= k <= the series' counter, and its blob is stored. */
  predicate Published(st: Store, s: string, v: string) {
    match VersionNumber(v)
    case None => false
    case Some(k) => 1 <= k <= CounterValue(st, s) && ArtifactKey(s, v) in st && st[ArtifactKey(s, v)].Blob?
  }

  /** The counter, when set, is a non-negative integer. */
  predicate CounterIsNatural(st: Store, s: string) {
    CounterKey(s) in st ==> st[CounterKey(s)].Int? && st[CounterKey(s)].n >= 0
  }

  /** No artifact key of a version above the counter is occupied yet. */
  ghost predicate FreshAboveCounter(st: Store, s: string) {
    forall k: nat :: k > CounterValue(st, s) ==> ArtifactKey(s, VersionName(k)) !in st
  }

  /** The latest pointer, when set, names a published version. */
  predicate LatestPublished(st: Store, s: string) {
    LatestKey(s) in st ==> st[LatestKey(s)].Text? && Published(st, s, st[LatestKey(s)].text)
  }

  /** The version list, when set, is a list of published versions. */
  predicate IndexPublished(st: Store, s: string) {
    IndexKey(s) in st ==>
      && st[IndexKey(s)].List?
      && forall i :: 0 <= i < |st[IndexKey(s)].items| ==> Published(st, s, st[IndexKey(s)].items[i])
  }

  ghost predicate SeriesWf(st: Store, s: string) {
    CounterIsNatural(st, s) && FreshAboveCounter(st, s) && LatestPublished(st, s) && IndexPublished(st, s)
  }

  ghost predicate Wf(st: Store) {
    forall s :: SeriesWf(st, s)
  }

  /** The empty store, before any training, satisfies the invariant. */
  lemma EmptyStoreWf()
    ensures Wf(map[])
  {
  }

  /** A series' invariant reads only that series' keys with colon-free suffixes. */
  lemma SeriesWfFrame(st: Store, st': Store, t: string)
    requires SeriesWf(st, t)
    requires forall x :: ':' !in x ==> Lookup(st', Key(t, x)) == Lookup(st, Key(t, x))
    ensures SeriesWf(st', t)
  {
    assert Lookup(st', CounterKey(t)) == Lookup(st, CounterKey(t));
    assert Lookup(st', LatestKey(t)) == Lookup(st, LatestKey(t));
    assert Lookup(st', IndexKey(t)) == Lookup(st, IndexKey(t));
    assert CounterValue(st', t) == CounterValue(st, t);
    forall v | Published(st, t, v) ensures Published(st', t, v) {
      VersionIsPlainSuffix(v);
      assert Lookup(st', Key(t, v)) == Lookup(st, Key(t, v));
    }
    forall k: nat | k > CounterValue(st', t) ensures ArtifactKey(t, VersionName(k)) !in st' {
      assert Lookup(st', Key(t, VersionName(k))) == Lookup(st, Key(t, VersionName(k)));
    }
  }

  /** A save on series s leaves every colon-free key of every other series as it was. */
  lemma SaveKeepsOtherSeries(st: Store, s: string, m: Model, t: string, x: string)
    requires t != s && ':' !in x
    ensures Lookup(SaveModel(st, s, m).store, Key(t, x)) == Lookup(st, Key(t, x))
  {
    var v := VersionName(CounterValue(st, s) + 1);
    KeyInjective(t, s, x, CounterSuffix);
    KeyInjective(t, s, x, v);
    KeyInjective(t, s, x, LatestSuffix);
    KeyInjective(t, s, x, IndexSuffix);
    assert Key(t, x) !in Touched(s, CounterValue(st, s) + 1);
  }

  /** The artifact key of any other version number is none of the keys a save drawing n writes. */
  lemma OtherArtifactNotTouched(s: string, k: nat, n: nat)
    requires k != n
    ensures ArtifactKey(s, VersionName(k)) !in Touched(s, n)
  {
    VersionNumberOfName(k);
    VersionNameInjective(k, n);
    KeyInjective(s, s, VersionName(k), VersionName(n));
    KeyKindsDistinct(s, s, VersionName(k));
  }

  /** A save never rewrites the blob of a version issued earlier to the same series. */
  lemma SaveKeepsEarlierArtifacts(st: Store, s: string, m: Model, k: nat)
    requires 1 <= k <= CounterValue(st, s)
    ensures Lookup(SaveModel(st, s, m).store, ArtifactKey(s, VersionName(k))) == Lookup(st, ArtifactKey(s, VersionName(k)))
  {
    OtherArtifactNotTouched(s, k, CounterValue(st, s) + 1);
  }

  /** A successful counter step keeps every artifact above the new counter unoccupied. */
  lemma SaveKeepsFreshAboveCounter(st: Store, s: string, m: Model)
    requires CanIncrement(st, s) && CounterValue(st, s) >= 0
    requires FreshAboveCounter(st, s)
    ensures FreshAboveCounter(SaveModel(st, s, m).store, s)
  {
    var st' := SaveModel(st, s, m).store;
    var c := CounterValue(st, s);
    var v := VersionName(c + 1);
    assert CounterValue(st', s) == c + 1;
    forall k: nat | k > c + 1 ensures ArtifactKey(s, VersionName(k)) !in st' {
      OtherArtifactNotTouched(s, k, c + 1);
      assert Lookup(st', ArtifactKey(s, VersionName(k))) == Lookup(st, ArtifactKey(s, VersionName(k)));
    }
  }

  /** A version published before a successful counter step stays published. */
  lemma SaveKeepsPublished(st: Store, s: string, m: Model, u: string)
    requires CanIncrement(st, s) && CounterValue(st, s) >= 0
    requires Published(st, s, u)
    ensures Published(SaveModel(st, s, m).store, s, u)
  {
    var st' := SaveModel(st, s, m).store;
    var c := CounterValue(st, s);
    var v := VersionName(c + 1);
    assert CounterValue(st', s) == c + 1;
    KeyKindsDistinct(s, s, u);
    if ArtifactKey(s, u) != ArtifactKey(s, v) {
      assert ArtifactKey(s, u) !in Touched(s, c + 1);
      assert Lookup(st', ArtifactKey(s, u)) == Lookup(st, ArtifactKey(s, u));
    }
  }

  /** The saved series keeps its invariant. */
  lemma SaveKeepsSeriesWf(st: Store, s: string, m: Model)
    requires SeriesWf(st, s)
    ensures SeriesWf(SaveModel(st, s, m).store, s)
  {
    var o := SaveModel(st, s, m);
    if CanIncrement(st, s) {
      var st' := o.store;
      var c := CounterValue(st, s);
      var v := VersionName(c + 1);
      SaveKeepsFreshAboveCounter(st, s, m);
      VersionNumberOfName(c + 1);
      KeyKindsDistinct(s, s, v);
      assert CounterValue(st', s) == c + 1;
      assert Published(st', s, v);
      var old_items := IndexOf(st, s);
      var items := old_items + [v];
      assert st'[IndexKey(s)] == List(items);
      forall i | 0 <= i < |items| ensures Published(st', s, items[i]) {
        if i < |old_items| {
          assert Published(st, s, old_items[i]);
          SaveKeepsPublished(st, s, m, old_items[i]);
        }
      }
    }
  }

  /**
   * save_model on a well-formed store: it keeps the invariant, fails only on
   * counter overflow (and then changes nothing), writes its blob to a key no
   * earlier save occupied, and moves only its own series' counter, by one.
   */
  lemma SavePreservesWf(st: Store, s: string, m: Model)
    requires Wf(st)
    ensures var o := SaveModel(st, s, m);
      && Wf(o.store)
      && (o.result.Err? ==> o.result.error == IncrOverflow && o.store == st)
      && (o.result.Ok? ==>
            && VersionNumber(o.result.value) == Some(CounterValue(st, s) + 1)
            && ArtifactKey(s, o.result.value) !in st
            && CounterValue(o.store, s) == CounterValue(st, s) + 1)
      && (forall t :: t != s ==> CounterValue(o.store, t) == CounterValue(st, t))
  {
    var o := SaveModel(st, s, m);
    assert SeriesWf(st, s);
    forall t ensures SeriesWf(o.store, t) {
      if t == s {
        SaveKeepsSeriesWf(st, s, m);
      } else {
        assert SeriesWf(st, t);
        forall x | ':' !in x ensures Lookup(o.store, Key(t, x)) == Lookup(st, Key(t, x)) {
          SaveKeepsOtherSeries(st, s, m, t, x);
        }
        SeriesWfFrame(st, o.store, t);
      }
    }
    if o.result.Ok? {
      VersionNumberOfName(CounterValue(st, s) + 1);
    }
    forall t | t != s ensures CounterValue(o.store, t) == CounterValue(st, t) {
      SaveKeepsOtherSeries(st, s, m, t, CounterSuffix);
    }
  }
}
