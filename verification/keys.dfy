/**
 * The flat key layout of the model store: every key of a series is
 * `model:{series}:{suffix}`, and a version is `"v"` followed by the decimal
 * counter value.
 */
module Keys {
  import opened Outcome
  import opened Decimal

  const Prefix: string := "model:"
  const CounterSuffix: string := "version_counter"
  const LatestSuffix: string := "latest"
  const IndexSuffix: string := "versions"

  function Key(series: string, suffix: string): string {
    Prefix + series + ":" + suffix
  }

  function CounterKey(series: string): string { Key(series, CounterSuffix) }
  function LatestKey(series: string): string { Key(series, LatestSuffix) }
  function IndexKey(series: string): string { Key(series, IndexSuffix) }

  /** The artifact key of a version string; the string is not validated, so any suffix is possible. */
  function ArtifactKey(series: string, version: string): string { Key(series, version) }

  /** The version string `f"v{n}"`. */
  function VersionName(n: int): (v: string)
    ensures |v| >= 2 && v[0] == 'v'
    ensures ':' !in v
  {
    var r := Render(n);
    assert forall i :: 1 <= i < |r| ==> r[i] != ':' by {
      forall i | 1 <= i < |r| ensures r[i] != ':' {
        if n < 0 { assert r[i] == r[1..][i - 1]; }
      }
    }
    "v" + r
  }

  /** Reads back the counter value of a canonical version string "v<digits>". */
  function VersionNumber(v: string): Option<nat> {
    if |v| >= 2 && v[0] == 'v' && Canonical(v[1..]) then Some(ParseDigits(v[1..])) else None
  }

  /** Version strings round-trip through their number. */
  lemma VersionNumberOfName(n: nat)
    ensures VersionNumber(VersionName(n)) == Some(n)
  {
    assert VersionName(n)[1..] == Digits(n);
    ParseOfDigits(n);
  }

  /** Every string that reads as a version is the name of that version. */
  lemma VersionNameOfNumber(v: string)
    requires VersionNumber(v).Some?
    ensures VersionName(VersionNumber(v).value) == v
  {
    DigitsOfParse(v[1..]);
    assert v == "v" + v[1..];
  }

  /**
   * A negative counter value, which only a counter written by something other
   * than INCR-from-unset can hold, still renders as "v-" and its digits, and
   * such a string does not read as a version.
   */
  lemma VersionNameOfNegative(n: int)
    requires n < 0
    ensures VersionNumber(VersionName(n)) == None
    ensures |VersionName(n)| >= 3 && VersionName(n)[1] == '-'
    ensures AllDigits(VersionName(n)[2..]) && ParseDigits(VersionName(n)[2..]) == -n
  {
    RenderValue(n);
    assert VersionName(n)[2..] == Render(n)[1..];
  }

  /** Distinct counter values give distinct version strings. */
  lemma VersionNameInjective(a: nat, b: nat)
    ensures VersionName(a) == VersionName(b) <==> a == b
  {
    VersionNumberOfName(a);
    VersionNumberOfName(b);
  }

  /** A version string has no colon and is none of the metadata suffixes. */
  lemma VersionIsPlainSuffix(v: string)
    requires VersionNumber(v).Some?
    ensures ':' !in v
    ensures v != CounterSuffix && v != LatestSuffix && v != IndexSuffix
  {
    VersionNameOfNumber(v);
    assert IsDigit(v[1]) by { assert v[1] == v[1..][0]; }
  }

  /** The colon after the series is the last colon of a key whose suffix has none. */
  lemma LastColon(s: string, x: string)
    requires ':' !in x
    ensures Key(s, x)[|Prefix| + |s|] == ':'
    ensures forall j :: |Prefix| + |s| < j < |Key(s, x)| ==> Key(s, x)[j] != ':'
  {
    var k := Key(s, x);
    forall j | |Prefix| + |s| < j < |k| ensures k[j] != ':' {
      assert k[j] == x[j - |Prefix| - |s| - 1];
    }
  }

  /**
   * The key layout is injective on colon-free suffixes: the last colon of a
   * key sits right after the series, so the series and the suffix can both be
   * read back.
   */
  lemma KeyInjective(s: string, t: string, x: string, y: string)
    requires ':' !in x && ':' !in y
    ensures Key(s, x) == Key(t, y) <==> s == t && x == y
  {
    if Key(s, x) == Key(t, y) {
      var k := Key(s, x);
      assert k == Prefix + s + ":" + x;
      assert k == Prefix + t + ":" + y;
      LastColon(s, x);
      LastColon(t, y);
      assert |s| == |t| by {
        assert k[|Prefix| + |s|] == ':' && k[|Prefix| + |t|] == ':';
      }
      assert s == k[|Prefix|..|Prefix| + |s|];
      assert t == k[|Prefix|..|Prefix| + |t|];
      assert x == k[|Prefix| + |s| + 1..];
      assert y == k[|Prefix| + |t| + 1..];
    }
  }

  /** The three metadata keys and the artifact keys of versions are pairwise distinct, across all series. */
  lemma KeyKindsDistinct(s: string, t: string, v: string)
    requires VersionNumber(v).Some?
    ensures ArtifactKey(s, v) != CounterKey(t)
    ensures ArtifactKey(s, v) != LatestKey(t)
    ensures ArtifactKey(s, v) != IndexKey(t)
    ensures CounterKey(s) != LatestKey(t) && CounterKey(s) != IndexKey(t) && LatestKey(s) != IndexKey(t)
  {
    VersionIsPlainSuffix(v);
    KeyInjective(s, t, v, CounterSuffix);
    KeyInjective(s, t, v, LatestSuffix);
    KeyInjective(s, t, v, IndexSuffix);
    KeyInjective(s, t, CounterSuffix, LatestSuffix);
    KeyInjective(s, t, CounterSuffix, IndexSuffix);
    KeyInjective(s, t, LatestSuffix, IndexSuffix);
  }

  /**
   * An unvalidated version string containing a colon addresses another
   * series: reading version x + ":" + y of s reads version y of s + ":" + x.
   */
  lemma ColonVersionAliasesSeries(s: string, x: string, y: string)
    ensures ArtifactKey(s, x + ":" + y) == ArtifactKey(s + ":" + x, y)
    ensures s + ":" + x != s
  {
    assert Key(s, x + ":" + y) == Key(s + ":" + x, y);
  }
}
