# Model-versioning store, modelled in Dafny

This project models the model-versioning store of an anomaly-detection service, together with the step of the prediction route that resolves a model.
The store keeps one trained model per version of a series in a shared Redis instance.
The route picks either the latest version or the version the client names.

The store lives in one flat key-value map, with four keys per series:

- `model:{series}:version_counter` holds an integer that INCR advances.
- `model:{series}:v{n}` holds one serialized model per version.
- `model:{series}:latest` holds the latest pointer, a version string.
- `model:{series}:versions` holds the list of version strings, pushed in order.

The model is purely functional.
The store is a `map<string, Value>`, and each value is tagged as `Int`, `Blob`, `Text` or `List`.
Each Redis command (GET, SET, INCR, RPUSH, LRANGE) is one atomic step that returns a new map, or an `Err` for the exception it raises.
`save_model` is the same sequence of four commands as the code, and none of them is transactional.
If RPUSH fails, the counter, the blob and the pointer writes made before it stay in place.
Keys are built by real string concatenation.
So the version string a client sends is used exactly as the code uses it:

- `version=latest` reads the pointer key.
- `version=versions` issues GET on a list.
- `version=x:v1` reads version `v1` of series `{series}:x`.

Modules, one file each:

- `Outcome`: Option and Result.
- `Decimal`: Python's rendering of integers, and its inverse.
- `Keys`: the key layout and version strings.
- `Redis`: the store and its commands.
- `ModelStore`: `save_model`, `load_model`, `latest_model` and `list_versions`.
- `StoreInvariant`: the invariant saves keep.
- `SaveProperties`: what one save promises to readers.
- `SaveTrace`: runs of many saves.
- `Prediction`: the resolution branch of `POST /predict/{series_id}`.
- `Scenario`: a worked example.

Three behaviours of the code are weaker than a reader might assume, and the model keeps them as written:

- The blob write is a plain SET that overwrites, and nothing guards against a second write to the same key. From a well-formed store, the key a save writes is unoccupied (`StoreInvariant.SavePreservesWf`).
- The latest pointer is a plain SET, not a compare-and-set. Saves run one after another here. Per series, every save returns a higher version than all earlier ones (`SaveTrace.SaveAllIncreasing`), and the latest key ends at the last version a run returned for that series (`SaveTrace.SaveAllLatest`). So latest_model serves the newest version (`SaveTrace.LatestAfterSaves`).
- `version=latest` is not a keyword. The route builds the key from the raw string, so `latest` reads the pointer key and fails to decode (`Prediction.MetadataVersionStringsFail`).

## Model

| member | source | states |
|---|---|---|
| Decimal.Digits | app/storage/redis_storage.py:11 | The counter is rendered as a canonical decimal numeral: non-empty, digits only, with a leading `0` exactly when the value is 0 |
| Decimal.RenderValue | app/storage/redis_storage.py:11 | `f"{n}"` of any integer reads back as its value: the digits of n when n >= 0, otherwise `-` followed by the canonical digits of -n |
| Decimal.ParseOfDigits | app/storage/redis_storage.py:11 | Reading the rendered counter value back as a number gives the value |
| Decimal.DigitsOfParse | app/storage/redis_storage.py:11 | Every canonical numeral is the rendering of the number it reads as (the converse round trip) |
| Decimal.DigitsInjective | app/storage/redis_storage.py:11 | Distinct counter values render differently |
| Keys.VersionName | app/storage/redis_storage.py:11-12 | A version string starts with `v`, is at least two characters long and contains no colon, so it is a single key segment |
| Keys.VersionNameOfNegative | app/storage/redis_storage.py:11 | A negative counter value renders as `v-` followed by the digits of its magnitude, and such a string does not read as a version |
| Keys.VersionNumberOfName | app/storage/redis_storage.py:11 | `"v"+n` reads back as version number n |
| Keys.VersionNameOfNumber | app/storage/redis_storage.py:11 | Every string that reads as a version number k is exactly `"v"+k` |
| Keys.VersionNameInjective | app/storage/redis_storage.py:10-11 | Two counter values give the same version string if and only if they are equal |
| Keys.VersionIsPlainSuffix | app/storage/redis_storage.py:11-12 | A version string has no colon and is none of `version_counter`, `latest` or `versions` |
| Keys.LastColon | app/storage/redis_storage.py:12 | In a key whose suffix has no colon, the colon after the series is the last colon |
| Keys.KeyInjective | app/storage/redis_storage.py:10-20 | Keys with colon-free suffixes are equal if and only if the series and the suffix are both equal |
| Keys.KeyKindsDistinct | app/storage/redis_storage.py:10-20 | An artifact key is never the counter, pointer or list key of any series, and the three metadata keys are pairwise distinct |
| Keys.ColonVersionAliasesSeries | app/storage/redis_storage.py:24 | Version `x:y` of series s has the same key as version `y` of series `s:x`, which is a different series when x has no colon |
| Redis.Get | app/storage/redis_storage.py:25 | GET raises WRONGTYPE exactly on a list and otherwise returns what the key holds, None when unset |
| Redis.DecodeText | app/storage/redis_storage.py:35 | `decode("utf-8")` of what GET returned: a string is itself, and an integer gives `str(n)`: its canonical decimal digits, preceded by `-` when it is negative. A pickled model is undecodable, and a list raises WRONGTYPE |
| Redis.Set | app/storage/redis_storage.py:18-19 | SET puts the value at the key whatever was there, and no other key changes |
| Redis.Incr | app/storage/redis_storage.py:10 | INCR succeeds exactly when the key is unset or holds an integer below 2^63-1. It returns the old value plus one, counting from 0, and stores it. At 2^63-1 it raises the overflow error, on a list WRONGTYPE, and on a blob or string not-an-integer |
| Redis.RPush | app/storage/redis_storage.py:20 | RPUSH succeeds exactly when the key is unset or a list, otherwise raises WRONGTYPE, and stores the old list with the element appended |
| Redis.LRangeAll | app/storage/redis_storage.py:39 | LRANGE 0 -1 succeeds exactly when the key is unset or a list, otherwise raises WRONGTYPE, and returns the whole list, empty when unset |
| ModelStore.SaveModel | app/storage/redis_storage.py:9-21 | A save succeeds exactly when the counter can be incremented and the list key holds a list. If INCR fails, nothing changes. Otherwise the counter becomes old+1, the blob is stored under `"v"+(old+1)`, and the latest key holds that version. On success the returned version is that version, and the list is the old list with it appended. Every key outside these four is unchanged |
| ModelStore.KeyKindsDistinctForName | app/storage/redis_storage.py:10-20 | The four keys a save writes are pairwise distinct, for any drawn counter value, even a negative one |
| ModelStore.LoadModel | app/storage/redis_storage.py:23-29 | An unset key gives None. The result is a model exactly when the key holds a blob, and then it is that blob. The load raises exactly when the key holds a non-empty value that is not a blob |
| ModelStore.LatestModel | app/storage/redis_storage.py:31-36 | An unset or empty pointer gives (None, None). A non-empty pointer text v gives (load_model(s, v), v), or load_model's exception. An integer pointer is followed through its decimal digits in the same way. A blob pointer fails to decode, and a list pointer raises WRONGTYPE. A model is never returned without a version |
| ModelStore.ListVersions | app/storage/redis_storage.py:38-40 | The call succeeds exactly when the list key is unset or a list. It returns the list in push order, empty for a series that was never saved |
| StoreInvariant.EmptyStoreWf | app/storage/redis_storage.py:7 | The empty store satisfies the per-series invariant |
| StoreInvariant.SeriesWfFrame | app/storage/redis_storage.py:10-20 | A series' invariant depends only on that series' keys with colon-free suffixes |
| StoreInvariant.SaveKeepsOtherSeries | app/storage/redis_storage.py:9-21 | A save on series s leaves every colon-free key of every other series unchanged |
| StoreInvariant.OtherArtifactNotTouched | app/storage/redis_storage.py:10-20 | The artifact key of a version number other than the one a save draws is none of the four keys that save writes |
| StoreInvariant.SaveKeepsEarlierArtifacts | app/storage/redis_storage.py:12-18 | A save never rewrites the blob of a version at or below the old counter of its own series |
| StoreInvariant.SaveKeepsFreshAboveCounter | app/storage/redis_storage.py:10-18 | After a save, no artifact key above the new counter is occupied |
| StoreInvariant.SaveKeepsPublished | app/storage/redis_storage.py:10-18 | A version that was issued with a stored blob stays so after a save |
| StoreInvariant.SaveKeepsSeriesWf | app/storage/redis_storage.py:10-20 | A save keeps its own series' invariant: the counter is a natural number, nothing is stored above it, and the pointer and every listed version name issued versions with stored blobs |
| StoreInvariant.SavePreservesWf | app/storage/redis_storage.py:9-21 | From a well-formed store, a save keeps the invariant for every series. It fails only on counter overflow, and then changes nothing. On success it returns version old+1, writes its blob to a key that was unoccupied, and advances only its own counter, by one |
| SaveProperties.FirstSaveIsV1 | app/storage/redis_storage.py:10-11 | The first save on a series with no counter returns `"v1"` |
| SaveProperties.SaveThenLoad | app/storage/redis_storage.py:12-29 | Round trip: after save_model returns v, load_model(s, v) returns the saved model |
| SaveProperties.SaveThenLatest | app/storage/redis_storage.py:19-36 | After a save, latest_model returns the saved model with the returned version, whatever the pointer held before |
| SaveProperties.SaveThenList | app/storage/redis_storage.py:20-40 | After a save, list_versions returns the old list with the returned version appended |
| SaveProperties.SuccessiveSavesIncrease | app/storage/redis_storage.py:10-11 | Two successive successful saves on one series return strictly increasing version numbers, so the two strings differ |
| SaveProperties.WfLatestResolves | app/storage/redis_storage.py:31-36 | On a well-formed store, latest_model never raises. It returns a model exactly when it returns a version, and (None, None) exactly when the pointer is unset |
| SaveProperties.WfListedVersionsLoad | app/storage/redis_storage.py:20-29 | On a well-formed store, every version list_versions returns loads a model |
| SaveProperties.SaveLeavesOtherSeries | app/storage/redis_storage.py:9-21 | From a well-formed store, a save on s leaves unchanged everything a reader of another series t sees: load_model of any colon-free version, list_versions and latest_model |
| SaveTrace.SaveAll | app/storage/redis_storage.py:9-21 | A run of saves returns one result per save |
| SaveTrace.SaveAllVersions | app/storage/redis_storage.py:10-11 | Over any interleaving of saves from a well-formed store, each save fails only on overflow or returns a version above its series' starting counter and at most its final counter. No counter ever goes down |
| SaveTrace.SaveAllIncreasing | app/storage/redis_storage.py:10-11 | Over any interleaving of saves from a well-formed store, the versions returned to one series strictly increase, so none is returned twice |
| SaveTrace.SaveStepIndex | app/storage/redis_storage.py:20 | One save appends to series s's list exactly the version it returned, and only when it saved s successfully |
| SaveTrace.SaveAllIndex | app/storage/redis_storage.py:20 | After a run of saves, each series' list is its old list followed by the versions the run returned for that series, in order |
| SaveTrace.ListVersionsAfterSaves | app/storage/redis_storage.py:38-40 | From the empty store, list_versions returns exactly the versions the run's saves of that series returned, in order, with no repeats |
| SaveTrace.SaveStepLatest | app/storage/redis_storage.py:10-20 | On a well-formed store, one save points the series' latest key at the version it returned when it succeeds; otherwise, or for any other series, the latest key is unchanged |
| SaveTrace.SaveAllLatest | app/storage/redis_storage.py:19 | After a run of saves from a well-formed store, each series' latest key holds the last version the run returned for it, and is unchanged when the run returned none |
| SaveTrace.LatestAfterSaves | app/storage/redis_storage.py:31-36 | From the empty store, latest_model of a series that a run saved serves a model, reported under the last version the run returned for that series |
| Prediction.Resolve | app/api/routes/prediction.py:15-19 | With no `version` the route uses latest_model. With a version it calls load_model with exactly that string and reports the string unchanged. A model is never resolved without a version |
| Prediction.Predict | app/api/routes/prediction.py:15-28 | The request is 404 exactly when resolution yields no model, whatever the timestamp. It is 500 exactly when resolution raises, and 400 only once a model was found. A request reaches scoring exactly when a model was resolved and the timestamp parses. It then scores the resolved model and reports the resolved version: the pointer's on the latest branch, the requested one otherwise, and never none |
| Prediction.SavedModelIsServed | app/api/routes/prediction.py:15-19 | After a save, both the latest branch and an explicit request for the returned version serve the saved model under that version |
| Prediction.NeverTrainedIsNotFound | app/api/routes/prediction.py:21-22 | With no pointer set, the latest branch is 404, whatever the timestamp |
| Prediction.WfLatestBranchNeverFails | app/api/routes/prediction.py:15-22 | On a well-formed store the latest branch never gives 500. It is 404 exactly when the pointer is unset |
| Prediction.MetadataVersionStringsFail | app/api/routes/prediction.py:17-18 | After a save, `version=latest` and `version=version_counter` fail to decode, and `version=versions` raises WRONGTYPE |
| Prediction.ColonVersionReadsOtherSeries | app/api/routes/prediction.py:18 | Version `x:y` on series s loads what version `y` of series `s:x` holds, and the route serves that model |
| Scenario.TwoTrainingsVersions | app/storage/redis_storage.py:9-21 | From an empty store, two saves of `temp` return `v1` then `v2`, and the list is `["v1", "v2"]` |
| Scenario.TwoTrainingsLatest | app/storage/redis_storage.py:31-36 | After those saves, latest_model returns the second model with `v2` |
| Scenario.TwoTrainingsKeepFirst | app/storage/redis_storage.py:23-29 | After those saves, load_model of `v1` still returns the first model |
| Scenario.UntrainedSeriesNotFound | app/api/routes/prediction.py:15-22 | After those saves, the series `never_trained` is still 404 on the latest branch |

## Left out

- joblib serialization (`app/storage/redis_storage.py:14-16, 28-29`) is a foreign library, so the codec is the identity and a `Blob` holds the model itself. Loading a stored integer or string raises `Undecodable` in place of pickle's own exception. A blob is never the empty byte string.
- The Redis client and its connection (`app/storage/redis_storage.py:7`) are not modelled. A connection failure is not modelled either; the map is always reachable.
- Bytes and their UTF-8 decoding become plain strings. A pickled blob under the pointer key fails to decode (`Undecodable`), since pickle output does not start with a valid UTF-8 byte.
- Redis.Incr: a plain string value that spells an integer is rejected as `NotAnInteger`, while Redis would increment it. The store never writes such a value to a counter key.
- Concurrency is not modelled. Saves run one after another, so interleavings of the four commands of concurrent saves, and the pointer moving backwards under them, are not covered.
- The numbers inside the model (numpy float mean and std) are carried as `real` and never computed on. Fitting and the threshold test `value > mean + 3*std` (`app/models/anomaly_model.py`) are left out, so the route stops at `Scoring` with the resolved model.
- `int()` timestamp parsing (`app/api/routes/prediction.py:26`) becomes the boolean parameter `timestampParses`. The Prometheus counters and timing are left out.
- FastAPI request and response validation is left out.
- Also left out: Postgres persistence (`app/db/postgres.py`), MLflow logging and the pairing of timestamps with values in training, the health route's latency averaging, plotting, configuration, metrics declarations and application wiring. None of them reads or writes the model keys.
