# SmartSense air-quality decision logic in Dafny

SmartSense collects temperature, humidity, PM2.5, CO2, VOC and air-quality
readings from sensor devices. It shows them on a dashboard together with advice.
This project models the two parts of the repository that make decisions:

- **The dashboard's air-quality engine** (`frontend/app.js`), module `AirQuality`
  in `air_quality.dfy`:
  - the PM2.5 tier table and the first-match `getPm25Level`;
  - the gauge percentage computed by `updateGauge`;
  - `generateAdvice`, which starts an insertion-ordered set with the tier's
    advice. It then walks the `OTHER_THRESHOLDS` metrics in key order, sorts
    each metric's rules with the comparator
    `(b.min || Infinity) - (a.min || Infinity)`, and adds the advice of every
    rule that fires;
  - the guard in `updateUI` that skips all of this when `pm2_5` is missing.
- **The backend's latest-state store and rule chain** (`backend/src/routes.js`),
  module `TelemetryRoutes` in `telemetry_routes.dfy`:
  - the module-level `latestTelemetry` map, modelled as the class
    `TelemetryStore`. POST /telemetry replaces a device's entry wholesale and
    adds a server timestamp.
  - GET /recommendation/:deviceId answers "No telemetry data for this device
    yet" for an unknown device. Otherwise it returns the stored entry and the
    advice of six strict threshold checks, or "👍 Air conditions are good."
    when none fires.

`options.dfy` holds the `Option` type used for JavaScript's `undefined`.

Modelling choices:
- Numbers are Dafny `real`s, with no NaN and no rounding.
- A metric that is `undefined` in the frontend reading is a key missing from
  a `map<string, real>`.
- A body field that is missing in the backend is `None`.
- JavaScript's `Infinity` is the `Infinity` constructor of `AirQuality.Bound`.
- The two engines keep their own thresholds and field names
  (`pm2_5`/`co2`/`voc_index` against `airQuality`).
- The six `if`s of the recommendation handler (`backend/src/routes.js:31-36`)
  are the constant table `TelemetryRoutes.Checks`: field, direction, threshold
  and message, in handler order. `TelemetryRoutes.BuildAdvice` writes the six
  pushes out one by one with those constants and is proved equal to the
  table-driven `RecommendationsFor`.

Behaviour of the code that the model keeps as written:
- The comparator at `frontend/app.js:244` sorts a rule without `min`
  **before** the rules that have one. A `min` of `0` also counts as
  `Infinity`, because `0` is falsy.
- POST /telemetry stores a body under whatever `deviceId` it carries; no
  check rejects an empty one.
- The comment at `frontend/app.js:237` speaks of iterating "in reverse". The
  loop actually walks the keys in declaration order.

## Model

| member | source | states |
|---|---|---|
| `AirQuality.FirstTierFrom` | frontend/app.js:195-202 | the scan from a given tier returns the first tier whose bound admits the value, or the last tier when none does |
| `AirQuality.TierIndex` | frontend/app.js:195-202 | the selected tier is in range, no earlier tier admits the value, and the selected one admits it unless it is the fallback last tier |
| `AirQuality.GetPm25Level` | frontend/app.js:195-202 | the loop with early return yields exactly the first-match tier of the shipped table, and that tier's bound admits the value (totality) |
| `AirQuality.TierIndexIsFirstMatch` | frontend/app.js:196-201 | with an open-ended last tier the selected tier always admits the value, and every admitting tier is at or after it |
| `AirQuality.TierIndexMonotone` | frontend/app.js:196-199 | v1 <= v2 implies tier(v1) <= tier(v2) |
| `AirQuality.TierIndexInterval` | frontend/app.js:8-14 | with ascending bounds, tier k is selected iff the value is at most its bound and above the previous bound (a value on a bound gets the lower tier) |
| `AirQuality.ShippedTiers` | frontend/app.js:8-14 | the shipped table is ascending and open-ended; 10 and 12.0 are Good, 12.1 and 35.4 Moderate, 40 and 55.4 Unhealthy for Sensitive Groups, 55.5 Hazardous |
| `AirQuality.GaugePercentage` | frontend/app.js:212-218 | the needle position is in [0, 100]; it is 0 for non-positive values, 1 for values in (0, 1), the value itself on [1, 100], and 100 above |
| `AirQuality.GaugeMonotone` | frontend/app.js:212-218 | a larger PM2.5 value never moves the needle left |
| `AirQuality.SortKey` | frontend/app.js:244 | the comparator's key: a missing `min` and a `min` of 0 (falsy) are Infinity, and any other `min` is its own key |
| `AirQuality.Insert` | frontend/app.js:244 | inserting into a list sorted by the comparator keeps it sorted and adds exactly that rule |
| `AirQuality.SortRules` | frontend/app.js:244 | the sorted copy is ordered by descending `min \|\| Infinity` and is a permutation of the metric's rules (same multiset) |
| `AirQuality.MaxOnlyRulesFirst` | frontend/app.js:244 | after the sort, a rule without `min` comes before every rule with a nonzero `min` |
| `AirQuality.SortTwo` | frontend/app.js:244 | two rules keep their order unless the second has the strictly larger key |
| `AirQuality.ShippedSortOrder` | frontend/app.js:17-39 | for the shipped table the max-only temperature and humidity rules come first, and the CO2 and VOC rules keep their declared order |
| `AirQuality.ShippedMinMaxExclusive` | frontend/app.js:17-27 | for the shipped table, a metric's min rule and max rule never fire for the same value |
| `AirQuality.Fires` | frontend/app.js:247-250 | both bounds are inclusive (a value equal to `min` or `max` fires), a min-only rule never fires below its `min`, a max-only rule never above its `max`, and a rule with neither bound never fires |
| `AirQuality.FiredAdvice` | frontend/app.js:246-253 | the advice collected from a rule list is exactly the advice of the rules that fire (`value >= min` or `value <= max`), at most one per rule |
| `AirQuality.AddSetSemantics` | frontend/app.js:252 | `Set.prototype.add` on the insertion-ordered set: the members are the old ones plus the new string, the old order is kept as a prefix, adding a present member changes nothing, and no duplicate appears |
| `AirQuality.AddAll` | frontend/app.js:234-235 | adding to the insertion-ordered set keeps what was there as a prefix and creates no duplicates; the result holds exactly the old members and the added strings |
| `AirQuality.AddAllFresh` | frontend/app.js:252 | adding strings that are new and pairwise distinct appends them in order |
| `AirQuality.AdviceFor` | frontend/app.js:233-261 | the advice list is non-empty, starts with the tier's base advice, and never holds two equal strings |
| `AirQuality.AdviceMembership` | frontend/app.js:239-253 | a string is in the advice iff it is the base advice or the advice of a firing rule of a metric present in the reading |
| `AirQuality.MetricAdvice` | frontend/app.js:240-253 | one pass of the per-key loop body: a metric absent from the reading contributes nothing, and a present one contributes at most one string per rule |
| `AirQuality.MetricAdviceMembers` | frontend/app.js:240-253 | a metric contributes a string iff it is present and one of its rules fires with that advice (the sort neither adds nor drops a rule) |
| `AirQuality.ContributionsEmpty` | frontend/app.js:239-241 | a walk over metrics none of which is present contributes nothing |
| `AirQuality.ContributionsMembers` | frontend/app.js:238-257 | a string is contributed by the metric walk iff some present metric has a firing rule with that advice |
| `AirQuality.MissingMetricContributesNothing` | frontend/app.js:240-241 | a metric missing from the reading changes nothing: the result equals the one for the table without that metric |
| `AirQuality.UnknownMetricIgnored` | frontend/app.js:238-241 | a reading field that the table does not name never changes the advice |
| `AirQuality.NoMetricsBaseOnly` | frontend/app.js:234-241 | with no table metric present, the advice is the base advice alone |
| `AirQuality.Co2BothMessages` | frontend/app.js:29-33 | a CO2 value of 1400 or more (1500, say) with no other table metric, and a base advice other than the two CO2 messages, yields the base advice, the "very high" message and the "high" message, in that order |
| `AirQuality.GenerateAdvice` | frontend/app.js:233-261 | the nested loops over metrics and sorted rules build exactly the specified advice list, which starts with the base advice and has no duplicates |
| `AirQuality.UpdateUI` | frontend/app.js:119-130 | without `pm2_5` there is no classification and no advice; with it, the tier's level and colours, the gauge position and the advice seeded with the tier's advice |
| `TelemetryRoutes.Upserted` | backend/src/routes.js:12-15 | after the upsert the device's entry is exactly the new body with the new timestamp, the key set grows by at most that device, and every other entry is unchanged |
| `TelemetryRoutes.LastWriteWins` | backend/src/routes.js:12-15 | two posts for the same device leave the same store as the second one alone, with no merge of the first |
| `TelemetryRoutes.UpsertIsolation` | backend/src/routes.js:12 | a post for one device does not add, remove or change any other device's entry |
| `TelemetryRoutes.TelemetryStore.constructor` | backend/src/routes.js:4 | the store starts empty |
| `TelemetryRoutes.TelemetryStore.Upsert` | backend/src/routes.js:11-18 | POST /telemetry sets the map to the upserted map of the old one |
| `TelemetryRoutes.TelemetryStore.GetLatest` | backend/src/routes.js:22-23 | the lookup is absent iff the device was never posted, and otherwise it is the stored entry |
| `TelemetryRoutes.TelemetryStore.Recommend` | backend/src/routes.js:21-47 | an unknown device gets the 404 error "No telemetry data for this device yet"; a known one gets its stored entry, unchanged, as `currentValues` and the rule chain's advice. The store is not modified. |
| `TelemetryRoutes.PostThenRecommend` | backend/src/routes.js:12-27 | after a post, the posting device's recommendation reflects the new body. Another device still gets its earlier entry, or the 404 error if it had none. |
| `TelemetryRoutes.Fires` | backend/src/routes.js:31-36 | one of the six `if`s: a missing field fires nothing, a value exactly on the threshold fires nothing, and a value strictly beyond it in the check's direction fires |
| `TelemetryRoutes.FiredMessages` | backend/src/routes.js:31-36 | the pushed messages are exactly those of the checks that fire, at most one per check |
| `TelemetryRoutes.MessagesDistinct` | backend/src/routes.js:31-39 | the six check messages are pairwise distinct and differ from the fallback message |
| `TelemetryRoutes.RecommendationsFor` | backend/src/routes.js:29-40 | the list is never empty; "Air conditions are good." is in it iff no check fires, and then it is the only element |
| `TelemetryRoutes.BuildAdvice` | backend/src/routes.js:29-40 | the six successive conditional pushes and the conditional final push produce exactly the table-driven recommendation list |
| `TelemetryRoutes.CheckMessageIff` | backend/src/routes.js:31-36 | a check's message is recommended iff that check fires |
| `TelemetryRoutes.StrictThresholds` | backend/src/routes.js:31-34 | each field is judged on its own and strictly: a temperature of exactly 28 or 18 adds neither temperature message, and a humidity of exactly 70 or 30 adds neither humidity message, whatever the other fields hold |
| `TelemetryRoutes.MissingFieldsAreGood` | backend/src/routes.js:31-40 | a reading with no temperature, humidity or airQuality fires nothing and gets only the "good" message |
| `TelemetryRoutes.AtMostFourRecommendations` | backend/src/routes.js:31-36 | the two temperature messages never appear together, nor do the two humidity messages, so the list has at most four entries |
| `TelemetryRoutes.AirQualityBothMessages` | backend/src/routes.js:35-36 | airQuality above 1500 ends the list with the ventilate message followed by the avoid message |
| `TelemetryRoutes.FiredMessagesDistinct` | backend/src/routes.js:31-36 | checks with pairwise distinct messages never push a message twice |
| `TelemetryRoutes.NoRepeatedRecommendations` | backend/src/routes.js:29-40 | the recommendation list never repeats a message |

## Left out

- AirQuality.GenerateAdvice: takes the rule table as a parameter, where `generateAdvice` reads the module constant `OTHER_THRESHOLDS`. `UpdateUI` passes that constant, so the behaviour is the same.
- AirQuality.SortRules: the model uses a stable insertion sort in place of `Array.prototype.sort`, which is also stable. What is proved is sortedness by the comparator's key and permutation; stability is proved only for the shipped two-rule lists (`ShippedSortOrder`). Two rules without `min` in one metric would give the comparator `Infinity - Infinity`, which is NaN. The model treats that case as a tie. The shipped table never has it.
- `fetchData`, `displayData`, `displayInfo`, `displayAdvice`, `updateAqiText`, the DOM write in `updateGauge` and the event wiring: browser I/O and rendering.
- The JSON unwrapping at the start of `updateUI` (`frontend/app.js:91-113`): it depends on `JSON.parse` and dynamic typing. The model starts from the unwrapped reading.
- Non-numeric or `null` field values. JavaScript coerces these in comparisons: `null < 18` is true, and a numeric string compares as a number. The model knows only numbers and absent fields.
- TelemetryRoutes.TelemetryStore.Upsert: body fields other than `deviceId`, `temperature`, `humidity` and `airQuality` are not modelled. The spread copies them into the entry verbatim, and the rules never read them. A missing `deviceId` (stored under the key `"undefined"`) is not modelled either.
- Keys inherited from `Object.prototype` (`toString`, `__proto__`, ...): the plain `{}` store would find them without any post. The model treats every device id as an ordinary key.
- The timestamp from `new Date().toISOString()` is a parameter of the upsert. Clocks are outside the model.
- Express routing, HTTP status codes other than the modelled 404 answer, `res.json`, `console` logging and the `/health` route (`backend/src/index.js`, `backend/src/routes.js:6-8`).
- `backend/src/blobClient.js` (the Azure Blob SDK wrapper), `backend/mqtt_client.py` and `backend/main.py` (MQTT and PostgreSQL through a `db` module that is not part of this model), and the simulators `sim.py` and `device-simulator/index.js`: transport, storage and random test data.
- Floating point: IEEE-754 rounding and NaN. For example, `pm25Value / 100 * 100` is exactly the value over the reals.
- Concurrency: Node handlers run one at a time, so the store needs no locking.
