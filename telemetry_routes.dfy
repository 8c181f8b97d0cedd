/** The backend's latest-state store and recommendation rules
    (backend/src/routes.js): POST /telemetry replaces the entry of the
    posting device, and GET /recommendation/:deviceId answers 404 for a
    device never seen, otherwise the stored entry with the advice of six
    strict threshold checks.

    A field missing from the JSON body is `None`; numbers are reals. */
module TelemetryRoutes {
  import opened Options

  /** The fields of a POST /telemetry body that the routes read. */
  datatype Body = Body(deviceId: string, temperature: Option<real>, humidity: Option<real>, airQuality: Option<real>)

  /** What the store keeps for a device: the body's fields and the server's
      timestamp, which an incoming `timestamp` field cannot override. */
  datatype Entry = Entry(fields: Body, timestamp: string)

  const NO_DATA_ERROR := "No telemetry data for this device yet"
  const OPEN_WINDOWS := "\U{1FA9F} Open windows to cool down the room."
  const INCREASE_HEATING := "\U{1F525} Increase heating to maintain comfort."
  const DEHUMIDIFY := "\U{1F4C9} Use a dehumidifier or reduce moisture."
  const HUMIDIFY := "\U{1F4A7} Turn on humidifier to improve air moisture."
  const VENTILATE := "\U{1F6AA} Ventilate the room to improve air quality."
  const AVOID_STAYING := "\U{26A0} Avoid staying long, air seriously polluted!"
  const CONDITIONS_GOOD := "\U{1F44D} Air conditions are good."

  /** The JSON answer of GET /recommendation/:deviceId. */
  datatype Response =
    | Recommendation(deviceId: string, currentValues: Entry, recommendations: seq<string>)
    | NotFound(error: string)

  // -------------------------------------------------------------- the store

  /** The map after POST /telemetry for `body`: the device's entry is the new
      body with the new timestamp. */
  function Upserted(store: map<string, Entry>, body: Body, timestamp: string): (m: map<string, Entry>)
    ensures m.Keys == store.Keys + {body.deviceId}
    ensures m[body.deviceId] == Entry(body, timestamp)
    ensures forall d :: d in store && d != body.deviceId ==> m[d] == store[d]
  {
    store[body.deviceId := Entry(body, timestamp)]
  }

  /** Last write wins: a second POST for the same device discards the first
      entirely, whatever fields the two bodies share. */
  lemma LastWriteWins(store: map<string, Entry>, first: Body, t1: string, second: Body, t2: string)
    requires first.deviceId == second.deviceId
    ensures Upserted(Upserted(store, first, t1), second, t2) == Upserted(store, second, t2)
  {
  }

  /** Isolation: a POST for one device leaves every other device's lookup as it was. */
  lemma UpsertIsolation(store: map<string, Entry>, body: Body, timestamp: string, other: string)
    requires other != body.deviceId
    ensures other in Upserted(store, body, timestamp) <==> other in store
    ensures other in store ==> Upserted(store, body, timestamp)[other] == store[other]
  {
  }

  /** The module-level `latestTelemetry` object. */
  class TelemetryStore {
    var latestTelemetry: map<string, Entry>

    constructor ()
      ensures latestTelemetry == map[]
    {
      latestTelemetry := map[];
    }

    /** POST /telemetry: replaces the posting device's entry, with no merge of
        the previous one. */
    method Upsert(body: Body, timestamp: string)
      modifies this
      ensures latestTelemetry == Upserted(old(latestTelemetry), body, timestamp)
    {
      latestTelemetry := latestTelemetry[body.deviceId := Entry(body, timestamp)];
    }

    /** The lookup `latestTelemetry[deviceId]`: `None` for a device never posted. */
    method GetLatest(deviceId: string) returns (entry: Option<Entry>)
      ensures entry.None? <==> deviceId !in latestTelemetry
      ensures entry.Some? ==> entry.value == latestTelemetry[deviceId]
    {
      if deviceId in latestTelemetry {
        entry := Some(latestTelemetry[deviceId]);
      } else {
        entry := None;
      }
    }

    /** GET /recommendation/:deviceId: 404 for a device never posted, otherwise
        the stored entry, unchanged, with its recommendations. */
    method Recommend(deviceId: string) returns (response: Response)
      ensures deviceId !in latestTelemetry ==> response == NotFound(NO_DATA_ERROR)
      ensures deviceId in latestTelemetry ==>
        response == Recommendation(deviceId, latestTelemetry[deviceId], RecommendationsFor(latestTelemetry[deviceId]))
    {
      var data := GetLatest(deviceId);
      if data.None? {
        return NotFound(NO_DATA_ERROR);
      }
      var advice := BuildAdvice(data.value);
      response := Recommendation(deviceId, data.value, advice);
    }
  }

  /** Posting then asking for the same device yields the new body's advice;
      posting for another device changes nothing for this one. */
  method PostThenRecommend(store: TelemetryStore, body: Body, timestamp: string, other: string)
    returns (mine: Response, theirs: Response)
    requires other != body.deviceId
    modifies store
    ensures mine == Recommendation(body.deviceId, Entry(body, timestamp), RecommendationsFor(Entry(body, timestamp)))
    ensures other in old(store.latestTelemetry) ==> theirs.Recommendation? && theirs.currentValues == old(store.latestTelemetry)[other]
    ensures other !in old(store.latestTelemetry) ==> theirs == NotFound(NO_DATA_ERROR)
  {
    store.Upsert(body, timestamp);
    mine := store.Recommend(body.deviceId);
    theirs := store.Recommend(other);
  }

  // --------------------------------------------------------- the rule chain

  datatype Field = Temperature | Humidity | AirQuality
  datatype Comparison = Above | Below

  /** One `if (data.<field> <op> <threshold>) advice.push(<message>)`. */
  datatype Check = Check(field: Field, comparison: Comparison, threshold: real, message: string)

  /** The six checks, in the order the handler runs them. */
  const Checks: seq<Check> := [
    Check(Temperature, Above, 28.0, OPEN_WINDOWS),
    Check(Temperature, Below, 18.0, INCREASE_HEATING),
    Check(Humidity, Above, 70.0, DEHUMIDIFY),
    Check(Humidity, Below, 30.0, HUMIDIFY),
    Check(AirQuality, Above, 1000.0, VENTILATE),
    Check(AirQuality, Above, 1500.0, AVOID_STAYING)
  ]

  function FieldOf(body: Body, f: Field): Option<real> {
    match f
    case Temperature => body.temperature
    case Humidity => body.humidity
    case AirQuality => body.airQuality
  }

  /** A check fires on a present field that is strictly beyond its threshold:
      a comparison with `undefined` is false, and so is one with a value
      exactly on the threshold. */
  function Fires(c: Check, e: Entry): (fired: bool)
    ensures FieldOf(e.fields, c.field).None? ==> !fired
    ensures FieldOf(e.fields, c.field) == Some(c.threshold) ==> !fired
    ensures c.comparison.Above? && FieldOf(e.fields, c.field).Some? && FieldOf(e.fields, c.field).value > c.threshold ==> fired
    ensures c.comparison.Below? && FieldOf(e.fields, c.field).Some? && FieldOf(e.fields, c.field).value < c.threshold ==> fired
  {
    var v := FieldOf(e.fields, c.field);
    v.Some? && match c.comparison
      case Above => v.value > c.threshold
      case Below => v.value < c.threshold
  }

  /** The messages of the checks that fire, in check order. */
  function FiredMessages(checks: seq<Check>, e: Entry): (out: seq<string>)
    ensures |out| <= |checks|
    ensures forall m :: m in out <==> exists c :: c in checks && Fires(c, e) && c.message == m
  {
    if checks == [] then []
    else
      var last := checks[|checks| - 1];
      assert checks == checks[..|checks| - 1] + [last];
      FiredMessages(checks[..|checks| - 1], e) + (if Fires(last, e) then [last.message] else [])
  }

  /** The fallback message is none of the checks' messages, and the checks'
      messages are pairwise distinct. */
  lemma MessagesDistinct()
    ensures forall c :: c in Checks ==> c.message != CONDITIONS_GOOD
    ensures forall i, j :: 0 <= i < j < |Checks| ==> Checks[i].message != Checks[j].message
  {
    assert forall c :: c in Checks ==> |c.message| != |CONDITIONS_GOOD|;
  }

  /** The recommendations for an entry: the fired messages, or the single
      "conditions are good" message when none fired. */
  function RecommendationsFor(e: Entry): (advice: seq<string>)
    ensures |advice| >= 1
    ensures CONDITIONS_GOOD in advice <==> forall c :: c in Checks ==> !Fires(c, e)
    ensures CONDITIONS_GOOD in advice ==> advice == [CONDITIONS_GOOD]
  {
    MessagesDistinct();
    var fired := FiredMessages(Checks, e);
    assert forall c :: c in Checks && Fires(c, e) ==> c.message in fired;
    assert fired != [] ==> fired[0] in fired;
    if fired == [] then [CONDITIONS_GOOD] else fired
  }

  /** What check `c` pushes: its message when it fires, nothing otherwise. */
  function Pushed(c: Check, e: Entry): seq<string> {
    if Fires(c, e) then [c.message] else []
  }

  lemma FiredMessagesStep(checks: seq<Check>, k: nat, e: Entry)
    requires k < |checks|
    ensures FiredMessages(checks[..k + 1], e) == FiredMessages(checks[..k], e) + Pushed(checks[k], e)
  {
    assert checks[..k + 1][..k] == checks[..k];
  }

  /** The six checks one after the other, as the handler runs them. */
  lemma FiredMessagesUnrolled(e: Entry)
    ensures FiredMessages(Checks, e) == Pushed(Checks[0], e) + Pushed(Checks[1], e) + Pushed(Checks[2], e)
      + Pushed(Checks[3], e) + Pushed(Checks[4], e) + Pushed(Checks[5], e)
  {
    assert Checks[..0] == [];
    FiredMessagesStep(Checks, 0, e);
    FiredMessagesStep(Checks, 1, e);
    FiredMessagesStep(Checks, 2, e);
    FiredMessagesStep(Checks, 3, e);
    FiredMessagesStep(Checks, 4, e);
    FiredMessagesStep(Checks, 5, e);
    assert Checks[..6] == Checks;
  }

  /** Check `i`'s message is recommended exactly when check `i` fires. */
  lemma CheckMessageIff(e: Entry, i: nat)
    requires i < |Checks|
    ensures Checks[i].message in RecommendationsFor(e) <==> Fires(Checks[i], e)
  {
    MessagesDistinct();
    var fired := FiredMessages(Checks, e);
    if Checks[i].message in fired {
      var c :| c in Checks && Fires(c, e) && c.message == Checks[i].message;
      var j :| 0 <= j < |Checks| && Checks[j] == c;
      assert i == j;
    }
  }

  /** Every comparison is strict, and each field is judged on its own: a
      temperature of exactly 28 or 18 adds no temperature message, and a
      humidity of exactly 70 or 30 adds no humidity message, whatever the
      other fields hold. */
  lemma StrictThresholds(e: Entry)
    ensures e.fields.temperature == Some(28.0) || e.fields.temperature == Some(18.0) ==>
      OPEN_WINDOWS !in RecommendationsFor(e) && INCREASE_HEATING !in RecommendationsFor(e)
    ensures e.fields.humidity == Some(70.0) || e.fields.humidity == Some(30.0) ==>
      DEHUMIDIFY !in RecommendationsFor(e) && HUMIDIFY !in RecommendationsFor(e)
  {
    CheckMessageIff(e, 0);
    CheckMessageIff(e, 1);
    CheckMessageIff(e, 2);
    CheckMessageIff(e, 3);
  }

  /** A reading without any of the three fields fires nothing and is good. */
  lemma MissingFieldsAreGood(e: Entry)
    requires e.fields.temperature.None? && e.fields.humidity.None? && e.fields.airQuality.None?
    ensures RecommendationsFor(e) == [CONDITIONS_GOOD]
  {
    FiredMessagesUnrolled(e);
  }

  /** Temperature and humidity push at most one message each and air quality
      at most two, so there are at most four recommendations. */
  lemma AtMostFourRecommendations(e: Entry)
    ensures !(OPEN_WINDOWS in RecommendationsFor(e) && INCREASE_HEATING in RecommendationsFor(e))
    ensures !(DEHUMIDIFY in RecommendationsFor(e) && HUMIDIFY in RecommendationsFor(e))
    ensures |RecommendationsFor(e)| <= 4
  {
    CheckMessageIff(e, 0);
    CheckMessageIff(e, 1);
    CheckMessageIff(e, 2);
    CheckMessageIff(e, 3);
    FiredMessagesUnrolled(e);
    assert |Pushed(Checks[0], e) + Pushed(Checks[1], e)| <= 1;
    assert |Pushed(Checks[2], e) + Pushed(Checks[3], e)| <= 1;
  }

  /** Above 1500, air quality ends the list with both of its messages,
      ventilation first. */
  lemma AirQualityBothMessages(e: Entry)
    requires e.fields.airQuality.Some? && e.fields.airQuality.value > 1500.0
    ensures var r := RecommendationsFor(e); |r| >= 2 && r[|r| - 2..] == [VENTILATE, AVOID_STAYING]
  {
    FiredMessagesUnrolled(e);
    var head := Pushed(Checks[0], e) + Pushed(Checks[1], e) + Pushed(Checks[2], e) + Pushed(Checks[3], e);
    assert FiredMessages(Checks, e) == head + [VENTILATE, AVOID_STAYING];
  }

  /** Checks with pairwise distinct messages push no message twice. */
  lemma {:induction false} FiredMessagesDistinct(checks: seq<Check>, e: Entry)
    requires forall i, j :: 0 <= i < j < |checks| ==> checks[i].message != checks[j].message
    ensures forall i, j :: 0 <= i < j < |FiredMessages(checks, e)| ==> FiredMessages(checks, e)[i] != FiredMessages(checks, e)[j]
  {
    if checks != [] {
      var n := |checks| - 1;
      var init := checks[..n];
      FiredMessagesDistinct(init, e);
      forall c | c in init ensures c.message != checks[n].message {
        var k :| 0 <= k < n && init[k] == c;
        assert checks[k] == c;
      }
      var before := FiredMessages(init, e);
      assert checks[n].message !in before;
      assert FiredMessages(checks, e) == before + Pushed(checks[n], e);
    }
  }

  /** The recommendation list never repeats a message. */
  lemma NoRepeatedRecommendations(e: Entry)
    ensures forall i, j :: 0 <= i < j < |RecommendationsFor(e)| ==> RecommendationsFor(e)[i] != RecommendationsFor(e)[j]
  {
    MessagesDistinct();
    FiredMessagesDistinct(Checks, e);
  }

  /** The rule chain of GET /recommendation: six strict checks that push
      messages, and the fallback message when none fired. */
  method BuildAdvice(data: Entry) returns (advice: seq<string>)
    ensures advice == RecommendationsFor(data)
  {
    var d := data.fields;
    advice := [];
    if d.temperature.Some? && d.temperature.value > 28.0 { advice := advice + [OPEN_WINDOWS]; }
    assert advice == FiredMessages(Checks[..1], data);
    if d.temperature.Some? && d.temperature.value < 18.0 { advice := advice + [INCREASE_HEATING]; }
    assert Checks[..2][..1] == Checks[..1];
    assert advice == FiredMessages(Checks[..2], data);
    if d.humidity.Some? && d.humidity.value > 70.0 { advice := advice + [DEHUMIDIFY]; }
    assert Checks[..3][..2] == Checks[..2];
    assert advice == FiredMessages(Checks[..3], data);
    if d.humidity.Some? && d.humidity.value < 30.0 { advice := advice + [HUMIDIFY]; }
    assert Checks[..4][..3] == Checks[..3];
    assert advice == FiredMessages(Checks[..4], data);
    if d.airQuality.Some? && d.airQuality.value > 1000.0 { advice := advice + [VENTILATE]; }
    assert Checks[..5][..4] == Checks[..4];
    assert advice == FiredMessages(Checks[..5], data);
    if d.airQuality.Some? && d.airQuality.value > 1500.0 { advice := advice + [AVOID_STAYING]; }
    assert Checks[..6][..5] == Checks[..5];
    assert Checks[..6] == Checks;
    assert advice == FiredMessages(Checks, data);
    if |advice| == 0 {
      advice := advice + [CONDITIONS_GOOD];
    }
  }
}
