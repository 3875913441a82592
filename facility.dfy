/** The facility tables of the management blueprints (sensors, parking lots,
    garbage and fire alerts, water and energy readings) and the handlers that
    write them (blueprints/management/management_bp.py).  Each table is a
    sequence of rows in storage order; a handler either commits its change
    or leaves every table as it was. */
module Facility {
  import opened Calendar
  import opened Outcomes
  import opened Usage

  /** A string-valued key of the request body that is present: JSON null or text. */
  datatype JsonText = JsonNull | Text(text: string)

  datatype Sensor = Sensor(name: string, kind: string, location: string)

  /** A parking lot row; empty is the status column (True = empty). */
  datatype ParkingLot = ParkingLot(sensorId: string, empty: bool, lastUpdated: nat)

  /** A Garbage row. */
  datatype GarbageAlert = GarbageAlert(location: string, sensorId: string, timestamp: nat)

  /** An EmergencyReport row. */
  datatype EmergencyReport = EmergencyReport(location: string, emergencyType: string, sensorId: string, timestamp: nat)

  /** One entry of the parking status listing. */
  datatype LotStatus = LotStatus(sensorId: string, location: string, status: string, lastUpdated: nat)

  /** What the SMS gateway does with one message: it is delivered, it fails
      with a Twilio REST error (which send_sms reports and swallows), or it
      raises some other exception, which propagates to the handler. */
  datatype SmsOutcome = Delivered | RestError | Raises(exception: string)

  /** Readings are kept for 730 days. */
  const RetentionSeconds: int := 730 * SecondsPerDay

  // ---------------------------------------------------------------------------
  // Lookups

  /** session.query(Sensor).filter_by(sensor_name=name).first() */
  function FindSensor(sensors: seq<Sensor>, name: string): (r: Option<Sensor>)
    ensures r.Some? <==> exists i :: 0 <= i < |sensors| && sensors[i].name == name
    ensures r.Some? ==> r.value in sensors && r.value.name == name
  {
    if sensors == [] then None
    else if sensors[0].name == name then Some(sensors[0])
    else FindSensor(sensors[1..], name)
  }

  /** sensor_name is the Sensor table's primary key. */
  predicate UniqueSensorNames(sensors: seq<Sensor>) {
    forall i, j :: 0 <= i < j < |sensors| ==> sensors[i].name != sensors[j].name
  }

  /** sensor_id is the ParkingLot table's primary key. */
  predicate UniqueLotIds(lots: seq<ParkingLot>) {
    forall i, j :: 0 <= i < j < |lots| ==> lots[i].sensorId != lots[j].sensorId
  }

  /** With unique names, the lookup finds the one sensor of that name. */
  lemma {:induction false} FindSensorFindsStored(sensors: seq<Sensor>, i: int)
    requires UniqueSensorNames(sensors) && 0 <= i < |sensors|
    ensures FindSensor(sensors, sensors[i].name) == Some(sensors[i])
  {
    if i > 0 {
      assert sensors[0].name != sensors[i].name;
      assert sensors[1..][i - 1] == sensors[i];
      FindSensorFindsStored(sensors[1..], i - 1);
    }
  }

  /** session.query(ParkingLot).filter_by(sensor_id=id).first(), as a position in the table. */
  function LotIndex(lots: seq<ParkingLot>, id: string): (r: Option<nat>)
    ensures r.Some? ==> r.value < |lots| && lots[r.value].sensorId == id
    ensures r.Some? ==> forall j :: 0 <= j < r.value ==> lots[j].sensorId != id
    ensures r.None? ==> forall j :: 0 <= j < |lots| ==> lots[j].sensorId != id
  {
    if lots == [] then None
    else if lots[0].sensorId == id then Some(0)
    else match LotIndex(lots[1..], id)
      case None => None
      case Some(k) => Some(k + 1)
  }

  // ---------------------------------------------------------------------------
  // Recording usage (record_water_usage, record_energy_usage)

  /** The retention filter: rows whose timestamp is not before the cutoff, in order. */
  function Prune(rs: seq<Reading>, cutoff: int): (kept: seq<Reading>)
    ensures |kept| <= |rs|
    ensures forall i :: 0 <= i < |kept| ==> kept[i].timestamp >= cutoff
  {
    if rs == [] then []
    else (if rs[0].timestamp >= cutoff then [rs[0]] else []) + Prune(rs[1..], cutoff)
  }

  /** Pruning keeps exactly the rows at or after the cutoff. */
  lemma {:induction false} PruneExact(rs: seq<Reading>, cutoff: int)
    ensures forall r :: r in Prune(rs, cutoff) <==> r in rs && r.timestamp >= cutoff
  {
    if rs != [] {
      PruneExact(rs[1..], cutoff);
      assert rs == [rs[0]] + rs[1..];
    }
  }

  lemma {:induction false} PruneAppend(a: seq<Reading>, b: seq<Reading>, cutoff: int)
    ensures Prune(a + b, cutoff) == Prune(a, cutoff) + Prune(b, cutoff)
  {
    if a != [] {
      assert (a + b)[0] == a[0];
      assert (a + b)[1..] == a[1..] + b;
      PruneAppend(a[1..], b, cutoff);
    } else {
      assert a + b == b;
    }
  }

  /** Pruning never changes what a window at or after the cutoff selects, so a
      month that lies entirely within the retention period keeps its usage. */
  lemma {:induction false} PruneKeepsLaterWindows(rs: seq<Reading>, cutoff: int, lo: int, hi: int)
    requires cutoff <= lo
    ensures Select(Prune(rs, cutoff), lo, hi) == Select(rs, lo, hi)
  {
    if rs != [] {
      PruneKeepsLaterWindows(rs[1..], cutoff, lo, hi);
      var head := if rs[0].timestamp >= cutoff then [rs[0]] else [];
      SelectAppend(head, Prune(rs[1..], cutoff), lo, hi);
      assert Select(head, lo, hi) == Select([rs[0]], lo, hi);
    }
  }

  /** Pruning twice with one cutoff prunes nothing more. */
  lemma {:induction false} PruneIdempotent(rs: seq<Reading>, cutoff: int)
    ensures Prune(Prune(rs, cutoff), cutoff) == Prune(rs, cutoff)
  {
    if rs != [] {
      PruneIdempotent(rs[1..], cutoff);
      var head := if rs[0].timestamp >= cutoff then [rs[0]] else [];
      PruneAppend(head, Prune(rs[1..], cutoff), cutoff);
    }
  }

  /** The body of a record-usage handler: the new table, or the exception
      that makes the handler roll back and answer 500.  data['sensor_name']
      is read first, then sensor.location, then the quantity key, and the
      cutoff now - 730 days is computed last. */
  function RecordUsage(table: seq<Reading>, sensors: seq<Sensor>, name: Option<string>,
                       quantity: Option<real>, now: nat): (r: Result<seq<Reading>>)
    ensures r.Success? <==> name.Some? && FindSensor(sensors, name.value).Some?
                            && quantity.Some? && now >= RetentionSeconds
    ensures name.None? ==> r == Failure("KeyError")
    ensures name.Some? && FindSensor(sensors, name.value).None? ==> r == Failure("AttributeError")
    ensures r.Success? ==>
      var added := Reading(name.value, FindSensor(sensors, name.value).value.location, quantity.value, now);
      r.value == Prune(table, now - RetentionSeconds) + [added]
  {
    if name.None? then Failure("KeyError")
    else match FindSensor(sensors, name.value)
      case None => Failure("AttributeError")
      case Some(sensor) =>
        if quantity.None? then Failure("KeyError")
        else if now < RetentionSeconds then Failure("OverflowError")
        else
          var added := Reading(name.value, sensor.location, quantity.value, now);
          var cutoff := now - RetentionSeconds;
          PruneAppend(table, [added], cutoff);
          assert Prune([added], cutoff) == [added];
          Success(Prune(table + [added], cutoff))
  }

  /** Recording keeps the usage of every month inside the retention period,
      and adds the new reading to the month it falls in. */
  lemma RecordUsageKeepsRecentMonths(table: seq<Reading>, sensors: seq<Sensor>, name: Option<string>,
                                     quantity: Option<real>, now: nat, lo: int, hi: int)
    requires RecordUsage(table, sensors, name, quantity, now).Success?
    requires now - RetentionSeconds <= lo
    ensures var added := Reading(name.value, FindSensor(sensors, name.value).value.location, quantity.value, now);
      Select(RecordUsage(table, sensors, name, quantity, now).value, lo, hi)
        == Select(table, lo, hi) + (if lo <= now <= hi then [added] else [])
  {
    var added := Reading(name.value, FindSensor(sensors, name.value).value.location, quantity.value, now);
    PruneKeepsLaterWindows(table, now - RetentionSeconds, lo, hi);
    SelectAppend(Prune(table, now - RetentionSeconds), [added], lo, hi);
    assert [added][1..] == [];
  }

  // ---------------------------------------------------------------------------
  // Parking

  /** The reply to a parking update: 404 for an unknown lot, otherwise
      "Car parked" when the new status is occupied. */
  function ParkingReply(lots: seq<ParkingLot>, sensorId: string, status: Option<bool>): (r: Reply)
    ensures r.Err? <==> LotIndex(lots, sensorId).None?
    ensures r.Err? ==> r == Err(404, "Parking lot not found")
    ensures r.Ok? ==> (&& r.status == 200
                       && (r.body == "Car parked" <==> status == Some(false))
                       && (r.body == "Car unparked" <==> status != Some(false)))
  {
    if LotIndex(lots, sensorId).None? then Err(404, "Parking lot not found")
    else
      var empty := if status.Some? then status.value else true;
      Ok(200, if !empty then "Car parked" else "Car unparked")
  }

  /** get_parking_lots_status: each lot with its sensor's location; a lot
      whose sensor row is missing makes the listing raise (500). */
  function ParkingStatus(lots: seq<ParkingLot>, sensors: seq<Sensor>): (r: Response<seq<LotStatus>>)
    ensures r.Ok? <==> forall i :: 0 <= i < |lots| ==> FindSensor(sensors, lots[i].sensorId).Some?
    ensures r.Err? ==> r.status == 500
    ensures r.Ok? ==> r.status == 200 && |r.body| == |lots|
    ensures r.Ok? ==> forall i :: 0 <= i < |lots| ==>
      && r.body[i].sensorId == lots[i].sensorId
      && r.body[i].location == FindSensor(sensors, lots[i].sensorId).value.location
      && r.body[i].lastUpdated == lots[i].lastUpdated
      && (r.body[i].status == "Empty" <==> lots[i].empty)
      && (r.body[i].status == "Occupied" <==> !lots[i].empty)
  {
    if lots == [] then Ok(200, [])
    else match FindSensor(sensors, lots[0].sensorId)
      case None => Err(500, "AttributeError")
      case Some(s) =>
        var entry := LotStatus(lots[0].sensorId, s.location, if lots[0].empty then "Empty" else "Occupied", lots[0].lastUpdated);
        match ParkingStatus(lots[1..], sensors)
        case Err(c, e) => Err(c, e)
        case Ok(c, rest) =>
          assert forall i :: 1 <= i < |lots| ==> lots[1..][i - 1] == lots[i];
          Ok(200, [entry] + rest)
  }

  // ---------------------------------------------------------------------------
  // Alerts

  /** What sending an alert SMS does to the handler: with no contact number
      nothing is sent; otherwise only a non-Twilio exception escapes. */
  function Notify(contactConfigured: bool, sms: SmsOutcome): (r: Result<bool>)
    ensures r.Failure? <==> contactConfigured && sms.Raises?
    ensures r.Success? ==> (r.value <==> contactConfigured && sms == Delivered)
  {
    if !contactConfigured then Success(false)
    else match sms
      case Delivered => Success(true)
      case RestError => Success(false)
      case Raises(e) => Failure(e)
  }

  // ---------------------------------------------------------------------------
  // The database

  class FacilityDb {
    var sensors: seq<Sensor>
    var lots: seq<ParkingLot>
    var garbage: seq<GarbageAlert>
    var emergencies: seq<EmergencyReport>
    var water: seq<Reading>
    var energy: seq<Reading>

    /** The primary keys the handlers rely on. */
    predicate Valid()
      reads this
    {
      UniqueSensorNames(sensors) && UniqueLotIds(lots)
    }

    constructor ()
      ensures Valid()
      ensures sensors == [] && lots == [] && garbage == [] && emergencies == [] && water == [] && energy == []
    {
      sensors, lots, garbage, emergencies, water, energy := [], [], [], [], [], [];
    }

    /** add_sensor: a missing key is a 400 naming it (sensor_name, then type,
        then location), since all three keys are read before the commit; a JSON
        null leaves the primary key or a NOT NULL column null, and a name
        already stored violates the primary key: either way the commit fails
        with 500. */
    method AddSensor(name: Option<JsonText>, kind: Option<JsonText>, location: Option<JsonText>) returns (r: Reply)
      requires Valid()
      modifies this
      ensures Valid()
      ensures name.None? ==> r == Err(400, "Missing required field: 'sensor_name'")
      ensures name.Some? && kind.None? ==> r == Err(400, "Missing required field: 'type'")
      ensures name.Some? && kind.Some? && location.None? ==> r == Err(400, "Missing required field: 'location'")
      ensures name.Some? && kind.Some? && location.Some? && (name.value.JsonNull? || kind.value.JsonNull? || location.value.JsonNull?)
              ==> r == Err(500, "IntegrityError")
      ensures name.Some? && kind.Some? && location.Some? && name.value.Text? && FindSensor(old(sensors), name.value.text).Some?
              ==> r == Err(500, "IntegrityError")
      ensures r.Ok? <==> (&& name.Some? && kind.Some? && location.Some?
                          && name.value.Text? && kind.value.Text? && location.value.Text?
                          && FindSensor(old(sensors), name.value.text).None?)
      ensures r.Ok? ==> (&& r == Ok(201, "Sensor added successfully!")
                         && sensors == old(sensors) + [Sensor(name.value.text, kind.value.text, location.value.text)])
      ensures r.Err? ==> sensors == old(sensors)
      ensures lots == old(lots) && garbage == old(garbage) && emergencies == old(emergencies)
      ensures water == old(water) && energy == old(energy)
    {
      if name.None? {
        return Err(400, "Missing required field: 'sensor_name'");
      }
      if kind.None? {
        return Err(400, "Missing required field: 'type'");
      }
      if location.None? {
        return Err(400, "Missing required field: 'location'");
      }
      if name.value.JsonNull? || kind.value.JsonNull? || location.value.JsonNull? {
        return Err(500, "IntegrityError");
      }
      if FindSensor(sensors, name.value.text).Some? {
        return Err(500, "IntegrityError");
      }
      sensors := sensors + [Sensor(name.value.text, kind.value.text, location.value.text)];
      r := Ok(201, "Sensor added successfully!");
    }

    /** record_water_usage */
    method RecordWaterUsage(name: Option<string>, liters: Option<real>, now: nat) returns (r: Reply)
      modifies this
      ensures var next := RecordUsage(old(water), old(sensors), name, liters, now);
        && (next.Success? ==> r == Ok(201, "Water usage recorded") && water == next.value)
        && (next.Failure? ==> r == Err(500, next.exception) && water == old(water))
      ensures sensors == old(sensors) && lots == old(lots) && garbage == old(garbage)
      ensures emergencies == old(emergencies) && energy == old(energy)
    {
      var next := RecordUsage(water, sensors, name, liters, now);
      if next.Success? {
        water := next.value;
        r := Ok(201, "Water usage recorded");
      } else {
        r := Err(500, next.exception);
      }
    }

    /** record_energy_usage */
    method RecordEnergyUsage(name: Option<string>, kwh: Option<real>, now: nat) returns (r: Reply)
      modifies this
      ensures var next := RecordUsage(old(energy), old(sensors), name, kwh, now);
        && (next.Success? ==> r == Ok(201, "Energy usage recorded") && energy == next.value)
        && (next.Failure? ==> r == Err(500, next.exception) && energy == old(energy))
      ensures sensors == old(sensors) && lots == old(lots) && garbage == old(garbage)
      ensures emergencies == old(emergencies) && water == old(water)
    {
      var next := RecordUsage(energy, sensors, name, kwh, now);
      if next.Success? {
        energy := next.value;
        r := Ok(201, "Energy usage recorded");
      } else {
        r := Err(500, next.exception);
      }
    }

    /** update_parking_status: a missing status means True (empty); the lot's
        status and last_updated are overwritten in place. */
    method UpdateParkingStatus(sensorId: string, status: Option<bool>, now: nat) returns (r: Reply)
      requires Valid()
      modifies this
      ensures Valid()
      ensures r == ParkingReply(old(lots), sensorId, status)
      ensures r.Err? ==> lots == old(lots)
      ensures r.Ok? ==> var i := LotIndex(old(lots), sensorId).value;
        lots == old(lots)[i := ParkingLot(sensorId, if status.Some? then status.value else true, now)]
      ensures sensors == old(sensors) && garbage == old(garbage) && emergencies == old(emergencies)
      ensures water == old(water) && energy == old(energy)
    {
      r := ParkingReply(lots, sensorId, status);
      match LotIndex(lots, sensorId)
      case None =>
      case Some(i) =>
        var empty := if status.Some? then status.value else true;
        lots := lots[i := ParkingLot(sensorId, empty, now)];
    }

    /** receive_garbage_alert: the alert row is committed before the SMS is
        attempted, so it stays even when the SMS raises and the reply is 500. */
    method ReceiveGarbageAlert(name: Option<string>, contactConfigured: bool, sms: SmsOutcome, now: nat)
      returns (r: Reply)
      modifies this
      ensures name.None? || FindSensor(old(sensors), name.value).None? ==>
        r == Err(404, "Sensor not found") && garbage == old(garbage)
      ensures name.Some? && FindSensor(old(sensors), name.value).Some? ==>
        && garbage == old(garbage) + [GarbageAlert(FindSensor(old(sensors), name.value).value.location, name.value, now)]
        && (Notify(contactConfigured, sms).Success? ==> r == Ok(201, "Alert logged."))
        && (Notify(contactConfigured, sms).Failure? ==> r == Err(500, Notify(contactConfigured, sms).exception))
      ensures sensors == old(sensors) && lots == old(lots) && emergencies == old(emergencies)
      ensures water == old(water) && energy == old(energy)
    {
      if name.None? {
        return Err(404, "Sensor not found");
      }
      var sensor := FindSensor(sensors, name.value);
      if sensor.None? {
        return Err(404, "Sensor not found");
      }
      garbage := garbage + [GarbageAlert(sensor.value.location, name.value, now)];
      var sent := Notify(contactConfigured, sms);
      if sent.Failure? {
        return Err(500, sent.exception);
      }
      r := Ok(201, "Alert logged.");
    }

    /** receive_fire_alert: the report is added, the SMS attempted, and only
        then committed, so an SMS that raises rolls the report back. */
    method ReceiveFireAlert(name: Option<string>, contactConfigured: bool, sms: SmsOutcome, now: nat)
      returns (r: Reply)
      modifies this
      ensures name.None? || FindSensor(old(sensors), name.value).None? ==>
        r == Err(404, "Sensor not found") && emergencies == old(emergencies)
      ensures name.Some? && FindSensor(old(sensors), name.value).Some? && Notify(contactConfigured, sms).Failure? ==>
        r == Err(500, Notify(contactConfigured, sms).exception) && emergencies == old(emergencies)
      ensures name.Some? && FindSensor(old(sensors), name.value).Some? && Notify(contactConfigured, sms).Success? ==>
        && r == Ok(201, "Fire alert handled.")
        && emergencies == old(emergencies) + [EmergencyReport(FindSensor(old(sensors), name.value).value.location, "fire", name.value, now)]
      ensures sensors == old(sensors) && lots == old(lots) && garbage == old(garbage)
      ensures water == old(water) && energy == old(energy)
    {
      if name.None? {
        return Err(404, "Sensor not found");
      }
      var sensor := FindSensor(sensors, name.value);
      if sensor.None? {
        return Err(404, "Sensor not found");
      }
      var sent := Notify(contactConfigured, sms);
      if sent.Failure? {
        return Err(500, sent.exception);
      }
      emergencies := emergencies + [EmergencyReport(sensor.value.location, "fire", name.value, now)];
      r := Ok(201, "Fire alert handled.");
    }
  }

  /** The parking reply and the status listing agree: after an update that
      answers "Car parked" the lot is listed "Occupied", and after "Car
      unparked" it is listed "Empty". */
  lemma ParkingReplyMatchesListing(lots: seq<ParkingLot>, sensors: seq<Sensor>, sensorId: string,
                                   status: Option<bool>, now: nat)
    requires ParkingReply(lots, sensorId, status).Ok?
    requires ParkingStatus(lots, sensors).Ok?
    ensures var i := LotIndex(lots, sensorId).value;
      var after := lots[i := ParkingLot(sensorId, if status.Some? then status.value else true, now)];
      && ParkingStatus(after, sensors).Ok?
      && (ParkingStatus(after, sensors).body[i].status == "Occupied"
          <==> ParkingReply(lots, sensorId, status).body == "Car parked")
  {
    var i := LotIndex(lots, sensorId).value;
    var after := lots[i := ParkingLot(sensorId, if status.Some? then status.value else true, now)];
    assert forall j :: 0 <= j < |after| ==> after[j].sensorId == lots[j].sensorId;
  }
}
