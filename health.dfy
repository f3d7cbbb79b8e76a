// The per-device health record and the rules by which an MQTT event, the
// excluded-event refresh of the sentinel device, the hourly hub poll and the
// display pass change it (yolink_health.py, YL_on_message and its helpers).
module Health {
  import opened Maybe

  /** A battery or signal value; Unknown is the '-' / '??' placeholder. */
  datatype Reading = Unknown | Known(value: int) {
    /** The value, or the given default when unknown. */
    function GetOr(default: int): int {
      if Known? then value else default
    }
  }

  /** One entry of dev_status_dictionary: battery, current signal, minimum
      signal, time of the last update (seconds) and the longest gap seen
      between updates (minutes). */
  datatype Record = Record(battery: Reading, signal: Reading, minSignal: Reading, updated: int, longest: int)

  /** A battery or signal field of a payload: absent becomes Unknown. */
  function ReadingOf(x: Option<int>): (r: Reading)
    ensures r.Known? <==> x.Some?
    ensures r.Known? ==> r.value == x.value
  {
    match x
    case Some(v) => Known(v)
    case None => Unknown
  }

  /** int((now - then).total_seconds() / 60): whole minutes, truncated toward zero. */
  function ElapsedMinutes(now: int, since: int): (r: int)
    ensures now >= since ==> 0 <= r && 60 * r <= now - since < 60 * r + 60
    ensures now < since ==> r <= 0 && 60 * -r <= since - now < 60 * -r + 60
  {
    if now >= since then (now - since) / 60 else -((since - now) / 60)
  }

  /** The minimum-signal rule of a recognized event for a known device. */
  function MinSignal(signal: Reading, prevMin: Reading): (r: Reading)
    ensures r.Known? <==> signal.Known?
    ensures r.Known? ==> r.value <= signal.value
    ensures r.Known? && prevMin.Known? ==> r.value <= prevMin.value
    ensures r.Known? ==> r.value == signal.value || (prevMin.Known? && r.value == prevMin.value)
  {
    match signal
    case Unknown => Unknown
    case Known(s) =>
      match prevMin
      case Unknown => Known(s)
      case Known(p) => Known(if s < p then s else p)
  }

  /** The longest-gap rule: the stored gap rises to the elapsed minutes when larger. */
  function Longest(prev: int, elapsed: int): (r: int)
    ensures r >= prev && r >= elapsed
    ensures r == prev || r == elapsed
  {
    if elapsed > prev then elapsed else prev
  }

  /** The invariant every record written at run time satisfies: a known
      minimum is not above a known current signal, and the gap is not negative. */
  predicate Consistent(r: Record) {
    && r.longest >= 0
    && (r.signal.Known? && r.minSignal.Known? ==> r.minSignal.value <= r.signal.value)
  }

  /** The record written for a recognized event. */
  function RecognizedUpdate(prior: Option<Record>, battery: Option<int>, signal: Option<int>, now: int): (r: Record)
    ensures r.battery == ReadingOf(battery) && r.signal == ReadingOf(signal) && r.updated == now
    ensures prior.None? ==> r.minSignal == r.signal && r.longest == 0
    ensures prior.Some? && signal.None? ==> r.minSignal == Unknown
    ensures prior.Some? && signal.Some? && prior.value.minSignal.Unknown? ==> r.minSignal == Known(signal.value)
    ensures prior.Some? && signal.Some? && prior.value.minSignal.Known? ==>
      r.minSignal.Known? && r.minSignal.value <= signal.value && r.minSignal.value <= prior.value.minSignal.value
      && (r.minSignal.value == signal.value || r.minSignal.value == prior.value.minSignal.value)
    ensures prior.Some? ==>
      var gap := ElapsedMinutes(now, prior.value.updated);
      r.longest >= prior.value.longest && r.longest >= gap && (r.longest == prior.value.longest || r.longest == gap)
    ensures (prior.Some? ==> prior.value.longest >= 0) ==> Consistent(r)
  {
    var sig := ReadingOf(signal);
    match prior
    case None => Record(ReadingOf(battery), sig, sig, now, 0)
    case Some(p) =>
      Record(ReadingOf(battery), sig, MinSignal(sig, p.minSignal), now,
             Longest(p.longest, ElapsedMinutes(now, p.updated)))
  }

  /** The device whose excluded events still refresh its record. */
  const Sentinel := "!!!39W Office Temp-Hum"

  /** The record written when the sentinel reports an excluded event: battery
      and signal become unknown, the minimum is kept, the gap may rise. */
  function SentinelUpdate(prior: Option<Record>, now: int): (r: Record)
    ensures r.battery == Unknown && r.signal == Unknown && r.updated == now
    ensures r.minSignal == (if prior.Some? then prior.value.minSignal else Unknown)
    ensures prior.None? ==> r.longest == 0
    ensures prior.Some? ==>
      var gap := ElapsedMinutes(now, prior.value.updated);
      r.longest >= prior.value.longest && r.longest >= gap && (r.longest == prior.value.longest || r.longest == gap)
    ensures (prior.Some? ==> prior.value.longest >= 0) ==> Consistent(r)
  {
    match prior
    case None => Record(Unknown, Unknown, Unknown, now, 0)
    case Some(p) => Record(Unknown, Unknown, p.minSignal, now, Longest(p.longest, ElapsedMinutes(now, p.updated)))
  }

  /** The record the hourly poll writes for a hub that answers online. */
  function HubRecord(now: int): (r: Record)
    ensures r.battery == Unknown && r.signal == Unknown && r.minSignal == Unknown
    ensures r.updated == now && r.longest == 0 && Consistent(r)
  {
    Record(Unknown, Unknown, Unknown, now, 0)
  }

  /** The display pass: the stored gap rises to the minutes elapsed since
      the last update when that is larger; nothing else changes. */
  function Extend(r: Record, now: int): (e: Record)
    ensures e.(longest := r.longest) == r
    ensures e.longest >= r.longest && e.longest >= ElapsedMinutes(now, r.updated)
    ensures e.longest == r.longest || e.longest == ElapsedMinutes(now, r.updated)
    ensures Consistent(r) ==> Consistent(e)
  {
    var gap := ElapsedMinutes(now, r.updated);
    if gap > r.longest then r.(longest := gap) else r
  }

  /** Extend applied to every record of the table. */
  function ExtendAll(m: map<string, Record>, now: int): (r: map<string, Record>)
    ensures r.Keys == m.Keys
    ensures forall k :: k in m ==> r[k] == Extend(m[k], now)
  {
    map k | k in m :: Extend(m[k], now)
  }

  /** Events folded into the table (build_allowed_events_table). */
  const RecognizedEvents: seq<string> := [
    "LeakSensor.Alert", "LeakSensor.Report",
    "DoorSensor.Alert", "DoorSensor.Report", "DoorSensor.setOpenRemind",
    "MotionSensor.Alert", "MotionSensor.StatusChange", "MotionSensor.Report",
    "Manipulator.Alert", "Manipulator.getState", "Manipulator.Report", "Manipulator.StatusChange",
    "PowerFailureAlarm.Alert", "PowerFailureAlarm.StatusChange", "PowerFailureAlarm.Report",
    "Switch.Alert", "Switch.Report", "Switch.StatusChange", "Switch.setState", "Switch.getState",
    "Outlet.Alert", "Outlet.Report", "Outlet.StatusChange", "Outlet.setState", "Outlet.getState",
    "Outlet.powerReport",
    "THSensor.Alert", "THSensor.Report", "THSensor.DataRecord"
  ]

  /** Events that only refresh the sentinel (build_excluded_events_table). */
  const ExcludedEvents: seq<string> := ["Outlet.powerReport"]

  datatype EventClass = Excluded | Recognized | Unsupported

  /** The two membership tests of YL_on_message, the excluded one first. */
  function Classify(kind: string): (c: EventClass)
    ensures c == Excluded <==> kind in ExcludedEvents
    ensures c == Recognized <==> kind in RecognizedEvents && kind !in ExcludedEvents
  {
    if kind in ExcludedEvents then Excluded
    else if kind in RecognizedEvents then Recognized
    else Unsupported
  }

  /** An MQTT message as the handler reads it: device id, event name and the
      optional data.battery, data.loraInfo.signal and data.online fields. */
  datatype Event = Event(deviceId: string, kind: string, battery: Option<int>, signal: Option<int>, online: Option<bool>)

  /** `if YL_online:` where a missing field defaults to the truthy "???". */
  predicate Truthy(online: Option<bool>) {
    online != Some(false)
  }

  /** What one event does to the table. */
  datatype Outcome = Unresolved | Ignored | Updated(name: string, record: Record)

  function Lookup(m: map<string, Record>, name: string): (r: Option<Record>)
    ensures r.Some? <==> name in m
    ensures r.Some? ==> r.value == m[name]
  {
    if name in m then Some(m[name]) else None
  }

  /** YL_on_message without its printing and logging: the id lookup, then the
      excluded list, then the recognized list. */
  function Dispatch(m: map<string, Record>, ids: map<string, string>, ev: Event, now: int): (o: Outcome)
    ensures o.Unresolved? <==> ev.deviceId !in ids
    ensures o.Updated? ==> o.name == ids[ev.deviceId]
    ensures ev.deviceId in ids && Classify(ev.kind) == Unsupported ==> o.Ignored?
    ensures ev.deviceId in ids && Classify(ev.kind) == Excluded ==>
      (o.Updated? <==> ids[ev.deviceId] == Sentinel && Truthy(ev.online))
    ensures ev.deviceId in ids && Classify(ev.kind) == Recognized ==> o.Updated?
    ensures o.Updated? && Classify(ev.kind) == Recognized ==>
      o.record == RecognizedUpdate(Lookup(m, o.name), ev.battery, ev.signal, now)
    ensures o.Updated? && Classify(ev.kind) == Excluded ==>
      o.name == Sentinel && o.record == SentinelUpdate(Lookup(m, Sentinel), now)
  {
    if ev.deviceId !in ids then Unresolved
    else
      var name := ids[ev.deviceId];
      match Classify(ev.kind)
      case Excluded =>
        if name == Sentinel && Truthy(ev.online) then Updated(name, SentinelUpdate(Lookup(m, name), now))
        else Ignored
      case Recognized => Updated(name, RecognizedUpdate(Lookup(m, name), ev.battery, ev.signal, now))
      case Unsupported => Ignored
  }

  /** The table after an event: the updated record, then the display pass
      that YL_on_message runs after every update. */
  function AfterEvent(m: map<string, Record>, o: Outcome, now: int): (r: map<string, Record>)
    ensures o.Updated? ==> r.Keys == m.Keys + {o.name}
    ensures o.Updated? ==> r[o.name] == Extend(o.record, now)
    ensures o.Updated? ==> forall k :: k in m && k != o.name ==> r[k] == Extend(m[k], now)
    ensures !o.Updated? ==> r == m
  {
    if o.Updated? then ExtendAll(m[o.name := o.record], now) else m
  }

  /** Power reports are in both lists; the excluded test wins. */
  lemma PowerReportIsExcluded()
    ensures "Outlet.powerReport" in RecognizedEvents
    ensures Classify("Outlet.powerReport") == Excluded
  {
    assert RecognizedEvents[25] == "Outlet.powerReport";
  }

  /** Every record an event can write keeps the invariant when the table did. */
  lemma DispatchKeepsConsistent(m: map<string, Record>, ids: map<string, string>, ev: Event, now: int)
    requires forall k :: k in m ==> Consistent(m[k])
    ensures var r := AfterEvent(m, Dispatch(m, ids, ev, now), now);
      forall k :: k in r ==> Consistent(r[k])
  {
  }

  /** A report of a recognized event: battery, signal and arrival time. */
  datatype Report = Report(battery: Option<int>, signal: Option<int>, at: int)

  /** A device's record after a run of recognized events. */
  function Replay(r: Record, reports: seq<Report>): Record
    decreases |reports|
  {
    if reports == [] then r
    else Replay(RecognizedUpdate(Some(r), reports[0].battery, reports[0].signal, reports[0].at), reports[1..])
  }

  /** Along a run of recognized events that all carry a signal, the minimum
      never rises and the longest gap never falls. */
  lemma {:induction false} ReplayMonotone(r: Record, reports: seq<Report>)
    requires r.minSignal.Known?
    requires forall i :: 0 <= i < |reports| ==> reports[i].signal.Some?
    ensures Replay(r, reports).minSignal.Known?
    ensures Replay(r, reports).minSignal.value <= r.minSignal.value
    ensures Replay(r, reports).longest >= r.longest
    decreases |reports|
  {
    if reports != [] {
      var next := RecognizedUpdate(Some(r), reports[0].battery, reports[0].signal, reports[0].at);
      ReplayMonotone(next, reports[1..]);
    }
  }

  /** A recognized event without a signal discards the stored minimum. */
  lemma NoSignalForgetsMinimum(r: Record, battery: Option<int>, now: int)
    ensures RecognizedUpdate(Some(r), battery, None, now).minSignal == Unknown
  {
  }

  /** A leak sensor reports 80/-60, then 78/-65 ten minutes later, then -50
      eight minutes after that: the minimum stays at -65 and the longest gap at 10. */
  lemma LeakSensorExample()
    ensures Classify("LeakSensor.Report") == Recognized
    ensures var r1 := RecognizedUpdate(None, Some(80), Some(-60), 0);
      var r2 := RecognizedUpdate(Some(r1), Some(78), Some(-65), 600);
      var r3 := RecognizedUpdate(Some(r2), Some(78), Some(-50), 1080);
      && r1 == Record(Known(80), Known(-60), Known(-60), 0, 0)
      && r2 == Record(Known(78), Known(-65), Known(-65), 600, 10)
      && r3 == Record(Known(78), Known(-50), Known(-65), 1080, 10)
  {
    assert RecognizedEvents[1] == "LeakSensor.Report";
    assert ElapsedMinutes(600, 0) == 10 && ElapsedMinutes(1080, 600) == 8;
  }
}
