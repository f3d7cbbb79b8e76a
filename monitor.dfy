// The running monitor: the status table and its dirty flag, changed by MQTT
// events, and the once-a-second pass of the main loop that flushes the table
// when the ten-minute decade turns, polls the hubs when the hour turns and
// runs the display and alert sweep when the day turns.
module Monitor {
  import opened Maybe
  import opened Numerals
  import opened Order
  import opened Health
  import opened TableCodec
  import opened Alerts

  /** strftime("%M"): the minute as two digits. */
  function MinuteText(minute: nat): (t: string)
    requires minute < 60
    ensures |t| == 2 && AllDigits(t)
  {
    [DigitChar(minute / 10), DigitChar(minute % 10)]
  }

  /** get_decade: the first digit of the minute. */
  function Decade(minute: nat): nat
    requires minute < 60
  {
    Value(MinuteText(minute)[0..1])
  }

  /** The decade is the minute's ten-minute slot, so it turns every ten minutes. */
  lemma DecadeIsTens(minute: nat)
    requires minute < 60
    ensures Decade(minute) == minute / 10 <= 5
  {
    var t := MinuteText(minute)[0..1];
    assert t[..0] == [] && t[0] == DigitChar(minute / 10);
    assert Value(t) == Value(t[..0]) * 10 + (t[0] as int - 48);
  }

  /** The readings of get_decade, get_hour and get_dow on one pass. */
  datatype Clock = Clock(minute: nat, hour: int, dow: int)

  /** Everything the main loop and the event handler change. */
  datatype Snapshot = Snapshot(
    table: map<string, Record>,
    dirty: bool,
    decade: int,
    hour: int,
    dow: int,
    saved: seq<string>,
    outbox: seq<Message>,
    reloadRequired: bool)

  /** The state at the start of the main program: the loaded table, the
      current decade, and hour and day-of-week set to values no clock gives. */
  function Initial(table: map<string, Record>, saved: seq<string>, decade: int): (s: Snapshot)
    ensures s.hour !in HourRange && s.dow !in DowRange
    ensures s.table == table && !s.dirty && s.outbox == [] && !s.reloadRequired
  {
    Snapshot(table, false, decade, 99, 9, saved, [], false)
  }

  const HourRange: set<int> := set h | 0 <= h < 24
  const DowRange: set<int> := set d | 0 <= d < 7

  // ---------------------------------------------------------------------
  // The hourly hub poll.

  /** The hubs of the device list, in order, each with whether it answered online. */
  type Hubs = seq<(string, bool)>

  /** The hubs that answered online. */
  function OnlineNames(hubs: Hubs): set<string> {
    set i | 0 <= i < |hubs| && hubs[i].1 :: hubs[i].0
  }

  /** Some hub answered online. */
  function AnyOnline(hubs: Hubs): bool
    decreases |hubs|
  {
    hubs != [] && (AnyOnline(hubs[..|hubs| - 1]) || hubs[|hubs| - 1].1)
  }

  /** The table after the poll: a fresh hub record for every hub online. */
  function PollHubs(m: map<string, Record>, hubs: Hubs, now: int): map<string, Record>
    decreases |hubs|
  {
    if hubs == [] then m
    else
      var r := PollHubs(m, hubs[..|hubs| - 1], now);
      if hubs[|hubs| - 1].1 then r[hubs[|hubs| - 1].0 := HubRecord(now)] else r
  }

  /** The poll resets exactly the hubs online, whatever they held, adds them
      when missing, and leaves every other record alone. */
  lemma {:induction false} PollHubsResets(m: map<string, Record>, hubs: Hubs, now: int)
    ensures PollHubs(m, hubs, now).Keys == m.Keys + OnlineNames(hubs)
    ensures forall k :: k in OnlineNames(hubs) ==> PollHubs(m, hubs, now)[k] == HubRecord(now)
    ensures forall k :: k in m && k !in OnlineNames(hubs) ==> PollHubs(m, hubs, now)[k] == m[k]
    ensures AnyOnline(hubs) <==> OnlineNames(hubs) != {}
    decreases |hubs|
  {
    if hubs != [] {
      var init := hubs[..|hubs| - 1];
      var last := hubs[|hubs| - 1];
      PollHubsResets(m, init, now);
      assert forall i :: 0 <= i < |init| ==> hubs[i] == init[i];
      assert OnlineNames(hubs) == OnlineNames(init) + (if last.1 then {last.0} else {});
    }
  }

  // ---------------------------------------------------------------------
  // One pass of the main loop and one event.

  /** The decade check: write the table if it changed since the last write. */
  ghost function DecadeTurn(s: Snapshot, d: int, fmt: int -> string): Snapshot {
    if s.decade == d then s
    else if s.dirty then s.(saved := EncodeTable(s.table, SortedOf(s.table.Keys), fmt), dirty := false, decade := d)
    else s.(decade := d)
  }

  /** The hour check: poll the hubs. */
  function HourTurn(s: Snapshot, hour: int, hubs: Hubs, now: int): Snapshot {
    if s.hour == hour then s
    else s.(table := PollHubs(s.table, hubs, now), dirty := s.dirty || AnyOnline(hubs), hour := hour)
  }

  /** The day check: the display pass, then the alert sweep. */
  ghost function DayTurn(s: Snapshot, dow: int, now: int, th: Thresholds): Snapshot {
    if s.dow == dow then s
    else
      var t := ExtendAll(s.table, now);
      s.(table := t, outbox := s.outbox + Sweep(SortedOf(t.Keys), t, now, th), dow := dow)
  }

  /** One pass of the inner loop (yolink_health.py:1213-1239) at time now. */
  ghost function Step(s: Snapshot, clock: Clock, hubs: Hubs, now: int, th: Thresholds, fmt: int -> string): Snapshot
    requires clock.minute < 60
  {
    DayTurn(HourTurn(DecadeTurn(s, Decade(clock.minute), fmt), clock.hour, hubs, now), clock.dow, now, th)
  }

  /** YL_on_message: the update, the dirty flag and the reload request. */
  function OnMessage(s: Snapshot, ids: map<string, string>, ev: Event, now: int): Snapshot {
    var o := Dispatch(s.table, ids, ev, now);
    s.(table := AfterEvent(s.table, o, now), dirty := s.dirty || o.Updated?, reloadRequired := o.Unresolved?)
  }

  /** The table is written exactly when the decade turns with unsaved changes,
      and what is written is the table as it stood, in name order. */
  lemma StepFlushes(s: Snapshot, clock: Clock, hubs: Hubs, now: int, th: Thresholds, fmt: int -> string)
    requires clock.minute < 60
    ensures var flush := s.decade != Decade(clock.minute) && s.dirty;
      && (flush ==> Step(s, clock, hubs, now, th, fmt).saved == EncodeTable(s.table, SortedOf(s.table.Keys), fmt))
      && (!flush ==> Step(s, clock, hubs, now, th, fmt).saved == s.saved)
  {
  }

  /** After a pass the table is unsaved exactly when changes survived a
      decade that did not turn, or the hour turned and a hub answered; the
      display pass never marks it, as its flag is a local of display_table. */
  lemma StepDirty(s: Snapshot, clock: Clock, hubs: Hubs, now: int, th: Thresholds, fmt: int -> string)
    requires clock.minute < 60
    ensures Step(s, clock, hubs, now, th, fmt).dirty <==>
      (s.dirty && s.decade == Decade(clock.minute)) || (s.hour != clock.hour && OnlineNames(hubs) != {})
  {
    PollHubsResets(s.table, hubs, now);
  }

  /** A pass adds the hubs online when the hour turns and removes nothing. */
  lemma StepKeys(s: Snapshot, clock: Clock, hubs: Hubs, now: int, th: Thresholds, fmt: int -> string)
    requires clock.minute < 60
    ensures Step(s, clock, hubs, now, th, fmt).table.Keys
      == s.table.Keys + (if s.hour != clock.hour then OnlineNames(hubs) else {})
  {
    var a := DecadeTurn(s, Decade(clock.minute), fmt);
    DecadeKeeps(s, Decade(clock.minute), fmt);
    HourKeys(a, clock.hour, hubs, now);
    DayKeys(HourTurn(a, clock.hour, hubs, now), clock.dow, now, th);
  }

  /** The decade check changes neither the table nor the hour. */
  lemma DecadeKeeps(s: Snapshot, d: int, fmt: int -> string)
    ensures DecadeTurn(s, d, fmt).table == s.table && DecadeTurn(s, d, fmt).hour == s.hour
  {
    var n := DecadeTurn(s, d, fmt);
    if s.decade != d && s.dirty {
      assert n == s.(saved := n.saved, dirty := false, decade := d);
    }
  }

  /** The hour check adds the hubs online when the hour turns. */
  lemma HourKeys(s: Snapshot, hour: int, hubs: Hubs, now: int)
    ensures HourTurn(s, hour, hubs, now).table.Keys
      == s.table.Keys + (if s.hour != hour then OnlineNames(hubs) else {})
  {
    PollHubsResets(s.table, hubs, now);
  }

  /** The display pass keeps every device and adds none. */
  lemma DayKeys(s: Snapshot, dow: int, now: int, th: Thresholds)
    ensures DayTurn(s, dow, now, th).table.Keys == s.table.Keys
  {
  }

  /** Messages go out only when the day turns, and then they are the sweep of
      the table as the display pass left it: never nothing. */
  lemma StepSweeps(s: Snapshot, clock: Clock, hubs: Hubs, now: int, th: Thresholds, fmt: int -> string)
    requires clock.minute < 60
    ensures var n := Step(s, clock, hubs, now, th, fmt);
      && (s.dow == clock.dow ==> n.outbox == s.outbox)
      && (s.dow != clock.dow ==>
            |n.outbox| > |s.outbox| && n.outbox[..|s.outbox|] == s.outbox
            && n.outbox[|s.outbox|..] == Sweep(SortedOf(n.table.Keys), n.table, now, th))
  {
    var n := Step(s, clock, hubs, now, th, fmt);
    if s.dow != clock.dow {
      var out := Sweep(SortedOf(n.table.Keys), n.table, now, th);
      SweepNonEmpty(SortedOf(n.table.Keys), n.table, now, th);
      assert n.outbox == s.outbox + out;
    }
  }

  /** Within one clock reading a second pass does nothing: the flush, the
      poll and the sweep each happen once per turn of their clock. */
  lemma StepSettles(s: Snapshot, clock: Clock, hubs: Hubs, hubs': Hubs, now: int, now': int, th: Thresholds, fmt: int -> string)
    requires clock.minute < 60
    ensures var n := Step(s, clock, hubs, now, th, fmt);
      Step(n, clock, hubs', now', th, fmt) == n
  {
    var n := Step(s, clock, hubs, now, th, fmt);
    assert n.decade == Decade(clock.minute) && n.hour == clock.hour && n.dow == clock.dow;
    assert DecadeTurn(n, Decade(clock.minute), fmt) == n;
    assert HourTurn(n, clock.hour, hubs', now') == n;
    assert DayTurn(n, clock.dow, now', th) == n;
  }

  /** The first pass after start-up polls the hubs and runs the sweep. */
  lemma FirstPass(table: map<string, Record>, saved: seq<string>, decade: int, clock: Clock, hubs: Hubs,
                  now: int, th: Thresholds, fmt: int -> string)
    requires clock.minute < 60 && clock.hour in HourRange && clock.dow in DowRange
    ensures var n := Step(Initial(table, saved, decade), clock, hubs, now, th, fmt);
      && n.hour == clock.hour && n.dow == clock.dow
      && n.table.Keys == table.Keys + OnlineNames(hubs)
      && (forall k :: k in OnlineNames(hubs) ==> n.table[k] == Extend(HubRecord(now), now))
      && n.outbox == Sweep(SortedOf(n.table.Keys), n.table, now, th)
  {
    PollHubsResets(table, hubs, now);
  }

  predicate AllConsistent(m: map<string, Record>) {
    forall k :: k in m ==> Consistent(m[k])
  }

  /** Passes keep every record consistent. */
  lemma StepKeepsConsistent(s: Snapshot, clock: Clock, hubs: Hubs, now: int, th: Thresholds, fmt: int -> string)
    requires clock.minute < 60
    requires AllConsistent(s.table)
    ensures AllConsistent(Step(s, clock, hubs, now, th, fmt).table)
  {
    var s1 := DecadeTurn(s, Decade(clock.minute), fmt);
    var s2 := HourTurn(s1, clock.hour, hubs, now);
    PollKeepsConsistent(s1, clock.hour, hubs, now);
    DayKeepsConsistent(s2, clock.dow, now, th);
  }

  lemma PollKeepsConsistent(s: Snapshot, hour: int, hubs: Hubs, now: int)
    requires AllConsistent(s.table)
    ensures AllConsistent(HourTurn(s, hour, hubs, now).table)
  {
    PollHubsResets(s.table, hubs, now);
  }

  lemma DayKeepsConsistent(s: Snapshot, dow: int, now: int, th: Thresholds)
    requires AllConsistent(s.table)
    ensures AllConsistent(DayTurn(s, dow, now, th).table)
  {
    if s.dow != dow {
      var t := ExtendAll(s.table, now);
      assert DayTurn(s, dow, now, th).table == t;
    }
  }

  /** An event for a known device marks the table unsaved exactly when it
      updates a record; an unknown device asks for a reload of the device list. */
  lemma MessageMarks(s: Snapshot, ids: map<string, string>, ev: Event, now: int)
    ensures OnMessage(s, ids, ev, now).reloadRequired <==> ev.deviceId !in ids
    ensures OnMessage(s, ids, ev, now).dirty <==> s.dirty || Dispatch(s.table, ids, ev, now).Updated?
    ensures ev.deviceId !in ids ==> OnMessage(s, ids, ev, now).table == s.table
  {
  }

  // ---------------------------------------------------------------------
  // The monitor itself.

  /** One step of the gap extension: the i-th name in order is extended,
      once, and the rest stay as they were. */
  lemma ExtendOne(t0: map<string, Record>, t: map<string, Record>, names: seq<string>, i: nat, now: int)
    requires StrictlySorted(names) && i < |names| && names[i] in t0
    requires t.Keys == t0.Keys
    requires forall k :: k in t0 ==> t[k] == if k in names[..i] then Extend(t0[k], now) else t0[k]
    ensures var t' := t[names[i] := Extend(t[names[i]], now)];
      && t'.Keys == t0.Keys
      && forall k :: k in t0 ==> t'[k] == if k in names[..i + 1] then Extend(t0[k], now) else t0[k]
  {
    var k := names[i];
    assert k !in names[..i] by {
      forall j | 0 <= j < i ensures names[j] != k {
        LexIrreflexive(k);
      }
    }
    assert forall x :: x in names[..i + 1] <==> x in names[..i] || x == k;
  }

  /** Once every name has been extended, the table is ExtendAll of the old one. */
  lemma ExtendedAll(t0: map<string, Record>, t: map<string, Record>, names: seq<string>, now: int)
    requires forall k :: k in names <==> k in t0
    requires t.Keys == t0.Keys
    requires forall k :: k in t0 ==> t[k] == if k in names then Extend(t0[k], now) else t0[k]
    ensures t == ExtendAll(t0, now)
  {
  }

  class Monitor {
    var table: map<string, Record>
    var dirty: bool
    var decade: int
    var hour: int
    var dow: int
    /** The lines of the status file as last written. */
    var saved: seq<string>
    /** The send requests made, oldest first (delivered only when status
        emails are enabled). */
    var outbox: seq<Message>
    var reloadRequired: bool
    const th: Thresholds
    /** timestamp(): the text stored for a time. */
    const fmt: int -> string

    function State(): Snapshot
      reads this
    {
      Snapshot(table, dirty, decade, hour, dow, saved, outbox, reloadRequired)
    }

    /** Start-up: the table as loaded and the lines of the status file, both
        given by the caller (nothing here checks that one decodes to the
        other), the decade of the current minute, hour 99 and day-of-week 9. */
    constructor(loaded: map<string, Record>, saved: seq<string>, minute: nat, th: Thresholds, fmt: int -> string)
      requires minute < 60
      ensures State() == Initial(loaded, saved, Decade(minute))
      ensures this.th == th && this.fmt == fmt
    {
      table := loaded;
      dirty := false;
      decade := Decade(minute);
      hour := 99;
      dow := 9;
      this.saved := saved;
      outbox := [];
      reloadRequired := false;
      this.th := th;
      this.fmt := fmt;
    }

    /** YL_on_message. */
    method OnEvent(ids: map<string, string>, ev: Event, now: int)
      modifies this
      ensures State() == OnMessage(old(State()), ids, ev, now)
    {
      var o := Dispatch(table, ids, ev, now);
      reloadRequired := o.Unresolved?;
      if o.Updated? {
        table := table[o.name := o.record];
        dirty := true;
        ExtendGaps(now);
      }
    }

    /** display_table's gap extension: every record, in name order, gets
        the larger of its gap and the minutes since its update. */
    method ExtendGaps(now: int)
      modifies this
      ensures State() == old(State()).(table := ExtendAll(old(table), now))
    {
      var names := SortedNames(table);
      ghost var t0 := table;
      for i := 0 to |names|
        invariant table.Keys == t0.Keys
        invariant forall k :: k in t0 ==> table[k] == if k in names[..i] then Extend(t0[k], now) else t0[k]
        invariant State() == old(State()).(table := table)
      {
        ExtendOne(t0, table, names, i, now);
        table := table[names[i] := Extend(table[names[i]], now)];
      }
      assert names[..|names|] == names;
      ExtendedAll(t0, table, names, now);
    }

    /** The hourly poll of the hubs. */
    method Poll(hubs: Hubs, now: int)
      modifies this
      ensures State() == old(State()).(table := PollHubs(old(table), hubs, now), dirty := old(dirty) || AnyOnline(hubs))
    {
      for i := 0 to |hubs|
        invariant State() == old(State()).(table := PollHubs(old(table), hubs[..i], now), dirty := old(dirty) || AnyOnline(hubs[..i]))
      {
        assert hubs[..i + 1][..i] == hubs[..i];
        if hubs[i].1 {
          table := table[hubs[i].0 := HubRecord(now)];
          dirty := true;
        }
      }
      assert hubs[..|hubs|] == hubs;
    }

    /** One pass of the main loop. */
    method Tick(clock: Clock, hubs: Hubs, now: int)
      requires clock.minute < 60
      modifies this
      ensures State() == Step(old(State()), clock, hubs, now, th, fmt)
    {
      var d := Decade(clock.minute);
      FlushIfTurned(d);
      if hour != clock.hour {
        Poll(hubs, now);
        hour := clock.hour;
      }
      if dow != clock.dow {
        Review(now);
        dow := clock.dow;
      }
    }

    /** The decade check of the main loop. */
    method FlushIfTurned(d: int)
      modifies this
      ensures State() == DecadeTurn(old(State()), d, fmt)
    {
      if decade != d {
        if dirty {
          saved := WriteTable(table, fmt);
          dirty := false;
        }
        decade := d;
      }
    }

    /** display_table then check_status. */
    method Review(now: int)
      modifies this
      ensures var t := ExtendAll(old(table), now);
        State() == old(State()).(table := t, outbox := old(outbox) + Sweep(SortedOf(t.Keys), t, now, th))
    {
      ExtendGaps(now);
      var sent := CheckStatus(table, now, th);
      outbox := outbox + sent;
    }
  }
}
