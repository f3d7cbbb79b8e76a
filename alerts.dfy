// The alert sweep of check_status: one pass over the devices in name order,
// three threshold tests per device, and at most max_alerts alert messages,
// followed by the "AOK" and "Excessive" summaries. Sending a message is
// appending it to the output; the mail transport is not part of this model.
module Alerts {
  import opened Numerals
  import opened Order
  import opened Health

  /** The configured limits: min_battery, min_signal, max_age_minutes, max_alerts. */
  datatype Thresholds = Thresholds(minBattery: int, minSignal: int, maxAgeMinutes: int, maxAlerts: int)

  /** What a message reports. */
  datatype Body =
    | LowBattery(device: string, level: int)
    | LowSignal(device: string, level: int)
    | Stale(device: string, minutes: int)
    | AllOk
    | Excessive

  datatype Message = Message(subject: string, body: Body)

  predicate IsAlert(b: Body) {
    b.LowBattery? || b.LowSignal? || b.Stale?
  }

  /** The device an alert is about; the summaries are about none. */
  function DeviceOf(b: Body): string {
    if IsAlert(b) then b.device else ""
  }

  /** "Yolink Device Alert <n>": the subject of the n-th alert of a sweep. */
  function AlertSubject(n: int): string {
    "Yolink Device Alert " + IntToStr(n)
  }

  const AokMessage := Message("Yolink Devices AOK", AllOk)
  const ExcessiveMessage := Message("Excessive Yolink Alerts", Excessive)

  predicate BatteryLow(r: Record, th: Thresholds) {
    r.battery.Known? && r.battery.value <= th.minBattery
  }

  predicate SignalLow(r: Record, th: Thresholds) {
    r.signal.Known? && r.signal.value < th.minSignal
  }

  predicate TooOld(r: Record, now: int, th: Thresholds) {
    ElapsedMinutes(now, r.updated) > th.maxAgeMinutes
  }

  /** The place of an alert's test among the three tests of check_status. */
  function TestOrder(b: Body): int {
    match b
    case LowBattery(_, _) => 0
    case LowSignal(_, _) => 1
    case Stale(_, _) => 2
    case _ => 3
  }

  /** The alerts one device calls for, in the order check_status tests them,
      before the budget is applied. */
  function Conditions(name: string, r: Record, now: int, th: Thresholds): (bs: seq<Body>)
    ensures |bs| <= 3
    ensures forall b :: b in bs ==> IsAlert(b) && b.device == name
    ensures forall b :: b in bs && b.LowBattery? ==> BatteryLow(r, th) && b.level == r.battery.value
    ensures forall b :: b in bs && b.LowSignal? ==> SignalLow(r, th) && b.level == r.signal.value
    ensures forall b :: b in bs && b.Stale? ==> TooOld(r, now, th) && b.minutes == ElapsedMinutes(now, r.updated)
    ensures BatteryLow(r, th) ==> LowBattery(name, r.battery.value) in bs
    ensures SignalLow(r, th) ==> LowSignal(name, r.signal.value) in bs
    ensures TooOld(r, now, th) ==> Stale(name, ElapsedMinutes(now, r.updated)) in bs
    ensures bs == [] <==> !BatteryLow(r, th) && !SignalLow(r, th) && !TooOld(r, now, th)
    ensures |bs| == (if BatteryLow(r, th) then 1 else 0) + (if SignalLow(r, th) then 1 else 0) + (if TooOld(r, now, th) then 1 else 0)
    ensures forall i, j :: 0 <= i < j < |bs| ==> TestOrder(bs[i]) < TestOrder(bs[j])
  {
    Alert(BatteryLow(r, th), LowBattery(name, r.battery.GetOr(0)))
    + Alert(SignalLow(r, th), LowSignal(name, r.signal.GetOr(0)))
    + Alert(TooOld(r, now, th), Stale(name, ElapsedMinutes(now, r.updated)))
  }

  /** The alert b if its test holds, else nothing. */
  function Alert(test: bool, b: Body): (bs: seq<Body>)
    ensures |bs| == (if test then 1 else 0)
    ensures forall x :: x in bs ==> test && x == b
  {
    if test then [b] else []
  }

  /** Every alert the devices in names call for, device after device. */
  function Candidates(names: seq<string>, m: map<string, Record>, now: int, th: Thresholds): seq<Body>
    requires forall n :: n in names ==> n in m
  {
    if names == [] then []
    else Candidates(names[..|names| - 1], m, now, th) + Conditions(names[|names| - 1], m[names[|names| - 1]], now, th)
  }

  lemma CandidatesStep(names: seq<string>, m: map<string, Record>, now: int, th: Thresholds, i: nat)
    requires forall n :: n in names ==> n in m
    requires i < |names|
    ensures Candidates(names[..i + 1], m, now, th) == Candidates(names[..i], m, now, th) + Conditions(names[i], m[names[i]], now, th)
  {
    var p := names[..i + 1];
    assert p[..|p| - 1] == names[..i];
  }

  /** How many alerts go out when n are called for: none once the count
      reaches max_alerts, so min(max(max_alerts, 0), n). */
  function Budget(maxAlerts: int, n: nat): nat {
    if maxAlerts <= 0 then 0 else if n < maxAlerts then n else maxAlerts
  }

  /** Alerts numbered from 1 in the order they are sent. */
  function Numbered(bs: seq<Body>): (ms: seq<Message>)
    ensures |ms| == |bs|
    ensures forall i :: 0 <= i < |bs| ==> ms[i] == Message(AlertSubject(i + 1), bs[i])
  {
    seq(|bs|, i requires 0 <= i < |bs| => Message(AlertSubject(i + 1), bs[i]))
  }

  /** The messages of a sweep over names: the first alerts the budget allows,
      then "AOK" if none went out and "Excessive" if the budget was used up. */
  function Sweep(names: seq<string>, m: map<string, Record>, now: int, th: Thresholds): seq<Message>
    requires forall n :: n in names ==> n in m
  {
    var cands := Candidates(names, m, now, th);
    var sent := Budget(th.maxAlerts, |cands|);
    Numbered(cands[..sent])
      + (if sent == 0 then [AokMessage] else [])
      + (if sent >= th.maxAlerts then [ExcessiveMessage] else [])
  }

  /** check_status: the sweep over the table in sorted name order at time now. */
  method CheckStatus(m: map<string, Record>, now: int, th: Thresholds) returns (out: seq<Message>)
    ensures out == Sweep(SortedOf(m.Keys), m, now, th)
  {
    var names := SortedNames(m);
    assert forall n :: n in names ==> n in m;
    var count;
    out, count := CheckDevices(names, m, now, th);
    SweepSplit(names, m, now, th);
    if count == 0 {
      out := out + [AokMessage];
    }
    if count >= th.maxAlerts {
      out := out + [ExcessiveMessage];
    }
  }

  /** The device loop of check_status: the alerts called for, in device
      order, as many as the budget allows, and how many went out. */
  method CheckDevices(names: seq<string>, m: map<string, Record>, now: int, th: Thresholds) returns (out: seq<Message>, count: nat)
    requires forall n :: n in names ==> n in m
    ensures var c := Candidates(names, m, now, th);
      count == Budget(th.maxAlerts, |c|) && out == Numbered(c[..count])
  {
    count := 0;
    out := [];
    ghost var seen: seq<Body> := [];
    for i := 0 to |names|
      invariant seen == Candidates(names[..i], m, now, th)
      invariant count == Budget(th.maxAlerts, |seen|)
      invariant out == Numbered(seen[..count])
    {
      out, count := CheckDevice(names[i], m[names[i]], now, th, out, count, seen);
      seen := seen + Conditions(names[i], m[names[i]], now, th);
      CandidatesStep(names, m, now, th, i);
    }
    assert names[..|names|] == names;
  }

  /** The three tests of check_status for one device, in order. */
  method CheckDevice(name: string, r: Record, now: int, th: Thresholds, out: seq<Message>, count: nat, ghost seen: seq<Body>)
    returns (out': seq<Message>, count': nat)
    requires count == Budget(th.maxAlerts, |seen|) && out == Numbered(seen[..count])
    ensures count' == Budget(th.maxAlerts, |seen + Conditions(name, r, now, th)|)
    ensures out' == Numbered((seen + Conditions(name, r, now, th))[..count'])
  {
    var battery := Alert(BatteryLow(r, th), LowBattery(name, r.battery.GetOr(0)));
    out', count' := Send(battery, out, count, th.maxAlerts, seen);
    var signal := Alert(SignalLow(r, th), LowSignal(name, r.signal.GetOr(0)));
    out', count' := Send(signal, out', count', th.maxAlerts, seen + battery);
    var stale := Alert(TooOld(r, now, th), Stale(name, ElapsedMinutes(now, r.updated)));
    out', count' := Send(stale, out', count', th.maxAlerts, seen + battery + signal);
    assert seen + battery + signal + stale == seen + Conditions(name, r, now, th);
  }

  /** One test of check_status: its alert (at most one) goes out, numbered
      after those already sent, only while the count is below max_alerts. */
  method Send(alert: seq<Body>, out: seq<Message>, count: nat, maxAlerts: int, ghost seen: seq<Body>)
    returns (out': seq<Message>, count': nat)
    requires |alert| <= 1
    requires count == Budget(maxAlerts, |seen|) && out == Numbered(seen[..count])
    ensures count' == Budget(maxAlerts, |seen + alert|)
    ensures out' == Numbered((seen + alert)[..count'])
  {
    out', count' := out, count;
    if alert != [] {
      if count < maxAlerts {
        out' := out + [Message(AlertSubject(count + 1), alert[0])];
        count' := count + 1;
      }
      assert alert == [alert[0]];
      Raise(seen, count, maxAlerts, alert[0]);
    } else {
      assert seen + alert == seen;
    }
  }

  /** One more alert called for: it goes out exactly when the budget is not used up. */
  lemma Raise(seen: seq<Body>, count: nat, maxAlerts: int, b: Body)
    requires count == Budget(maxAlerts, |seen|)
    ensures count < maxAlerts ==>
      Budget(maxAlerts, |seen| + 1) == count + 1
      && Numbered((seen + [b])[..count + 1]) == Numbered(seen[..count]) + [Message(AlertSubject(count + 1), b)]
    ensures count >= maxAlerts ==>
      Budget(maxAlerts, |seen| + 1) == count && (seen + [b])[..count] == seen[..count]
  {
    if count < maxAlerts {
      assert (seen + [b])[..count + 1] == seen[..count] + [b];
    }
  }

  // ---------------------------------------------------------------------
  // What a sweep promises.

  /** Every alert called for names a device of the sweep whose reading
      crosses the threshold the alert reports. */
  lemma {:induction false} CandidatesSound(names: seq<string>, m: map<string, Record>, now: int, th: Thresholds)
    requires forall n :: n in names ==> n in m
    ensures forall b :: b in Candidates(names, m, now, th) ==> IsAlert(b) && b.device in names
    ensures forall b :: b in Candidates(names, m, now, th) && b.LowBattery? ==>
      BatteryLow(m[b.device], th) && b.level == m[b.device].battery.value
    ensures forall b :: b in Candidates(names, m, now, th) && b.LowSignal? ==>
      SignalLow(m[b.device], th) && b.level == m[b.device].signal.value
    ensures forall b :: b in Candidates(names, m, now, th) && b.Stale? ==>
      TooOld(m[b.device], now, th) && b.minutes == ElapsedMinutes(now, m[b.device].updated)
    decreases |names|
  {
    if names != [] {
      var init := names[..|names| - 1];
      CandidatesSound(init, m, now, th);
      assert forall n :: n in init ==> n in names;
    }
  }

  /** Every threshold a device of the sweep crosses is called for. */
  lemma {:induction false} CandidatesComplete(names: seq<string>, m: map<string, Record>, now: int, th: Thresholds)
    requires forall n :: n in names ==> n in m
    ensures forall n :: n in names && BatteryLow(m[n], th) ==> LowBattery(n, m[n].battery.value) in Candidates(names, m, now, th)
    ensures forall n :: n in names && SignalLow(m[n], th) ==> LowSignal(n, m[n].signal.value) in Candidates(names, m, now, th)
    ensures forall n :: n in names && TooOld(m[n], now, th) ==>
      Stale(n, ElapsedMinutes(now, m[n].updated)) in Candidates(names, m, now, th)
    decreases |names|
  {
    if names != [] {
      var init := names[..|names| - 1];
      CandidatesComplete(init, m, now, th);
      assert forall n :: n in names ==> n in init || n == names[|names| - 1];
    }
  }

  /** Alerts grouped by device, the devices in ascending name order. */
  predicate DevicesOrdered(c: seq<Body>) {
    forall i, j :: 0 <= i < j < |c| ==> DeviceOf(c[i]) == DeviceOf(c[j]) || LexLess(DeviceOf(c[i]), DeviceOf(c[j]))
  }

  /** Over names in ascending order, the alerts come device by device in
      ascending order of device name. */
  lemma {:induction false} CandidatesOrdered(names: seq<string>, m: map<string, Record>, now: int, th: Thresholds)
    requires forall n :: n in names ==> n in m
    requires StrictlySorted(names)
    ensures DevicesOrdered(Candidates(names, m, now, th))
    decreases |names|
  {
    if names != [] {
      var init := names[..|names| - 1];
      var last := names[|names| - 1];
      CandidatesOrdered(init, m, now, th);
      CandidatesSound(init, m, now, th);
      forall b | b in Candidates(init, m, now, th) ensures LexLess(DeviceOf(b), last) {
        var k :| 0 <= k < |init| && init[k] == b.device;
        assert names[k] == init[k];
      }
      OrderedAppend(Candidates(init, m, now, th), Conditions(last, m[last], now, th), last);
    }
  }

  /** Appending the alerts of a device named after every earlier one keeps the order. */
  lemma OrderedAppend(c0: seq<Body>, d: seq<Body>, last: string)
    requires DevicesOrdered(c0)
    requires forall b :: b in c0 ==> LexLess(DeviceOf(b), last)
    requires forall b :: b in d ==> DeviceOf(b) == last
    ensures DevicesOrdered(c0 + d)
  {
    var c := c0 + d;
    forall i, j | 0 <= i < j < |c|
      ensures DeviceOf(c[i]) == DeviceOf(c[j]) || LexLess(DeviceOf(c[i]), DeviceOf(c[j]))
    {
      if j >= |c0| {
        assert c[j] == d[j - |c0|];
        if i < |c0| {
          assert c[i] == c0[i];
        } else {
          assert c[i] == d[i - |c0|];
        }
      } else {
        assert c[i] == c0[i] && c[j] == c0[j];
      }
    }
  }

  /** A sweep is its numbered alerts followed by summaries only. */
  lemma SweepSplit(names: seq<string>, m: map<string, Record>, now: int, th: Thresholds)
    requires forall n :: n in names ==> n in m
    ensures var c := Candidates(names, m, now, th);
      var sent := Budget(th.maxAlerts, |c|);
      Sweep(names, m, now, th) == Numbered(c[..sent]) + SummariesOf(sent, th.maxAlerts)
  {
  }

  /** The summaries that close a sweep in which sent alerts went out. */
  function SummariesOf(sent: nat, maxAlerts: int): (ss: seq<Message>)
    ensures forall msg :: msg in ss ==> !IsAlert(msg.body)
    ensures AokMessage in ss <==> sent == 0
    ensures ExcessiveMessage in ss <==> sent >= maxAlerts
    ensures |ss| == (if sent == 0 then 1 else 0) + (if sent >= maxAlerts then 1 else 0)
    ensures sent == 0 ==> ss[0] == AokMessage
  {
    (if sent == 0 then [AokMessage] else []) + (if sent >= maxAlerts then [ExcessiveMessage] else [])
  }

  /** The shape of a sweep: alerts numbered 1 to k, where k is the budget
      min(max(max_alerts, 0), alerts called for); "AOK" exactly when no alert
      went out; "Excessive" exactly when the alerts called for reach max_alerts. */
  lemma SweepSummary(names: seq<string>, m: map<string, Record>, now: int, th: Thresholds)
    requires forall n :: n in names ==> n in m
    ensures var c := Candidates(names, m, now, th);
      var out := Sweep(names, m, now, th);
      var k := if th.maxAlerts <= 0 then 0 else if |c| < th.maxAlerts then |c| else th.maxAlerts;
      && k <= |out|
      && (forall i :: 0 <= i < k ==> out[i] == Message(AlertSubject(i + 1), c[i]))
      && (forall i :: k <= i < |out| ==> !IsAlert(out[i].body))
      && (AokMessage in out <==> th.maxAlerts <= 0 || |c| == 0)
      && (ExcessiveMessage in out <==> |c| >= th.maxAlerts)
      && out[k..] == SummariesOf(k, th.maxAlerts)
      && |out| == k + |SummariesOf(k, th.maxAlerts)|
  {
    var c := Candidates(names, m, now, th);
    var sent := Budget(th.maxAlerts, |c|);
    SweepSplit(names, m, now, th);
    CandidatesSound(names, m, now, th);
    SweepShape(c, sent, th.maxAlerts, Sweep(names, m, now, th));
  }

  /** Numbered alerts followed by the summaries, whatever the alerts are. */
  lemma SweepShape(c: seq<Body>, sent: nat, maxAlerts: int, out: seq<Message>)
    requires sent <= |c|
    requires forall b :: b in c ==> IsAlert(b)
    requires out == Numbered(c[..sent]) + SummariesOf(sent, maxAlerts)
    ensures sent <= |out|
    ensures forall i :: 0 <= i < sent ==> out[i] == Message(AlertSubject(i + 1), c[i])
    ensures forall i :: sent <= i < |out| ==> !IsAlert(out[i].body)
    ensures AokMessage in out <==> sent == 0
    ensures ExcessiveMessage in out <==> sent >= maxAlerts
    ensures out[sent..] == SummariesOf(sent, maxAlerts)
  {
    NumberedAlerts(c[..sent]);
    AlertsThenOthers(Numbered(c[..sent]), SummariesOf(sent, maxAlerts), out);
  }

  /** Alerts followed by messages that are not alerts: the tail is exactly
      what follows the alerts, and a summary is in the whole iff in the tail. */
  lemma AlertsThenOthers(head: seq<Message>, tail: seq<Message>, out: seq<Message>)
    requires out == head + tail
    requires forall x :: x in head ==> IsAlert(x.body)
    requires forall x :: x in tail ==> !IsAlert(x.body)
    ensures out[|head|..] == tail
    ensures forall i :: |head| <= i < |out| ==> !IsAlert(out[i].body)
    ensures AokMessage in out <==> AokMessage in tail
    ensures ExcessiveMessage in out <==> ExcessiveMessage in tail
  {
    Outside(head, tail, AokMessage);
    Outside(head, tail, ExcessiveMessage);
    assert forall i :: |head| <= i < |out| ==> out[i] == tail[i - |head|];
  }

  /** Every sweep sends something: an alert, or else "AOK". */
  lemma SweepNonEmpty(names: seq<string>, m: map<string, Record>, now: int, th: Thresholds)
    requires forall n :: n in names ==> n in m
    ensures |Sweep(names, m, now, th)| > 0
  {
    var c := Candidates(names, m, now, th);
    var sent := Budget(th.maxAlerts, |c|);
    SweepSplit(names, m, now, th);
    if sent == 0 {
      assert AokMessage in SummariesOf(sent, th.maxAlerts);
    }
  }

  /** Numbered alerts are alerts. */
  lemma NumberedAlerts(bs: seq<Body>)
    requires forall b :: b in bs ==> IsAlert(b)
    ensures forall msg :: msg in Numbered(bs) ==> IsAlert(msg.body)
  {
    forall msg | msg in Numbered(bs) ensures IsAlert(msg.body) {
      var i :| 0 <= i < |bs| && Numbered(bs)[i] == msg;
      assert bs[i] in bs;
    }
  }

  /** A message that is not an alert is in head + tail exactly when it is in tail. */
  lemma Outside(head: seq<Message>, tail: seq<Message>, msg: Message)
    requires forall x :: x in head ==> IsAlert(x.body)
    requires !IsAlert(msg.body)
    ensures msg in head + tail <==> msg in tail
  {
  }

  /** With max_alerts 0 (or less) no alert goes out and both summaries do. */
  lemma NoBudgetSendsBoth(names: seq<string>, m: map<string, Record>, now: int, th: Thresholds)
    requires forall n :: n in names ==> n in m
    requires th.maxAlerts <= 0
    ensures Sweep(names, m, now, th) == [AokMessage, ExcessiveMessage]
  {
  }

  /** Every alert that goes out reports a real condition of a device of the sweep. */
  lemma SentAlertsAreReal(names: seq<string>, m: map<string, Record>, now: int, th: Thresholds)
    requires forall n :: n in names ==> n in m
    ensures forall msg :: msg in Sweep(names, m, now, th) && IsAlert(msg.body) ==>
      var b := msg.body;
      && b.device in names
      && (b.LowBattery? ==> BatteryLow(m[b.device], th))
      && (b.LowSignal? ==> SignalLow(m[b.device], th))
      && (b.Stale? ==> TooOld(m[b.device], now, th))
  {
    var c := Candidates(names, m, now, th);
    var sent := Budget(th.maxAlerts, |c|);
    CandidatesSound(names, m, now, th);
    var out := Sweep(names, m, now, th);
    SweepSplit(names, m, now, th);
    SweepShape(c, sent, th.maxAlerts, out);
    forall msg | msg in out && IsAlert(msg.body) ensures msg.body in c {
      var i :| 0 <= i < |out| && out[i] == msg;
      assert i < sent;
      assert msg.body == c[i];
    }
  }

  /** Three devices with a low battery and max_alerts 2: the first two in
      name order are alerted, numbered 1 and 2, then "Excessive" follows. */
  lemma BudgetExample()
    ensures var r := Record(Known(1), Unknown, Unknown, 0, 0);
      var m := map["a" := r, "b" := r, "c" := r];
      Sweep(["a", "b", "c"], m, 0, Thresholds(2, -100, 60, 2))
        == [Message(AlertSubject(1), LowBattery("a", 1)), Message(AlertSubject(2), LowBattery("b", 1)), ExcessiveMessage]
  {
    var r := Record(Known(1), Unknown, Unknown, 0, 0);
    var m := map["a" := r, "b" := r, "c" := r];
    var th := Thresholds(2, -100, 60, 2);
    var names := ["a", "b", "c"];
    ExampleCandidates(names, m, r, th);
    TwoOfThree(names, m, 0, th, LowBattery("a", 1), LowBattery("b", 1), LowBattery("c", 1));
  }

  /** Three alerts called for and max_alerts 2: two go out, then "Excessive". */
  lemma TwoOfThree(names: seq<string>, m: map<string, Record>, now: int, th: Thresholds, x: Body, y: Body, z: Body)
    requires forall n :: n in names ==> n in m
    requires Candidates(names, m, now, th) == [x, y, z] && th.maxAlerts == 2
    ensures Sweep(names, m, now, th) == [Message(AlertSubject(1), x), Message(AlertSubject(2), y), ExcessiveMessage]
  {
    SweepSplit(names, m, now, th);
    assert [x, y, z][..2] == [x, y];
    NumberedPair(x, y);
  }

  /** Two alerts are numbered 1 and 2. */
  lemma NumberedPair(x: Body, y: Body)
    ensures Numbered([x, y]) == [Message(AlertSubject(1), x), Message(AlertSubject(2), y)]
  {
  }

  /** The alerts called for in the example above: one per device. */
  lemma ExampleCandidates(names: seq<string>, m: map<string, Record>, r: Record, th: Thresholds)
    requires names == ["a", "b", "c"] && m == map["a" := r, "b" := r, "c" := r]
    requires r == Record(Known(1), Unknown, Unknown, 0, 0) && th == Thresholds(2, -100, 60, 2)
    ensures Candidates(names, m, 0, th) == [LowBattery("a", 1), LowBattery("b", 1), LowBattery("c", 1)]
  {
    ExampleTwo(names, m, r, th);
    ExampleLookup(names, m, r, 2);
    OnlyBatteryLow(names[2], r, th);
    LastDevice(names, m, 0, th);
  }

  /** The alerts of all devices are those of all but the last, then the last's. */
  lemma LastDevice(names: seq<string>, m: map<string, Record>, now: int, th: Thresholds)
    requires forall n :: n in names ==> n in m
    requires names != []
    ensures Candidates(names, m, now, th) == Candidates(names[..|names| - 1], m, now, th) + Conditions(names[|names| - 1], m[names[|names| - 1]], now, th)
  {
  }

  /** The first two devices of the example. */
  lemma ExampleTwo(names: seq<string>, m: map<string, Record>, r: Record, th: Thresholds)
    requires names == ["a", "b", "c"] && m == map["a" := r, "b" := r, "c" := r]
    requires r == Record(Known(1), Unknown, Unknown, 0, 0) && th == Thresholds(2, -100, 60, 2)
    ensures Candidates(names[..2], m, 0, th) == [LowBattery("a", 1), LowBattery("b", 1)]
  {
    ExampleOne(names, m, r, th);
    ExampleLookup(names, m, r, 1);
    OnlyBatteryLow(names[1], r, th);
    CandidatesStep(names, m, 0, th, 1);
  }

  /** Every device of the example has the same reading. */
  lemma ExampleLookup(names: seq<string>, m: map<string, Record>, r: Record, i: nat)
    requires names == ["a", "b", "c"] && m == map["a" := r, "b" := r, "c" := r]
    requires i < 3
    ensures names[i] in m && m[names[i]] == r
  {
  }

  /** The first device of the example. */
  lemma ExampleOne(names: seq<string>, m: map<string, Record>, r: Record, th: Thresholds)
    requires names == ["a", "b", "c"] && m == map["a" := r, "b" := r, "c" := r]
    requires r == Record(Known(1), Unknown, Unknown, 0, 0) && th == Thresholds(2, -100, 60, 2)
    ensures Candidates(names[..1], m, 0, th) == [LowBattery("a", 1)]
  {
    ExampleLookup(names, m, r, 0);
    OnlyBatteryLow(names[0], r, th);
    CandidatesStep(names, m, 0, th, 0);
    assert names[..0] == [];
  }

  /** A fresh reading with only the battery below the threshold calls for one alert. */
  lemma OnlyBatteryLow(name: string, r: Record, th: Thresholds)
    requires r == Record(Known(1), Unknown, Unknown, 0, 0) && th == Thresholds(2, -100, 60, 2)
    ensures Conditions(name, r, 0, th) == [LowBattery(name, 1)]
  {
    assert ElapsedMinutes(0, 0) == 0;
  }

  /** No device over a threshold: one "AOK" message and nothing else. */
  lemma QuietSweep(names: seq<string>, m: map<string, Record>, now: int, th: Thresholds)
    requires forall n :: n in names ==> n in m
    requires th.maxAlerts > 0
    requires forall n :: n in names ==> !BatteryLow(m[n], th) && !SignalLow(m[n], th) && !TooOld(m[n], now, th)
    ensures Sweep(names, m, now, th) == [AokMessage]
  {
    QuietCandidates(names, m, now, th);
  }

  /** No device over a threshold: no alert is called for. */
  lemma {:induction false} QuietCandidates(names: seq<string>, m: map<string, Record>, now: int, th: Thresholds)
    requires forall n :: n in names ==> n in m
    requires forall n :: n in names ==> !BatteryLow(m[n], th) && !SignalLow(m[n], th) && !TooOld(m[n], now, th)
    ensures Candidates(names, m, now, th) == []
    decreases |names|
  {
    if names != [] {
      QuietCandidates(names[..|names| - 1], m, now, th);
    }
  }
}
