// Model of the thermal shutdown in dev/thset/dev_thset.c. Temperatures are reals.
module Thset {
  import opened Recovery

  const MAX_COUNT := 8
  const MAX_CRITICAL := 80.0
  const MIN_PERIOD := 5000

  datatype Sensor = Sensor(state: DeviceStatus, value: real) {
    predicate Valid() { state == Normal }

    predicate Critical() { state == Normal && value > MAX_CRITICAL }
  }

  function ValidCount(sensors: seq<Sensor>): (n: nat)
    ensures n <= |sensors|
  {
    if sensors == [] then 0
    else ValidCount(sensors[..|sensors| - 1]) + if sensors[|sensors| - 1].Valid() then 1 else 0
  }

  function CriticalCount(sensors: seq<Sensor>): (n: nat)
    ensures n <= ValidCount(sensors)
  {
    if sensors == [] then 0
    else CriticalCount(sensors[..|sensors| - 1]) + if sensors[|sensors| - 1].Critical() then 1 else 0
  }

  // THSET_STATE_0, 1 and 2
  datatype ShutdownState = Cool | Warned | Shutdown

  datatype Event = Poll(sensors: seq<Sensor>, now: Tick) | Clear {
    // At least two sensors report.
    predicate Counts() { Poll? && ValidCount(sensors) >= 2 }

    predicate Alarm() { Counts() && CriticalCount(sensors) >= 2 }

    // Every sensor reports and none is critical, or the shutdown is cleared by hand.
    predicate Calm() {
      Clear? || (Counts() && ValidCount(sensors) == |sensors| && CriticalCount(sensors) == 0)
    }
  }

  datatype Thermal = Thermal(state: ShutdownState, start: Tick)

  function Step(s: Thermal, e: Event): Thermal {
    if e.Clear? then s.(state := Cool)
    else if !e.Counts() then s
    else
      match s.state
      case Cool => if e.Alarm() then Thermal(Warned, e.now) else s
      case Warned =>
        if e.Calm() then s.(state := Cool)
        else if Elapsed(e.now, s.start) >= MIN_PERIOD then s.(state := Shutdown)
        else s
      case Shutdown => if e.Calm() then s.(state := Cool) else s
  }

  function Run(events: seq<Event>): Thermal {
    if events == [] then Thermal(Cool, 0) else Step(Run(events[..|events| - 1]), events[|events| - 1])
  }

  // ---------- what the counts mean ----------

  // Sensor i reports.
  predicate Reports(sensors: seq<Sensor>, i: int) { 0 <= i < |sensors| && sensors[i].state == Normal }

  // It reports more than 80 degrees.
  predicate Hot(sensors: seq<Sensor>, i: int) { Reports(sensors, i) && sensors[i].value > 80.0 }

  ghost predicate SomeReports(sensors: seq<Sensor>) { exists i :: Reports(sensors, i) }

  ghost predicate SomeHot(sensors: seq<Sensor>) { exists i :: Hot(sensors, i) }

  ghost predicate TwoReport(sensors: seq<Sensor>) { exists i, j :: i < j && Reports(sensors, i) && Reports(sensors, j) }

  ghost predicate TwoHot(sensors: seq<Sensor>) { exists i, j :: i < j && Hot(sensors, i) && Hot(sensors, j) }

  lemma EarlierSensors(before: seq<Sensor>, last: Sensor)
    ensures forall i :: i < |before| ==>
              && (Reports(before + [last], i) <==> Reports(before, i)) && (Hot(before + [last], i) <==> Hot(before, i))
    ensures Reports(before + [last], |before|) <==> last.Valid()
    ensures Hot(before + [last], |before|) <==> last.Critical()
    ensures forall i :: Reports(before + [last], i) || Hot(before + [last], i) ==> i <= |before|
  {
  }

  lemma SensorsGrow(before: seq<Sensor>, last: Sensor)
    ensures SomeReports(before + [last]) <==> SomeReports(before) || last.Valid()
    ensures SomeHot(before + [last]) <==> SomeHot(before) || last.Critical()
    ensures TwoReport(before + [last]) <==> TwoReport(before) || (SomeReports(before) && last.Valid())
    ensures TwoHot(before + [last]) <==> TwoHot(before) || (SomeHot(before) && last.Critical())
  {
    hide Reports, Hot;
    var all := before + [last];
    EarlierSensors(before, last);
    forall i ensures Reports(before, i) || Hot(before, i) ==> i < |before| { InRange(before, i); }
    if SomeReports(before) { var i :| Reports(before, i); assert Reports(all, i); }
    if SomeHot(before) { var i :| Hot(before, i); assert Hot(all, i); }
    if TwoReport(before) {
      var i, j :| i < j && Reports(before, i) && Reports(before, j);
      assert Reports(all, i) && Reports(all, j);
    }
    if TwoHot(before) {
      var i, j :| i < j && Hot(before, i) && Hot(before, j);
      assert Hot(all, i) && Hot(all, j);
    }
  }

  lemma InRange(sensors: seq<Sensor>, i: int)
    ensures Reports(sensors, i) || Hot(sensors, i) ==> 0 <= i < |sensors|
  {
  }

  lemma {:induction false} CountsMean(sensors: seq<Sensor>)
    ensures ValidCount(sensors) >= 1 <==> SomeReports(sensors)
    ensures ValidCount(sensors) >= 2 <==> TwoReport(sensors)
    ensures CriticalCount(sensors) >= 1 <==> SomeHot(sensors)
    ensures CriticalCount(sensors) >= 2 <==> TwoHot(sensors)
    decreases |sensors|
  {
    hide Reports, Hot, SomeReports, SomeHot, TwoReport, TwoHot;
    if sensors == [] {
      NoSensors();
    } else {
      var n := |sensors| - 1;
      CountsMean(sensors[..n]);
      SensorsGrow(sensors[..n], sensors[n]);
      assert sensors == sensors[..n] + [sensors[n]];
    }
  }

  lemma NoSensors()
    ensures !SomeReports([]) && !SomeHot([]) && !TwoReport([]) && !TwoHot([])
  {
  }

  lemma {:induction false} AllValid(sensors: seq<Sensor>)
    ensures ValidCount(sensors) == |sensors| <==> forall i :: 0 <= i < |sensors| ==> Reports(sensors, i)
    decreases |sensors|
  {
    hide Reports;
    if sensors == [] {
    } else {
      var n := |sensors| - 1;
      AllValid(sensors[..n]);
      EarlierSensors(sensors[..n], sensors[n]);
      assert sensors == sensors[..n] + [sensors[n]];
    }
  }

  // An alarm is two sensors reporting more than 80 degrees; calm is two or more
  // sensors, all reporting, none of them more than 80.
  lemma EventsMean(e: Event)
    ensures e.Alarm() <==> e.Poll? && TwoHot(e.sensors)
    ensures e.Counts() <==> e.Poll? && TwoReport(e.sensors)
    ensures e.Calm() <==>
              || e.Clear?
              || (|e.sensors| >= 2 && (forall i :: 0 <= i < |e.sensors| ==> Reports(e.sensors, i)) && !SomeHot(e.sensors))
  {
    hide Reports, Hot, SomeReports, SomeHot, TwoReport, TwoHot;
    if e.Poll? {
      CountsMean(e.sensors);
      AllValid(e.sensors);
    }
  }

  // ---------- what the history says, without the state machine ----------

  predicate NoCalmAfter(events: seq<Event>, i: int) {
    forall k :: i < k < |events| && 0 <= k ==> !events[k].Calm()
  }

  predicate Alarming(events: seq<Event>, i: int) {
    0 <= i < |events| && events[i].Alarm() && NoCalmAfter(events, i)
  }

  // The alarm that began the present episode: the first with no calm since.
  predicate Onset(events: seq<Event>, i: int) {
    Alarming(events, i) && forall k :: 0 <= k < i ==> !Alarming(events, k)
  }

  // A later poll that counts, the minimum period after the onset.
  predicate Ripe(events: seq<Event>, i: int, j: int) {
    && 0 <= i < j < |events| && events[i].Poll?
    && events[j].Counts() && Elapsed(events[j].now, events[i].now) >= 5000
  }

  lemma AlarmIsNotCalm(e: Event)
    ensures !(e.Alarm() && e.Calm())
  {
  }

  lemma SameAlarms(before: seq<Event>, e: Event, i: int)
    requires !e.Calm() && i < |before|
    ensures Alarming(before + [e], i) <==> Alarming(before, i)
  {
    var events := before + [e];
    if 0 <= i {
      assert events[i] == before[i];
      if NoCalmAfter(before, i) {
        assert NoCalmAfter(events, i);
      }
      if NoCalmAfter(events, i) {
        forall k | i < k < |before| ensures !before[k].Calm() { assert !events[k].Calm(); }
      }
    }
  }

  lemma SameOnset(before: seq<Event>, e: Event, i: int)
    requires !e.Calm() && i < |before|
    ensures Onset(before + [e], i) <==> Onset(before, i)
  {
    hide Alarming;
    forall k | k <= i ensures Alarming(before + [e], k) <==> Alarming(before, k) {
      SameAlarms(before, e, k);
    }
  }

  lemma CalmEnds(before: seq<Event>, e: Event, i: int)
    requires e.Calm()
    ensures !Alarming(before + [e], i)
  {
    var events := before + [e];
    AlarmIsNotCalm(e);
    assert events[|before|] == e;
  }

  ghost predicate SomeAlarming(events: seq<Event>) {
    exists i :: Alarming(events, i)
  }

  ghost predicate SomeRipe(events: seq<Event>, i: int) {
    exists j :: Ripe(events, i, j)
  }

  lemma RipeGrows(before: seq<Event>, e: Event, i: int)
    ensures SomeRipe(before + [e], i) <==> SomeRipe(before, i) || Ripe(before + [e], i, |before|)
  {
    var events := before + [e];
    if SomeRipe(before, i) {
      var j :| Ripe(before, i, j);
      assert Ripe(events, i, j);
    }
    if SomeRipe(events, i) {
      var j :| Ripe(events, i, j);
      if j < |before| { assert Ripe(before, i, j); }
    }
  }

  // The state is Cool exactly when no alarm is outstanding; otherwise the clock runs
  // from the episode's onset i, and Shutdown means a ripe poll has come.
  ghost predicate Explains(s: Thermal, events: seq<Event>, i: int) {
    && (s.state == Cool <==> !SomeAlarming(events))
    && (s.state != Cool ==>
          && Onset(events, i) && events[i].Poll? && s.start == events[i].now
          && (s.state == Shutdown <==> SomeRipe(events, i)))
  }

  lemma ExplainsStep(s: Thermal, before: seq<Event>, i: int, e: Event) returns (j: int)
    requires Explains(s, before, i)
    ensures Explains(Step(s, e), before + [e], j)
  {
    var events, n := before + [e], |before|;
    assert events[n] == e;
    if e.Calm() {
      forall k ensures !Alarming(events, k) { CalmEnds(before, e, k); }
      j := i;
    } else {
      hide Alarming, Onset;
      forall k | k < n ensures Alarming(events, k) <==> Alarming(before, k) { SameAlarms(before, e, k); }
      LastAlarming(before, e);
      if s.state == Cool {
        j := n;
        NewEpisode(before, e);
      } else {
        j := i;
        OnsetIndex(before, i);
        SameOnset(before, e, i);
        OnsetIndex(events, i);
        RipeGrows(before, e, i);
        assert events[i] == before[i];
      }
    }
  }

  lemma OnsetIndex(events: seq<Event>, i: int)
    requires Onset(events, i)
    ensures 0 <= i < |events| && Alarming(events, i)
  {
  }

  lemma LastAlarming(before: seq<Event>, e: Event)
    ensures Alarming(before + [e], |before|) <==> e.Alarm()
    ensures forall k :: Alarming(before + [e], k) ==> k <= |before|
  {
    assert (before + [e])[|before|] == e;
  }

  lemma NewEpisode(before: seq<Event>, e: Event)
    requires !SomeAlarming(before) && !e.Calm()
    ensures SomeAlarming(before + [e]) <==> e.Alarm()
    ensures e.Alarm() ==> Onset(before + [e], |before|) && !SomeRipe(before + [e], |before|)
  {
    var events := before + [e];
    LastAlarming(before, e);
    forall k | 0 <= k < |before| ensures !Alarming(events, k) { SameAlarms(before, e, k); }
    assert e.Alarm() ==> Alarming(events, |before|);
  }

  lemma {:induction false} RunExplained(events: seq<Event>) returns (i: int)
    ensures Explains(Run(events), events, i)
    decreases |events|
  {
    if events == [] {
      i := 0;
    } else {
      var n := |events| - 1;
      var j := RunExplained(events[..n]);
      assert events == events[..n] + [events[n]];
      i := ExplainsStep(Run(events[..n]), events[..n], j, events[n]);
    }
  }

  // Main result: after any history the shutdown is in force exactly when the first
  // alarm with no calm since was followed, 5000 ticks (mod 2^32) or more later, by a
  // poll that counts.
  lemma ShutdownExactly(events: seq<Event>)
    ensures Run(events).state == Shutdown <==> exists i, j :: Onset(events, i) && Ripe(events, i, j)
    ensures Run(events).state == Cool <==> forall i :: !Alarming(events, i)
  {
    var i := RunExplained(events);
    if Run(events).state == Shutdown {
      var j :| Ripe(events, i, j);
      assert Onset(events, i) && Ripe(events, i, j);
    }
    if k, j :| Onset(events, k) && Ripe(events, k, j) {
      assert Alarming(events, k) && SomeAlarming(events);
      assert k == i;
      assert SomeRipe(events, i);
    }
  }

  // The step that shuts down sees at least two sensors reporting, at least 5000 ticks
  // after an alarm with no calm in between or since.
  lemma EntersShutdown(events: seq<Event>, e: Event) returns (i: int)
    requires Run(events).state != Shutdown && Run(events + [e]).state == Shutdown
    ensures e.Poll? && e.Counts()
    ensures 0 <= i < |events| && events[i].Poll? && events[i].Alarm() && NoCalmAfter(events + [e], i)
    ensures Elapsed(e.now, events[i].now) >= 5000
  {
    assert (events + [e])[..|events|] == events;
    i := RunExplained(events);
    SameAlarms(events, e, i);
  }

  // ---------- the step function ----------

  class ThermoSet {
    const sensors: array<Sensor>
    const count: nat
    var state: ShutdownState
    var startTick: Tick

    ghost predicate Valid() { count <= sensors.Length == MAX_COUNT }

    ghost function View(): Thermal
      reads this
    {
      Thermal(state, startTick)
    }

    constructor (sensors: array<Sensor>, count: nat)
      requires count <= sensors.Length == MAX_COUNT
      ensures Valid() && View() == Run([]) && this.sensors == sensors && this.count == count
    {
      this.sensors := sensors;
      this.count := count;
      state := Cool;
      startTick := 0;
    }

    method CountSensors() returns (valid: nat, critical: nat)
      requires Valid()
      ensures valid == ValidCount(sensors[..count]) && critical == CriticalCount(sensors[..count])
    {
      valid, critical := 0, 0;
      for i := 0 to count
        invariant valid == ValidCount(sensors[..i]) && critical == CriticalCount(sensors[..i])
      {
        assert sensors[..i + 1][..i] == sensors[..i];
        if sensors[i].state == Normal {
          valid := valid + 1;
          if sensors[i].value > MAX_CRITICAL {
            critical := critical + 1;
          }
        }
      }
    }

    method RunStep(now: Tick)
      requires Valid()
      modifies this
      ensures View() == Step(old(View()), Poll(sensors[..count], now))
    {
      var valid, critical := CountSensors();
      if valid < 2 {
        return;
      }
      var shutdown := critical >= 2;
      var recover := valid == count && critical == 0;
      match state
      case Cool =>
        if shutdown {
          startTick := now;
          state := Warned;
        }
      case Warned =>
        if recover {
          state := Cool;
          return;
        }
        if Elapsed(now, startTick) >= MIN_PERIOD {
          state := Shutdown;
        }
      case Shutdown =>
        if recover {
          state := Cool;
        }
    }

    method ClearShutdown()
      modifies this
      ensures View() == Step(old(View()), Clear)
    {
      state := Cool;
    }
  }
}
