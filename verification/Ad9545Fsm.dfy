// Model of dev/ad9545/dev_ad9545_fsm.c. What the bus and the clock answer is an input.
module Ad9545Fsm {
  import opened PllStates
  import opened Recovery

  // The answers to one step's calls; those not made are ignored. commands is the
  // result of poll_ad9545_commands.
  datatype Answers = Answers(
    enable: bool, gpioTest: bool, detect: bool, softwareReset: bool, setupSysclk: bool, calibrate: bool,
    setup: bool, commands: bool, sysclk: Register, statusSysclk: Register, statusRest: bool,
    now: Tick, stamp: Tick)

  predicate IsLocked(word: bv8) { word & 1 != 0 && word & 2 != 0 }

  // ---------- one enabled step, in two parts ----------

  function Act(s: Pll, i: Answers): Pll {
    var age := Elapsed(i.now, s.start);
    match s.state
    case Init => s.(state := if i.gpioTest then Reset else Error)
    case Reset =>
      if i.detect then s.(status := Normal, state := if i.softwareReset then SetupSysclk else Error)
      else s.(status := Fail, state := if age > 2000 then Error else Reset)
    case SetupSysclk => s.(state := if i.setupSysclk && i.calibrate then SysclkWaitLock else Error)
    case SysclkWaitLock =>
      s.(state := if age > 2000 then Error else if IsLocked(s.sysclk) then Setup else SysclkWaitLock)
    case Setup => s.(state := if i.setup then Run else Error)
    case Run => if LockedBit(s.sysclk) && i.commands then s.(count := 0) else s.(state := Error)
    case Error =>
      if s.count > 3 then s.(state := Fatal)
      else if age > 1000 then s.(count := s.count + 1, state := Init)
      else s
    case Fatal => if age > 2000 then s.(status := Fail, count := 0, state := Init) else s.(status := Fail)
  }

  function ReadBack(s: Pll, i: Answers): Pll {
    if !s.state.Detected() then s.(sysclk := 0)
    else
      var word := Store(i.sysclk, s.sysclk);
      if i.sysclk.Failed? then s.(sysclk := word, state := Error)
      else if s.state != Run then s.(sysclk := word)
      else
        s.(sysclk := Store(i.statusSysclk, word),
           state := if i.statusSysclk.Read? && i.statusRest then Run else Error)
  }

  function Step(s: Pll, i: Answers): Pll {
    if !i.enable then
      if s.state == Init then s else s.(state := Init, status := Unknown)
    else
      var after := ReadBack(Act(s, i), i);
      if after.state == s.state then after else after.(start := i.stamp)
  }

  // ---------- the retry discipline ----------

  function BeatOf(s: Pll, i: Answers): Beat {
    Beat(i.enable, LockedBit(s.sysclk) && i.commands, i.now, i.stamp)
  }

  function Fsm(): Machine<Pll, Answers> { Machine(PowerUp(), Step, SnapOf, BeatOf) }

  lemma ActIsDisciplined(s: Pll, i: Answers)
    ensures var t := Act(s, i);
            && t.start == s.start
            && Next(SnapOf(s), BeatOf(s, i).(enabled := true, stamp := s.start), SnapOf(t))
  {
    hide IsLocked, LockedBit;
    match s.state
    case Error =>
    case Fatal =>
    case Run =>
    case _ =>
  }

  // The reads after the switch can only turn a detected state into ERROR.
  lemma ReadsOnlyFail(s: Pll, i: Answers)
    ensures var t := ReadBack(s, i);
            && t.count == s.count && t.start == s.start
            && (t.state == s.state || (s.state.Detected() && t.state == Error))
  {
  }

  lemma StepIsDisciplined(s: Pll, i: Answers)
    ensures Next(SnapOf(s), BeatOf(s, i), SnapOf(Step(s, i)))
  {
    hide Act, ReadBack, LockedBit;
    ActIsDisciplined(s, i);
    ReadsOnlyFail(Act(s, i), i);
  }

  lemma Disciplined()
    ensures Fsm().Disciplined()
  {
    var m := Fsm();
    forall s: Pll, i: Answers ensures Next(m.snap(s), m.beat(s, i), m.snap(m.step(s, i))) {
      StepIsDisciplined(s, i);
    }
  }

  // A running step can zero the count and then fail its closing reads.
  lemma CountIsRetries(inputs: seq<Answers>)
    ensures Fsm().Run(inputs).count <= 4 && Fsm().Run(inputs).count <= Fsm().RetriesSince(inputs)
    ensures Fsm().Run(inputs).count == Fsm().RetriesSince(inputs) <==> !Fsm().SomeForgotten(inputs)
  {
    Disciplined();
    Fsm().CountIsRetries(inputs);
  }

  lemma FatalNeedsFourRetries(inputs: seq<Answers>, i: Answers)
    requires Fsm().Run(inputs).state != Fatal && Step(Fsm().Run(inputs), i).state == Fatal
    ensures Fsm().Run(inputs).state == Error && Fsm().Run(inputs).count == 4 && i.enable
    ensures Fsm().RetriesSince(inputs) >= 4
  {
    hide Step;
    Disciplined();
    Fsm().OneMore(inputs, i);
    Fsm().FatalAfterFourRetries(inputs, i);
  }

  // The reads that close a step in RUN.
  predicate ReadsWell(i: Answers) { i.sysclk.Read? && i.statusSysclk.Read? && i.statusRest }

  // What it takes to stay in RUN.
  predicate RunsWell(s: Pll, i: Answers) { LockedBit(s.sysclk) && i.commands && ReadsWell(i) }

  // The count is zeroed in vain exactly when the stored lock is there and the commands
  // succeed but a closing read fails.
  lemma ClearedInVainWhen(s: Pll, i: Answers)
    ensures s.state == Run && i.enable ==> (Step(s, i).state == Run <==> RunsWell(s, i))
    ensures Fsm().ClearsInVain(s, i) <==>
              s.state == Run && i.enable && LockedBit(s.sysclk) && i.commands && !RunsWell(s, i)
  {
    hide LockedBit;
  }

  // ---------- a chip that fails every running step ----------

  function AllWell(t: Tick): Answers {
    Answers(true, true, true, true, true, true, true, true, Read(3), Read(3), true, t, t)
  }

  // The system-clock read fails in the first and only running step.
  function FailingCycle(t: Tick): seq<Answers> {
    var ok := AllWell(t);
    [ok, ok, ok, ok, ok, ok, ok.(sysclk := Failed)]
  }

  // A failing GPIO test, then n retries that end so.
  function FailingRun(n: nat): seq<Answers> {
    if n == 0 then [AllWell(0).(gpioTest := false)] else FailingRun(n - 1) + FailingCycle(TickAt(n))
  }

  lemma FirstFailure()
    ensures Fsm().Run(FailingRun(0)) == PowerUp().(state := Error) && Fsm().RetriesSince(FailingRun(0)) == 0
    ensures !Fsm().GaveUp(FailingRun(0))
  {
    var first := AllWell(0).(gpioTest := false);
    Fsm().OneMore([], first);
    assert [] + [first] == FailingRun(0);
  }

  lemma CycleSteps(s: Pll, t: Tick)
    requires s.state == Error && s.count == 0 && Elapsed(t, s.start) > 1000
    ensures var ok, s1 := AllWell(t), Pll(Init, s.status, 1, t, 0);
            var s2 := s1.(state := Reset);
            var s3 := s2.(state := SetupSysclk, status := Normal, sysclk := 3);
            var s4 := s3.(state := SysclkWaitLock);
            var s5 := s4.(state := Setup);
            var s6 := s5.(state := Run);
            && Step(s, ok) == s1 && Step(s1, ok) == s2 && Step(s2, ok) == s3 && Step(s3, ok) == s4
            && Step(s4, ok) == s5 && Step(s5, ok) == s6
            && Step(s6, ok.(sysclk := Failed)) == s6.(state := Error, count := 0)
  {
  }

  lemma OneCycle(inputs: seq<Answers>, t: Tick)
    requires var s := Fsm().Run(inputs); s.state == Error && s.count == 0 && Elapsed(t, s.start) > 1000
    ensures var s := Fsm().Run(inputs + FailingCycle(t)); s.state == Error && s.count == 0 && s.start == t
    ensures Fsm().RetriesSince(inputs + FailingCycle(t)) == Fsm().RetriesSince(inputs) + 1
    ensures Fsm().GaveUp(inputs + FailingCycle(t)) == Fsm().GaveUp(inputs)
  {
    hide Step;
    var ok := AllWell(t);
    CycleSteps(Fsm().Run(inputs), t);
    Fsm().OneMore(inputs, ok);
    var i1 := inputs + [ok];
    Fsm().OneMore(i1, ok);
    var i2 := i1 + [ok];
    Fsm().OneMore(i2, ok);
    var i3 := i2 + [ok];
    Fsm().OneMore(i3, ok);
    var i4 := i3 + [ok];
    Fsm().OneMore(i4, ok);
    var i5 := i4 + [ok];
    Fsm().OneMore(i5, ok);
    var i6 := i5 + [ok];
    Fsm().OneMore(i6, ok.(sysclk := Failed));
    assert inputs + FailingCycle(t) == i6 + [ok.(sysclk := Failed)];
  }

  // The machine retries for ever and never declares the error fatal: each failing
  // running step has zeroed the count.
  lemma {:induction false} FailingForever(n: nat)
    ensures var s := Fsm().Run(FailingRun(n)); s.state == Error && s.count == 0 && s.start == TickAt(n)
    ensures Fsm().RetriesSince(FailingRun(n)) == n
    ensures !Fsm().GaveUp(FailingRun(n))
  {
    hide Step, FailingCycle, AllWell, TickAt, Elapsed;
    if n == 0 {
      FirstFailure();
      TickAfter(0);
    } else {
      FailingForever(n - 1);
      TickAfter(n - 1);
      OneCycle(FailingRun(n - 1), TickAt(n));
    }
  }

  // ---------- the system-clock word ----------

  // In a detected state the stored word is the one the last step read, every read of
  // which succeeded.
  predicate Fresh(s: Pll, i: Answers) {
    && s.status == Normal
    && i.enable && i.sysclk.Read?
    && if s.state == Run then i.statusSysclk == Read(s.sysclk) && i.statusRest else i.sysclk == Read(s.sysclk)
  }

  lemma ActKeepsNormal(s: Pll, i: Answers)
    requires s.state.Detected() ==> s.status == Normal
    ensures Act(s, i).state.Detected() ==> Act(s, i).status == Normal
  {
    hide IsLocked, LockedBit;
    match s.state
    case Reset =>
    case SysclkWaitLock =>
    case Error =>
    case _ =>
  }

  lemma ReadBackIsFresh(s: Pll, i: Answers)
    requires i.enable && (s.state.Detected() ==> s.status == Normal)
    requires ReadBack(s, i).state.Detected()
    ensures Fresh(ReadBack(s, i), i)
  {
  }

  lemma StepIsFresh(s: Pll, i: Answers)
    requires s.state.Detected() ==> s.status == Normal
    requires Step(s, i).state.Detected()
    ensures Fresh(Step(s, i), i)
  {
    hide Act, ReadBack;
    ActKeepsNormal(s, i);
    if i.enable { ReadBackIsFresh(Act(s, i), i); }
  }

  // Main result: a decision on the stored word, which both WAITLOCK and RUN make before
  // reading, uses a word read successfully one step earlier.
  lemma {:induction false} StoredWordIsFresh(inputs: seq<Answers>)
    requires Fsm().Run(inputs).state.Detected()
    ensures inputs != [] && Fresh(Fsm().Run(inputs), inputs[|inputs| - 1])
    decreases |inputs|
  {
    hide Step, Fresh;
    assert inputs != [];
    var before := inputs[..|inputs| - 1];
    if Fsm().Run(before).state.Detected() {
      StoredWordIsFresh(before);
      FreshIsNormal(Fsm().Run(before), before[|before| - 1]);
    }
    StepIsFresh(Fsm().Run(before), inputs[|inputs| - 1]);
  }

  // The wait for the system clock ends on the previous step's word, in time, if this
  // step's own read does not fail.
  lemma LockUsesLastRead(inputs: seq<Answers>, i: Answers)
    requires Fsm().Run(inputs).state == SysclkWaitLock && i.enable
    ensures inputs != [] && inputs[|inputs| - 1].sysclk.Read?
    ensures Step(Fsm().Run(inputs), i).state == Setup <==>
              && IsLocked(inputs[|inputs| - 1].sysclk.word)
              && Elapsed(i.now, Fsm().Run(inputs).start) <= 2000 && i.sysclk.Read?
  {
    hide IsLocked;
    StoredWordIsFresh(inputs);
  }

  lemma FreshIsNormal(s: Pll, i: Answers)
    requires Fresh(s, i)
    ensures s.status == Normal
  {
  }

  // ---------- where every step leads ----------

  // Where an enabled step leads from a state entered age ticks ago.
  predicate Leads(s: Pll, age: int, i: Answers, to: FsmState) {
    match s.state
    case Init => to == if i.gpioTest then Reset else Error
    case Reset =>
      && (to == Error <==> if i.detect then !i.softwareReset || i.sysclk.Failed? else age > 2000)
      && (to == SetupSysclk <==> i.detect && i.softwareReset && i.sysclk.Read?)
      && (to == Error || to == SetupSysclk || to == Reset)
    case SetupSysclk =>
      to == if i.setupSysclk && i.calibrate && i.sysclk.Read? then SysclkWaitLock else Error
    case SysclkWaitLock =>
      && (to == Error <==> i.sysclk.Failed? || age > 2000)
      && (to != Error ==> to == if IsLocked(s.sysclk) then Setup else SysclkWaitLock)
    case Setup => to == if i.setup && ReadsWell(i) then Run else Error
    case Run => to == if LockedBit(s.sysclk) && i.commands && ReadsWell(i) then Run else Error
    case Error => to == if s.count > 3 then Fatal else if age > 1000 then Init else Error
    case Fatal => to == if age > 2000 then Init else Fatal
  }

  lemma LeadsFrom(s: Pll, i: Answers)
    requires i.enable
    ensures Leads(s, Elapsed(i.now, s.start), i, Step(s, i).state)
  {
    hide IsLocked, LockedBit;
    match s.state
    case Init =>
    case Reset =>
    case SetupSysclk =>
    case SysclkWaitLock =>
    case Setup =>
    case Run =>
    case Error =>
    case Fatal =>
  }

  // Main result: in any run, where an enabled step leads, and so when it fails. Ages are
  // counted from the clock reading at which the state was entered; the word is the
  // stored one, which StoredWordIsFresh describes.
  lemma StepLeads(inputs: seq<Answers>, i: Answers)
    requires i.enable
    ensures Leads(Fsm().Run(inputs), Elapsed(i.now, Fsm().Entered(inputs)), i, Step(Fsm().Run(inputs), i).state)
  {
    hide IsLocked, LockedBit, Elapsed, Leads, Step;
    Disciplined();
    Fsm().TimedFromEntry(inputs);
    LeadsFrom(Fsm().Run(inputs), i);
    if Fsm().Run(inputs).state == Init { IdleIgnoresAge(Fsm().Run(inputs), i); }
  }

  lemma IdleIgnoresAge(s: Pll, i: Answers)
    requires s.state == Init
    ensures forall age, other, to :: Leads(s, age, i, to) == Leads(s, other, i, to)
  {
  }

  // The device status changes in three places only.
  lemma StatusExactly(s: Pll, i: Answers)
    ensures Step(s, i).status ==
              if !i.enable then (if s.state == Init then s.status else Unknown)
              else if s.state == Reset then (if i.detect then Normal else Fail)
              else if s.state == Fatal then Fail
              else s.status
  {
    hide IsLocked, LockedBit, Store, ReadBack;
    ReadsKeepStatus(Act(s, i), i);
    match s.state
    case Reset =>
    case Fatal =>
    case _ =>
  }

  lemma ReadsKeepStatus(s: Pll, i: Answers)
    ensures ReadBack(s, i).status == s.status
  {
  }

  // Locked is bit 0, stable bit 1.
  lemma LockBits(word: bv8)
    ensures LockedBit(word) <==> (word as int) % 2 == 1
    ensures IsLocked(word) <==> LockedBit(word) && (word >> 1) & 1 == 1
  {
  }

  // ---------- the step function ----------

  class Device {
    var state: FsmState
    var status: DeviceStatus
    var count: nat
    var start: Tick
    var sysclk: bv8

    function View(): Pll
      reads this
    {
      Pll(state, status, count, start, sysclk)
    }

    constructor ()
      ensures View() == PowerUp()
    {
      state, status, count, start, sysclk := Init, Unknown, 0, 0, 0;
    }

    method ReadSysclk(register: Register) returns (ok: bool)
      modifies this`sysclk
      ensures ok == register.Read? && sysclk == Store(register, old(sysclk))
    {
      match register
      case Failed =>
        ok := false;
      case Read(word) =>
        sysclk := word;
        ok := true;
    }

    method Switch(i: Answers)
      modifies this`state, this`status, this`count
      ensures View() == Act(old(View()), i)
    {
      hide IsLocked, LockedBit;
      match state
      case Init =>
        if i.gpioTest {
          state := Reset;
        } else {
          state := Error;
        }
      case Reset =>
        status := if i.detect then Normal else Fail;
        if status == Normal {
          if !i.softwareReset {
            state := Error;
            return;
          }
          state := SetupSysclk;
          return;
        }
        if Elapsed(i.now, start) > 2000 {
          state := Error;
        }
      case SetupSysclk =>
        if !i.setupSysclk {
          state := Error;
          return;
        }
        if !i.calibrate {
          state := Error;
          return;
        }
        state := SysclkWaitLock;
      case SysclkWaitLock =>
        if IsLocked(sysclk) {
          state := Setup;
        }
        if Elapsed(i.now, start) > 2000 {
          state := Error;
        }
      case Setup =>
        if !i.setup {
          state := Error;
          return;
        }
        state := Run;
      case Run =>
        if !LockedBit(sysclk) {
          state := Error;
          return;
        }
        if !i.commands {
          state := Error;
          return;
        }
        count := 0;
      case Error =>
        if count > 3 {
          state := Fatal;
          return;
        }
        if Elapsed(i.now, start) > 1000 {
          count := count + 1;
          state := Init;
        }
      case Fatal =>
        status := Fail;
        if Elapsed(i.now, start) > 2000 {
          count := 0;
          state := Init;
        }
    }

    method Refresh(i: Answers)
      modifies this`state, this`sysclk
      ensures View() == ReadBack(old(View()), i)
    {
      if state.Detected() {
        var ok := ReadSysclk(i.sysclk);
        if !ok {
          state := Error;
        }
      } else {
        sysclk := 0;
      }
      if state == Run {
        var ok := ReadSysclk(i.statusSysclk);
        if !(ok && i.statusRest) {
          state := Error;
        }
      }
    }

    method RunStep(i: Answers)
      modifies this
      ensures View() == Step(old(View()), i)
    {
      hide IsLocked, LockedBit, Act, ReadBack;
      if !i.enable {
        if state != Init {
          state := Init;
          status := Unknown;
        }
        return;
      }
      var oldState := state;
      Switch(i);
      Refresh(i);
      if oldState != state {
        start := i.stamp;
      }
    }
  }
}
