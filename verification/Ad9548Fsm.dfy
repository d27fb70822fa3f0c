// Model of dev/ad9548/dev_ad9548_fsm.c with the status reads of
// dev/ad9548/ad9548_status.c. What the bus and the clock answer is an input.
module Ad9548Fsm {
  import opened PllStates
  import opened Recovery

  // The answers to one step's calls; those not made are ignored. identity is the outcome
  // of ad9548_check_id, with the word it compares. now is the clock when the state's
  // age is taken, stamp at the end.
  datatype Answers = Answers(
    enable: bool, gpioTest: bool, configureSpi: bool, detect: bool, setupSysclk: bool, calibrate: bool,
    sysclk: Register, setup: bool, identity: Register, pollIrq: bool, statusSysclk: Register, statusRest: bool,
    now: Tick, stamp: Tick)

  // locked, stable and not calibrating
  predicate IsLocked(word: bv8) { word & 1 != 0 && word & 16 != 0 && word & 2 == 0 }

  // ---------- one enabled step, in three parts ----------

  function Act(s: Pll, i: Answers): Pll {
    var age := Elapsed(i.now, s.start);
    match s.state
    case Init => s.(state := if i.gpioTest then Reset else Error)
    case Reset =>
      if !i.configureSpi then s
      else if i.detect then s.(status := Normal, state := SetupSysclk)
      else s.(status := Fail, state := if age > 2000 then Error else Reset)
    case SetupSysclk => s.(state := if i.setupSysclk && i.calibrate then SysclkWaitLock else Error)
    case SysclkWaitLock =>
      var word := Store(i.sysclk, s.sysclk);
      s.(sysclk := word,
         state := if age > 2000 then Error
                  else if IsLocked(word) then Setup
                  else if i.sysclk.Failed? then Error else SysclkWaitLock)
    case Setup => s.(state := if i.setup then Run else Error)
    case Run => if LockedBit(s.sysclk) then s.(count := 0) else s.(state := SysclkWaitLock)
    case Error =>
      if s.count > 3 then s.(state := Fatal)
      else if age > 1000 then s.(count := s.count + 1, state := Init)
      else s
    case Fatal => if age > 2000 then s.(status := Fail, count := 0, state := Init) else s.(status := Fail)
  }

  function CheckPresence(s: Pll, i: Answers): Pll {
    if !s.state.Detected() then s.(sysclk := 0)
    else if i.identity.Failed? then s.(state := Error)
    else s
  }

  function ReadStatus(s: Pll, i: Answers): Pll {
    if s.state != Run then s
    else
      var word := Store(i.statusSysclk, s.sysclk);
      var good := i.pollIrq && i.statusSysclk.Read? && word != 0xFF && i.statusRest;
      s.(sysclk := word, state := if good then Run else Error)
  }

  function Step(s: Pll, i: Answers): Pll {
    if !i.enable then
      if s.state == Init then s else s.(state := Init, status := Unknown)
    else
      var after := ReadStatus(CheckPresence(Act(s, i), i), i);
      if after.state == s.state then after else after.(start := i.stamp)
  }

  // ---------- the retry discipline ----------

  function BeatOf(s: Pll, i: Answers): Beat { Beat(i.enable, LockedBit(s.sysclk), i.now, i.stamp) }

  function Fsm(): Machine<Pll, Answers> { Machine(PowerUp(), Step, SnapOf, BeatOf) }

  lemma ActIsDisciplined(s: Pll, i: Answers)
    ensures var t := Act(s, i);
            && t.start == s.start
            && Next(SnapOf(s), BeatOf(s, i).(enabled := true, stamp := s.start), SnapOf(t))
  {
    hide IsLocked, LockedBit, Store;
    match s.state
    case Error =>
    case Fatal =>
    case SysclkWaitLock =>
    case Run =>
    case _ =>
  }

  // The reads after the switch can only turn a detected state into ERROR.
  lemma ReadsOnlyFail(s: Pll, i: Answers)
    ensures var t := ReadStatus(CheckPresence(s, i), i);
            && t.count == s.count && t.start == s.start
            && (t.state == s.state || (s.state.Detected() && t.state == Error))
  {
  }

  lemma StepIsDisciplined(s: Pll, i: Answers)
    ensures Next(SnapOf(s), BeatOf(s, i), SnapOf(Step(s, i)))
  {
    hide Act, CheckPresence, ReadStatus, LockedBit;
    ActIsDisciplined(s, i);
    ReadsOnlyFail(Act(s, i), i);
  }

  lemma Disciplined()
    ensures Fsm().Disciplined()
  {
    var m := Fsm();
    forall s: Pll, i: Answers ensures Next(m.snap(s), m.beat(s, i), m.snap(m.step(s, i))) {
      StepIsDisciplined(s, i);
    }
  }

  // A running step can zero the count and then fail its closing reads.
  lemma CountIsRetries(inputs: seq<Answers>)
    ensures Fsm().Run(inputs).count <= 4 && Fsm().Run(inputs).count <= Fsm().RetriesSince(inputs)
    ensures Fsm().Run(inputs).count == Fsm().RetriesSince(inputs) <==> !Fsm().SomeForgotten(inputs)
  {
    Disciplined();
    Fsm().CountIsRetries(inputs);
  }

  lemma FatalNeedsFourRetries(inputs: seq<Answers>, i: Answers)
    requires Fsm().Run(inputs).state != Fatal && Step(Fsm().Run(inputs), i).state == Fatal
    ensures Fsm().Run(inputs).state == Error && Fsm().Run(inputs).count == 4 && i.enable
    ensures Fsm().RetriesSince(inputs) >= 4
  {
    hide Step;
    Disciplined();
    Fsm().OneMore(inputs, i);
    Fsm().FatalAfterFourRetries(inputs, i);
  }

  // The reads that close a step in RUN.
  predicate ReadsWell(i: Answers) {
    i.identity.Read? && i.pollIrq && i.statusSysclk.Read? && i.statusSysclk.word != 0xFF && i.statusRest
  }

  // What it takes to stay in RUN. The identity's value is not among it.
  predicate RunsWell(s: Pll, i: Answers) { LockedBit(s.sysclk) && ReadsWell(i) }

  lemma RunSurvivesAnyIdentity(s: Pll, i: Answers)
    requires s.state == Run && i.enable
    ensures Step(s, i).state == Run <==> RunsWell(s, i)
    ensures forall w :: i.identity.Read? ==> Step(s, i.(identity := Read(w))) == Step(s, i)
  {
    hide LockedBit, IsLocked, Elapsed, Act;
    RunAct(s, i);
    if i.identity.Read? {
      forall w ensures Step(s, i.(identity := Read(w))) == Step(s, i) { RunAct(s, i.(identity := Read(w))); }
    }
  }

  lemma RunAct(s: Pll, i: Answers)
    requires s.state == Run
    ensures Act(s, i) == if LockedBit(s.sysclk) then s.(count := 0) else s.(state := SysclkWaitLock)
  {
  }

  // So the count is zeroed in vain exactly when the stored lock is there but a
  // closing read fails.
  lemma ClearedInVainWhen(s: Pll, i: Answers)
    ensures Fsm().ClearsInVain(s, i) <==>
              s.state == Run && i.enable && LockedBit(s.sysclk) && !RunsWell(s, i)
  {
    hide LockedBit, RunsWell, Step;
    if s.state == Run && i.enable { RunSurvivesAnyIdentity(s, i); }
  }

  // ---------- a chip that fails every running step ----------

  function AllWell(t: Tick): Answers {
    Answers(true, true, true, true, true, true, Read(17), true, Read(0x48), true, Read(17), true, t, t)
  }

  // The identity read fails in the first and only running step.
  function FailingCycle(t: Tick): seq<Answers> {
    var ok := AllWell(t);
    [ok, ok, ok, ok, ok, ok, ok.(identity := Failed)]
  }

  // A failing GPIO test, then n retries that end so.
  function FailingRun(n: nat): seq<Answers> {
    if n == 0 then [AllWell(0).(gpioTest := false)] else FailingRun(n - 1) + FailingCycle(TickAt(n))
  }

  lemma FirstFailure()
    ensures Fsm().Run(FailingRun(0)) == PowerUp().(state := Error) && Fsm().RetriesSince(FailingRun(0)) == 0
    ensures !Fsm().GaveUp(FailingRun(0))
  {
    var first := AllWell(0).(gpioTest := false);
    Fsm().OneMore([], first);
    assert [] + [first] == FailingRun(0);
  }

  lemma CycleSteps(s: Pll, t: Tick)
    requires s.state == Error && s.count == 0 && Elapsed(t, s.start) > 1000
    ensures var ok, s1 := AllWell(t), Pll(Init, s.status, 1, t, 0);
            var s2 := s1.(state := Reset);
            var s3 := s2.(state := SetupSysclk, status := Normal);
            var s4 := s3.(state := SysclkWaitLock);
            var s5 := s4.(state := Setup, sysclk := 17);
            var s6 := s5.(state := Run);
            && Step(s, ok) == s1 && Step(s1, ok) == s2 && Step(s2, ok) == s3 && Step(s3, ok) == s4
            && Step(s4, ok) == s5 && Step(s5, ok) == s6
            && Step(s6, ok.(identity := Failed)) == s6.(state := Error, count := 0)
  {
  }

  lemma OneCycle(inputs: seq<Answers>, t: Tick)
    requires var s := Fsm().Run(inputs); s.state == Error && s.count == 0 && Elapsed(t, s.start) > 1000
    ensures var s := Fsm().Run(inputs + FailingCycle(t)); s.state == Error && s.count == 0 && s.start == t
    ensures Fsm().RetriesSince(inputs + FailingCycle(t)) == Fsm().RetriesSince(inputs) + 1
    ensures Fsm().GaveUp(inputs + FailingCycle(t)) == Fsm().GaveUp(inputs)
  {
    hide Step;
    var ok := AllWell(t);
    CycleSteps(Fsm().Run(inputs), t);
    Fsm().OneMore(inputs, ok);
    var i1 := inputs + [ok];
    Fsm().OneMore(i1, ok);
    var i2 := i1 + [ok];
    Fsm().OneMore(i2, ok);
    var i3 := i2 + [ok];
    Fsm().OneMore(i3, ok);
    var i4 := i3 + [ok];
    Fsm().OneMore(i4, ok);
    var i5 := i4 + [ok];
    Fsm().OneMore(i5, ok);
    var i6 := i5 + [ok];
    Fsm().OneMore(i6, ok.(identity := Failed));
    assert inputs + FailingCycle(t) == i6 + [ok.(identity := Failed)];
  }

  // The machine retries for ever and never declares the error fatal: each failing
  // running step has zeroed the count.
  lemma {:induction false} FailingForever(n: nat)
    ensures var s := Fsm().Run(FailingRun(n)); s.state == Error && s.count == 0 && s.start == TickAt(n)
    ensures Fsm().RetriesSince(FailingRun(n)) == n
    ensures !Fsm().GaveUp(FailingRun(n))
  {
    hide Step, FailingCycle, AllWell, TickAt, Elapsed;
    if n == 0 {
      FirstFailure();
      TickAfter(0);
    } else {
      FailingForever(n - 1);
      TickAfter(n - 1);
      OneCycle(FailingRun(n - 1), TickAt(n));
    }
  }

  // ---------- the system-clock word ----------

  predicate Inv(s: Pll) {
    && (s.state.Detected() ==> s.status == Normal)
    && (s.state.Reset? || s.state.SetupSysclk? ==> s.sysclk == 0)
    && (s.state.SysclkWaitLock? ==> !IsLocked(s.sysclk))
  }

  lemma NoBitsNotLocked()
    ensures !IsLocked(0)
  {
  }

  lemma NoLockedBit(word: bv8)
    requires !LockedBit(word)
    ensures !IsLocked(word)
  {
  }

  lemma ActKeepsInv(s: Pll, i: Answers)
    requires Inv(s)
    ensures var t := CheckPresence(Act(s, i), i); t.state == Error || Inv(t)
  {
    hide IsLocked, LockedBit, Store, Elapsed;
    NoBitsNotLocked();
    if !LockedBit(s.sysclk) { NoLockedBit(s.sysclk); }
  }

  lemma StepKeepsInv(s: Pll, i: Answers)
    requires Inv(s)
    ensures Inv(Step(s, i))
  {
    hide IsLocked, Act, CheckPresence, Store;
    if i.enable { ActKeepsInv(s, i); }
  }

  lemma {:induction false} InvAlways(inputs: seq<Answers>)
    ensures Inv(Fsm().Run(inputs))
    decreases |inputs|
  {
    hide IsLocked, LockedBit, Step;
    NoBitsNotLocked();
    if inputs == [] {
    } else {
      InvAlways(inputs[..|inputs| - 1]);
      StepKeepsInv(Fsm().Run(inputs[..|inputs| - 1]), inputs[|inputs| - 1]);
    }
  }

  // Main result: the wait for the system clock ends in SETUP exactly when this step's
  // read succeeds, shows a lock in time, and the identity read succeeds. The failed
  // read falls through to a test of the stored word, which never shows a lock.
  lemma LockOnlyFromFreshRead(inputs: seq<Answers>, i: Answers)
    requires Fsm().Run(inputs).state == SysclkWaitLock && i.enable
    ensures Step(Fsm().Run(inputs), i).state == Setup <==>
              && i.sysclk.Read? && IsLocked(i.sysclk.word)
              && Elapsed(i.now, Fsm().Run(inputs).start) <= 2000 && i.identity.Read?
  {
    hide IsLocked, Elapsed;
    InvAlways(inputs);
  }

  // The invariant is needed: from a stored lock, which no run reaches, a failed read
  // would advance.
  lemma FallThroughTrustsStoredWord(s: Pll, i: Answers)
    requires s.state == SysclkWaitLock && i.enable && i.sysclk == Failed && i.identity.Read?
    ensures Step(s, i).state == Setup <==> IsLocked(s.sysclk) && Elapsed(i.now, s.start) <= 2000
  {
  }

  lemma DetectedIsNormal(inputs: seq<Answers>)
    ensures var s := Fsm().Run(inputs); s.state.Detected() ==> s.status == Normal
  {
    InvAlways(inputs);
  }

  // ---------- where every step leads ----------

  // Where an enabled step leads from a state entered age ticks ago.
  predicate Leads(s: Pll, age: int, i: Answers, to: FsmState) {
    match s.state
    case Init => to == if i.gpioTest then Reset else Error
    case Reset =>
      && (to == Error <==> i.configureSpi && if i.detect then i.identity.Failed? else age > 2000)
      && (to == SetupSysclk <==> i.configureSpi && i.detect && i.identity.Read?)
      && (to == Error || to == SetupSysclk || to == Reset)
    case SetupSysclk =>
      to == if i.setupSysclk && i.calibrate && i.identity.Read? then SysclkWaitLock else Error
    case SysclkWaitLock =>
      && (to == Error <==> i.sysclk.Failed? || i.identity.Failed? || age > 2000)
      && (to != Error ==> to == if IsLocked(i.sysclk.word) then Setup else SysclkWaitLock)
    case Setup => to == if i.setup && ReadsWell(i) then Run else Error
    case Run =>
      to == if LockedBit(s.sysclk) then (if ReadsWell(i) then Run else Error)
            else if i.identity.Read? then SysclkWaitLock else Error
    case Error => to == if s.count > 3 then Fatal else if age > 1000 then Init else Error
    case Fatal => to == if age > 2000 then Init else Fatal
  }

  // Main result: in any run, where an enabled step leads, and so when it fails. Ages are
  // counted from the clock reading at which the state was entered.
  lemma StepLeads(inputs: seq<Answers>, i: Answers)
    requires i.enable
    ensures Leads(Fsm().Run(inputs), Elapsed(i.now, Fsm().Entered(inputs)), i, Step(Fsm().Run(inputs), i).state)
  {
    hide IsLocked, LockedBit, Elapsed, Leads, Step;
    Disciplined();
    Fsm().TimedFromEntry(inputs);
    InvAlways(inputs);
    LeadsFrom(Fsm().Run(inputs), i);
    if Fsm().Run(inputs).state == Init { IdleIgnoresAge(Fsm().Run(inputs), i); }
  }

  lemma LeadsFrom(s: Pll, i: Answers)
    requires i.enable && Inv(s)
    ensures Leads(s, Elapsed(i.now, s.start), i, Step(s, i).state)
  {
    hide IsLocked, LockedBit;
    match s.state
    case Init =>
    case Reset =>
    case SetupSysclk =>
    case SysclkWaitLock =>
    case Setup =>
    case Run =>
    case Error =>
    case Fatal =>
  }

  lemma IdleIgnoresAge(s: Pll, i: Answers)
    requires s.state == Init
    ensures forall age, other, to :: Leads(s, age, i, to) == Leads(s, other, i, to)
  {
  }

  // The word a RUN step tests is the one the step before read.
  lemma StepIntoRun(s: Pll, i: Answers)
    requires Step(s, i).state == Run
    ensures i.statusSysclk.Read? && Step(s, i).sysclk == i.statusSysclk.word
  {
    hide IsLocked, LockedBit, Elapsed, Act, CheckPresence;
  }

  // So a lost lock is noticed one step later: RUN goes to WAITLOCK if and only if the
  // last status word does not show the lock and the identity can be read.
  lemma LostLockIsNoticed(inputs: seq<Answers>, i: Answers)
    requires i.enable && Fsm().Run(inputs).state == Run
    ensures inputs != [] && inputs[|inputs| - 1].statusSysclk.Read?
    ensures var last := inputs[|inputs| - 1].statusSysclk.word;
            Step(Fsm().Run(inputs), i).state == SysclkWaitLock <==> !LockedBit(last) && i.identity.Read?
  {
    hide IsLocked, LockedBit, Leads, Step;
    if inputs != [] {
      var n := |inputs| - 1;
      assert Fsm().Run(inputs) == Step(Fsm().Run(inputs[..n]), inputs[n]);
      StepIntoRun(Fsm().Run(inputs[..n]), inputs[n]);
      StepLeads(inputs, i);
      RunLeads(Fsm().Run(inputs), Elapsed(i.now, Fsm().Entered(inputs)), i, Step(Fsm().Run(inputs), i).state);
    }
  }

  lemma RunLeads(s: Pll, age: int, i: Answers, to: FsmState)
    requires s.state == Run && Leads(s, age, i, to)
    ensures to == SysclkWaitLock <==> !LockedBit(s.sysclk) && i.identity.Read?
  {
    hide LockedBit;
  }

  // The device status changes in three places only.
  lemma StatusExactly(s: Pll, i: Answers)
    ensures Step(s, i).status ==
              if !i.enable then (if s.state == Init then s.status else Unknown)
              else if s.state == Reset && i.configureSpi then (if i.detect then Normal else Fail)
              else if s.state == Fatal then Fail
              else s.status
  {
    hide IsLocked, LockedBit, Store, CheckPresence, ReadStatus;
    ReadsKeepStatus(Act(s, i), i);
    match s.state
    case Reset =>
    case Fatal =>
    case _ =>
  }

  lemma ReadsKeepStatus(s: Pll, i: Answers)
    ensures ReadStatus(CheckPresence(s, i), i).status == s.status
  {
  }

  // Locked is bit 0, stable bit 4, calibrating bit 1.
  lemma LockBits(word: bv8)
    ensures LockedBit(word) <==> (word as int) % 2 == 1
    ensures IsLocked(word) <==> LockedBit(word) && (word >> 4) & 1 == 1 && (word >> 1) & 1 == 0
  {
  }

  // ---------- bring-up ----------

  function StateAt(inputs: seq<Answers>, n: nat): FsmState
    requires n <= |inputs|
  {
    Fsm().Run(inputs[..n]).state
  }

  predicate Moves(inputs: seq<Answers>, n: nat, from: FsmState, to: FsmState) {
    n < |inputs| && StateAt(inputs, n) == from && StateAt(inputs, n + 1) == to
  }

  predicate DetectedSince(inputs: seq<Answers>, n: nat) {
    n < |inputs| && forall p :: n < p <= |inputs| ==> StateAt(inputs, p).Detected()
  }

  // How the switch can arrive in, or stay in, a detected state.
  lemma ActArrives(s: Pll, i: Answers)
    requires Act(s, i).state.Detected()
    ensures match Act(s, i).state
            case SetupSysclk => s.state == Reset && i.configureSpi && i.detect
            case SysclkWaitLock =>
              || (s.state == SetupSysclk && i.setupSysclk && i.calibrate)
              || s.state == SysclkWaitLock || s.state == Run
            case Setup => s.state == SysclkWaitLock
            case Run => (s.state == Setup && i.setup) || s.state == Run
            case _ => true
  {
    hide IsLocked, LockedBit, Store;
    match s.state
    case Error =>
    case Fatal =>
    case _ =>
  }

  lemma ReadsPass(s: Pll, i: Answers)
    requires ReadStatus(CheckPresence(s, i), i).state.Detected()
    ensures ReadStatus(CheckPresence(s, i), i).state == s.state && i.identity.Read?
    ensures s.state == Run ==> i.pollIrq && i.statusSysclk.Read? && i.statusRest
  {
    hide Store;
  }

  lemma DetectedSteps(s: Pll, i: Answers)
    requires Step(s, i).state.Detected()
    ensures i.enable && i.identity.Read? && Step(s, i).state == Act(s, i).state
    ensures match Step(s, i).state
            case SetupSysclk => s.state == Reset && i.configureSpi && i.detect
            case SysclkWaitLock =>
              || (s.state == SetupSysclk && i.setupSysclk && i.calibrate)
              || s.state == SysclkWaitLock || s.state == Run
            case Setup => s.state == SysclkWaitLock
            case Run =>
              && i.pollIrq && i.statusSysclk.Read? && i.statusRest
              && ((s.state == Setup && i.setup) || s.state == Run)
            case _ => true
  {
    hide Act, CheckPresence, ReadStatus;
    if i.enable {
      ReadsPass(Act(s, i), i);
      ActArrives(s, i);
    }
  }

  lemma LastMove(inputs: seq<Answers>)
    requires inputs != []
    ensures var n := |inputs| - 1;
            && StateAt(inputs, n) == Fsm().Run(inputs[..n]).state
            && StateAt(inputs, n + 1) == Fsm().Run(inputs).state == Step(Fsm().Run(inputs[..n]), inputs[n]).state
  {
    hide Step;
    assert inputs[..|inputs|] == inputs;
  }

  lemma SameStates(inputs: seq<Answers>, n: nat, p: nat)
    requires p <= n <= |inputs|
    ensures StateAt(inputs[..n], p) == StateAt(inputs, p)
  {
    assert inputs[..n][..p] == inputs[..p];
  }

  lemma MovesGrow(inputs: seq<Answers>, n: nat, p: nat, from: FsmState, to: FsmState)
    requires n <= |inputs| && Moves(inputs[..n], p, from, to)
    ensures p < n && Moves(inputs, p, from, to)
  {
    hide StateAt;
    SameStates(inputs, n, p);
    SameStates(inputs, n, p + 1);
  }

  lemma DetectedGrows(inputs: seq<Answers>, p: nat)
    requires inputs != [] && DetectedSince(inputs[..|inputs| - 1], p) && Fsm().Run(inputs).state.Detected()
    ensures DetectedSince(inputs, p)
  {
    hide StateAt, Step;
    var n := |inputs| - 1;
    LastMove(inputs);
    forall q: nat | p < q <= |inputs| ensures StateAt(inputs, q).Detected() {
      if q <= n {
        SameStates(inputs, n, q);
        assert StateAt(inputs[..n], q).Detected();
      }
    }
  }

  // The last step of a run that ends in a detected state.
  lemma LastStage(inputs: seq<Answers>)
    requires Fsm().Run(inputs).state.Detected()
    ensures inputs != []
    ensures var n := |inputs| - 1;
            var was, now := Fsm().Run(inputs[..n]).state, Fsm().Run(inputs).state;
            && Moves(inputs, n, was, now)
            && (was == Reset || was.Detected()) && (was == Reset <==> now == SetupSysclk)
            && (now == SysclkWaitLock ==> was == SetupSysclk || was == SysclkWaitLock || was == Run)
            && (now == Setup ==> was == SysclkWaitLock) && (now == Run ==> was == Setup || was == Run)
            && (was == Reset ==> DetectedSince(inputs, n))
  {
    hide Step;
    assert inputs != [];
    LastMove(inputs);
    DetectedSteps(Fsm().Run(inputs[..|inputs| - 1]), inputs[|inputs| - 1]);
  }

  // The steps that brought the chip up to its present detected state, in order.
  lemma {:induction false} Stages(inputs: seq<Answers>) returns (i: nat, j: nat, k: nat, m: nat)
    requires Fsm().Run(inputs).state.Detected()
    ensures var s := Fsm().Run(inputs).state;
            && Moves(inputs, i, Reset, SetupSysclk) && DetectedSince(inputs, i)
            && (s != SetupSysclk ==> i < j && Moves(inputs, j, SetupSysclk, SysclkWaitLock))
            && (s == Setup || s == Run ==> j < k && Moves(inputs, k, SysclkWaitLock, Setup))
            && (s == Run ==> k < m && Moves(inputs, m, Setup, Run))
    decreases |inputs|
  {
    hide Step, StateAt, Moves, DetectedSince;
    LastStage(inputs);
    var n := |inputs| - 1;
    var was, now := Fsm().Run(inputs[..n]).state, Fsm().Run(inputs).state;
    if was == Reset {
      i, j, k, m := n, 0, 0, 0;
    } else {
      i, j, k, m := Stages(inputs[..n]);
      DetectedGrows(inputs, i);
      MovesGrow(inputs, n, i, Reset, SetupSysclk);
      if was == SetupSysclk { j := n; } else { MovesGrow(inputs, n, j, SetupSysclk, SysclkWaitLock); }
      if now == Setup { k := n; } else if was == Setup || was == Run { MovesGrow(inputs, n, k, SysclkWaitLock, Setup); }
      if was == Setup { m := n; } else if was == Run { MovesGrow(inputs, n, m, Setup, Run); }
    }
  }

  // Main result: a running machine was brought up by a detection, a set-up and
  // calibration of the system clock, a fresh read that showed its lock, and a set-up,
  // in this order, enabled and with a readable identity at every step since.
  lemma RunWasBroughtUp(inputs: seq<Answers>) returns (i: nat, j: nat, k: nat, m: nat)
    requires Fsm().Run(inputs).state == Run
    ensures i < j < k < m < |inputs|
    ensures inputs[i].configureSpi && inputs[i].detect
    ensures inputs[j].setupSysclk && inputs[j].calibrate
    ensures inputs[k].sysclk.Read? && IsLocked(inputs[k].sysclk.word)
    ensures inputs[m].setup
    ensures forall p :: i <= p < |inputs| ==> inputs[p].enable && inputs[p].identity.Read?
    ensures forall p :: i < p <= |inputs| ==> StateAt(inputs, p).Detected()
  {
    hide Step, IsLocked;
    i, j, k, m := Stages(inputs);
    forall p: nat | i <= p < |inputs| ensures inputs[p].enable && inputs[p].identity.Read? { StepInto(inputs, p); }
    StepInto(inputs, i);
    StepInto(inputs, j);
    StepInto(inputs, k);
    StepInto(inputs, m);
    LockOnlyFromFreshRead(inputs[..k], inputs[k]);
  }

  lemma StepInto(inputs: seq<Answers>, p: nat)
    requires p < |inputs| && StateAt(inputs, p + 1).Detected()
    ensures StateAt(inputs, p + 1) == Step(Fsm().Run(inputs[..p]), inputs[p]).state
    ensures inputs[p].enable && inputs[p].identity.Read?
    ensures Moves(inputs, p, Reset, SetupSysclk) ==> inputs[p].configureSpi && inputs[p].detect
    ensures Moves(inputs, p, SetupSysclk, SysclkWaitLock) ==> inputs[p].setupSysclk && inputs[p].calibrate
    ensures Moves(inputs, p, Setup, Run) ==> inputs[p].setup
  {
    hide Step;
    var to := inputs[..p + 1];
    assert to[..p] == inputs[..p] && to[p] == inputs[p];
    LastMove(to);
    DetectedSteps(Fsm().Run(inputs[..p]), inputs[p]);
  }

  // ---------- the step function ----------

  class Device {
    var state: FsmState
    var status: DeviceStatus
    var count: nat
    var start: Tick
    var sysclk: bv8

    function View(): Pll
      reads this
    {
      Pll(state, status, count, start, sysclk)
    }

    constructor ()
      ensures View() == PowerUp()
    {
      state, status, count, start, sysclk := Init, Unknown, 0, 0, 0;
    }

    method ReadSysclk(register: Register) returns (ok: bool)
      modifies this`sysclk
      ensures ok == register.Read? && sysclk == Store(register, old(sysclk))
    {
      match register
      case Failed =>
        ok := false;
      case Read(word) =>
        sysclk := word;
        ok := true;
    }

    method Switch(i: Answers)
      modifies this
      ensures View() == Act(old(View()), i)
    {
      hide IsLocked, LockedBit;
      match state
      case Init =>
        if i.gpioTest {
          state := Reset;
        } else {
          state := Error;
        }
      case Reset =>
        if !i.configureSpi {
          return;
        }
        status := if i.detect then Normal else Fail;
        if status == Normal {
          state := SetupSysclk;
          return;
        }
        if Elapsed(i.now, start) > 2000 {
          state := Error;
        }
      case SetupSysclk =>
        if !i.setupSysclk {
          state := Error;
          return;
        }
        if !i.calibrate {
          state := Error;
          return;
        }
        state := SysclkWaitLock;
      case SysclkWaitLock =>
        var ok := ReadSysclk(i.sysclk);
        if !ok {
          state := Error;
        }
        if IsLocked(sysclk) {
          state := Setup;
        }
        if Elapsed(i.now, start) > 2000 {
          state := Error;
        }
      case Setup =>
        if !i.setup {
          state := Error;
          return;
        }
        state := Run;
      case Run =>
        if !LockedBit(sysclk) {
          state := SysclkWaitLock;
          return;
        }
        count := 0;
      case Error =>
        if count > 3 {
          state := Fatal;
          return;
        }
        if Elapsed(i.now, start) > 1000 {
          count := count + 1;
          state := Init;
        }
      case Fatal =>
        status := Fail;
        if Elapsed(i.now, start) > 2000 {
          count := 0;
          state := Init;
        }
    }

    method Poll(i: Answers)
      modifies this`state, this`sysclk
      requires state == Run
      ensures View() == ReadStatus(old(View()), i)
    {
      if !i.pollIrq {
        state := Error;
      }
      var ok := ReadSysclk(i.statusSysclk);
      ok := ok && sysclk != 0xFF && i.statusRest;
      if !ok {
        state := Error;
      }
    }

    method RunStep(i: Answers)
      modifies this
      ensures View() == Step(old(View()), i)
    {
      hide IsLocked, LockedBit, Act, ReadStatus;
      if !i.enable {
        if state != Init {
          state := Init;
          status := Unknown;
        }
        return;
      }
      var oldState := state;
      Switch(i);
      if state.Detected() {
        if i.identity.Failed? {
          state := Error;
        }
      } else {
        sysclk := 0;
      }
      if state == Run {
        Poll(i);
      } else {
        NoPoll(View(), i);
      }
      if oldState != state {
        start := i.stamp;
      }
    }
  }

  lemma NoPoll(s: Pll, i: Answers)
    requires s.state != Run
    ensures ReadStatus(s, i) == s
  {
  }
}
