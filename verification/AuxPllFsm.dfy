// Model of dev/ad9516/app_task_auxpll_impl.c. What the bus and the clock answer is an
// input.
module AuxPllFsm {
  import opened Recovery

  datatype FsmState = Init | Reset | Setup | Run | Pause | Error | Fatal {
    function Code(): nat {
      match this
      case Init => 0
      case Reset => 1
      case Setup => 2
      case Run => 3
      case Pause => 4
      case Error => 5
      case Fatal => 6
    }

    function PhaseOf(): Phase {
      match this
      case Init => Idle
      case Run => Running
      case Pause => Running
      case Error => Halted
      case Fatal => GivenUp
      case _ => Working
    }
  }

  // The answers to one step's calls; those not made are ignored.
  datatype Answers = Answers(
    enable: bool, softwareReset: bool, detect: bool, setup: bool, readStatus: bool, now: Tick, stamp: Tick)

  datatype Pll = Pll(state: FsmState, status: DeviceStatus, count: nat, start: Tick)

  function Act(s: Pll, i: Answers): Pll {
    var age := Elapsed(i.now, s.start);
    match s.state
    case Init => s.(state := Reset)
    case Reset =>
      if !i.softwareReset then s.(state := Error)
      else if i.detect then s.(status := Normal, state := Setup)
      else s.(status := Fail, state := if age > 2000 then Error else Reset)
    case Setup => s.(state := if i.setup then Run else Error)
    case Run => if i.readStatus then s.(count := 0, state := Pause) else s.(state := Error)
    case Pause => s.(count := 0)
    case Error =>
      if s.count > 3 then s.(state := Fatal)
      else if age > 1000 then s.(count := s.count + 1, state := Init)
      else s
    case Fatal => if age > 2000 then s.(status := Fail, count := 0, state := Init) else s.(status := Fail)
  }

  function Step(s: Pll, i: Answers): Pll {
    if !i.enable then
      if s.state == Init then s else s.(state := Init, status := Unknown)
    else
      var after := Act(s, i);
      if after.state == s.state then after else after.(start := i.stamp)
  }

  // ---------- the retry discipline ----------

  function PowerUp(): Pll { Pll(Init, Unknown, 0, 0) }

  function SnapOf(s: Pll): Snap { Snap(s.state.Code(), s.state.PhaseOf(), s.count, s.start) }

  function BeatOf(s: Pll, i: Answers): Beat { Beat(i.enable, s.state == Pause || i.readStatus, i.now, i.stamp) }

  function Fsm(): Machine<Pll, Answers> { Machine(PowerUp(), Step, SnapOf, BeatOf) }

  lemma StepIsDisciplined(s: Pll, i: Answers)
    ensures Next(SnapOf(s), BeatOf(s, i), SnapOf(Step(s, i)))
  {
    match s.state
    case Error =>
    case Fatal =>
    case Run =>
    case _ =>
  }

  lemma Disciplined()
    ensures Fsm().Disciplined()
  {
    var m := Fsm();
    forall s: Pll, i: Answers ensures Next(m.snap(s), m.beat(s, i), m.snap(m.step(s, i))) {
      StepIsDisciplined(s, i);
    }
  }

  // Here a step that zeroes the count ends running.
  lemma NeverInVain(inputs: seq<Answers>)
    ensures !Fsm().SomeForgotten(inputs)
  {
    forall q ensures !Fsm().ClearsInVainAt(inputs, q) {
    }
  }

  lemma CountIsRetries(inputs: seq<Answers>)
    ensures Fsm().Run(inputs).count == Fsm().RetriesSince(inputs) <= 4
  {
    Disciplined();
    NeverInVain(inputs);
    Fsm().CountIsRetries(inputs);
  }

  lemma FatalNeedsFourRetries(inputs: seq<Answers>, i: Answers)
    requires Fsm().Run(inputs).state != Fatal && Step(Fsm().Run(inputs), i).state == Fatal
    ensures Fsm().Run(inputs).state == Error && Fsm().RetriesSince(inputs) == 4 && i.enable
  {
    hide Step;
    Disciplined();
    Fsm().OneMore(inputs, i);
    CountIsRetries(inputs);
    Fsm().FatalAfterFourRetries(inputs, i);
  }

  // ---------- detection and the paused state ----------

  predicate Inv(s: Pll) {
    && (s.state.Setup? || s.state.Run? || s.state.Pause? ==> s.status == Normal)
    && (s.state.Pause? ==> s.count == 0)
  }

  lemma {:induction false} InvAlways(inputs: seq<Answers>)
    ensures Inv(Fsm().Run(inputs))
    decreases |inputs|
  {
    if inputs == [] {
    } else {
      InvAlways(inputs[..|inputs| - 1]);
    }
  }

  lemma PauseStays(s: Pll, i: Answers)
    requires Inv(s) && s.state == Pause && i.enable
    ensures Step(s, i) == s
  {
  }

  // One good read is the last: from the paused state no bus answer matters, and only
  // disabling leaves it.
  lemma {:induction false} PausedUntilDisabled(inputs: seq<Answers>, more: seq<Answers>)
    requires Fsm().Run(inputs).state == Pause
    requires forall i :: i in more ==> i.enable
    ensures Fsm().Run(inputs + more) == Fsm().Run(inputs)
    decreases |more|
  {
    hide Step;
    if more == [] {
      assert inputs + more == inputs;
    } else {
      var last := more[|more| - 1];
      assert last in more;
      var all := inputs + more;
      assert all[..|all| - 1] == inputs + more[..|more| - 1];
      PausedUntilDisabled(inputs, more[..|more| - 1]);
      InvAlways(inputs);
      PauseStays(Fsm().Run(inputs), last);
    }
  }

  // ---------- where every step leads ----------

  // Where an enabled step leads from a state entered age ticks ago.
  predicate Leads(s: Pll, age: int, i: Answers, to: FsmState) {
    match s.state
    case Init => to == Reset
    case Reset =>
      && (to == Error <==> !i.softwareReset || (!i.detect && age > 2000))
      && (to != Error ==> to == if i.detect then Setup else Reset)
    case Setup => to == if i.setup then Run else Error
    case Run => to == if i.readStatus then Pause else Error
    case Pause => to == Pause
    case Error => to == if s.count > 3 then Fatal else if age > 1000 then Init else Error
    case Fatal => to == if age > 2000 then Init else Fatal
  }

  lemma LeadsFrom(s: Pll, i: Answers)
    requires i.enable
    ensures Leads(s, Elapsed(i.now, s.start), i, Step(s, i).state)
  {
  }

  // Main result: in any run, where an enabled step leads, and so when it fails. Ages are
  // counted from the clock reading at which the state was entered.
  lemma StepLeads(inputs: seq<Answers>, i: Answers)
    requires i.enable
    ensures Leads(Fsm().Run(inputs), Elapsed(i.now, Fsm().Entered(inputs)), i, Step(Fsm().Run(inputs), i).state)
  {
    hide Elapsed, Leads, Step;
    Disciplined();
    Fsm().TimedFromEntry(inputs);
    LeadsFrom(Fsm().Run(inputs), i);
    if Fsm().Run(inputs).state == Init { IdleIgnoresAge(Fsm().Run(inputs), i); }
  }

  lemma IdleIgnoresAge(s: Pll, i: Answers)
    requires s.state == Init
    ensures forall age, other, to :: Leads(s, age, i, to) == Leads(s, other, i, to)
  {
  }

  // The device status changes in three places only.
  lemma StatusExactly(s: Pll, i: Answers)
    ensures Step(s, i).status ==
              if !i.enable then (if s.state == Init then s.status else Unknown)
              else if s.state == Reset && i.softwareReset then (if i.detect then Normal else Fail)
              else if s.state == Fatal then Fail
              else s.status
  {
  }

  // ---------- the step function ----------

  class Device {
    var state: FsmState
    var status: DeviceStatus
    var count: nat
    var start: Tick

    function View(): Pll
      reads this
    {
      Pll(state, status, count, start)
    }

    constructor ()
      ensures View() == PowerUp()
    {
      state, status, count, start := Init, Unknown, 0, 0;
    }

    method Switch(i: Answers)
      requires i.enable
      modifies this`state, this`status, this`count
      ensures View() == Act(old(View()), i)
    {
      match state
      case Init =>
        state := Reset;
      case Reset =>
        if !i.softwareReset {
          state := Error;
          return;
        }
        status := if i.detect then Normal else Fail;
        if status == Normal {
          state := Setup;
          return;
        }
        if Elapsed(i.now, start) > 2000 {
          state := Error;
        }
      case Setup =>
        if !i.setup {
          state := Error;
          return;
        }
        state := Run;
      case Run =>
        if !i.readStatus {
          state := Error;
          return;
        }
        count := 0;
        state := Pause;
      case Pause =>
        count := 0;
      case Error =>
        if count > 3 {
          state := Fatal;
          return;
        }
        if Elapsed(i.now, start) > 1000 {
          count := count + 1;
          state := Init;
        }
      case Fatal =>
        status := Fail;
        if Elapsed(i.now, start) > 2000 {
          count := 0;
          state := Init;
        }
    }

    method RunStep(i: Answers)
      modifies this
      ensures View() == Step(old(View()), i)
    {
      hide Act;
      if !i.enable {
        if state != Init {
          state := Init;
          status := Unknown;
        }
        return;
      }
      var oldState := state;
      Switch(i);
      if oldState != state {
        start := i.stamp;
      }
    }
  }
}
