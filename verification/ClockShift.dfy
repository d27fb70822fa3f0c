// Model of the clock-shift handshake: the requesting task in
// dev/fpga/dev_fpga_board_func.c and the PLL task in dev/ad9545/ad9545_commands.c.
//
// Each task is a sequence of statements on the shared command record; a scheduler
// nothing is assumed about picks which task executes its next statement.
module ClockShift {
  const STEP_PS := 2000
  const CLOCK_PS := 16000

  // ---------- shared record and task-local state ----------

  // The detector register's fields are four bits wide.
  type Nibble = x: int | 0 <= x < 16

  datatype Command = Command(req: int, ack: int, numer: Nibble, denom: Nibble)

  datatype Phaser = Phaser(req: int, start: int, current: int, stop: int, step: int) {
    predicate Complete() { current == stop }

    // Underway from start to stop with the step SetStep chooses.
    predicate Ramping() {
      if start <= stop then step == STEP_PS && start <= current <= stop
      else step == -STEP_PS && stop <= current <= start
    }

    function Distance(): nat { if current <= stop then stop - current else current - stop }
  }

  // Next statement of fpgaBoardSpecificPoll; n and d are its local copy of the
  // detector register's fields.
  datatype FpgaPc =
    | FpgaIdle
    | CheckBusy(n: Nibble, d: Nibble)
    | WriteNumer(n: Nibble, d: Nibble)
    | WriteDenom(n: Nibble, d: Nibble)
    | BumpReq(n: Nibble, d: Nibble)
  {
    predicate Writing() { WriteNumer? || WriteDenom? || BumpReq? }
  }

  // Next statement of poll_ad9545_commands and of the functions it calls.
  datatype PllPc =
    | PollStart    // if (phaser_complete())
    | TestRequest  // if (req != ack)
    | LoadStart    // start_value, current_value and stop_value = Phase_Offset
    | TestShift    // if (denom != 0 && numer != 0)
    | AddShift     // stop_value += 16000 * numer / denom
    | LoadReq      // phaser.req = req
    | SetStep      // step = +-2000
    | WriteAck     // ack = phaser.req
    | TestRamp     // if (phaser_complete()) return
    | Advance      // run_phaser

  // requests are the numbers of the requests made, accepted their shifts and applied
  // the shifts added to a ramp's target, in order.
  datatype State = State(
    cmd: Command, phaser: Phaser, phaseOffset: int, fpga: FpgaPc, pll: PllPc,
    requests: seq<(Nibble, Nibble)>, accepted: seq<int>, applied: seq<int>)

  datatype Action =
    | FpgaRuns(n: Nibble, d: Nibble)  // what this statement finds if it reads the detector
    | PllRuns

  function Shift(numer: Nibble, denom: Nibble): int {
    if denom != 0 && numer != 0 then CLOCK_PS * numer / denom else 0
  }

  // How far a request moves the clock: numer/denom of 16 ns in whole picoseconds, and
  // not at all without both numbers.
  predicate MovesBy(shift: int, numer: Nibble, denom: Nibble) {
    if numer == 0 || denom == 0 then shift == 0
    else shift * denom <= 16000 * numer < (shift + 1) * denom
  }

  lemma ShiftMoves(numer: Nibble, denom: Nibble)
    ensures MovesBy(Shift(numer, denom), numer, denom)
  {
  }

  function Sum(shifts: seq<int>): int {
    if shifts == [] then 0 else Sum(shifts[..|shifts| - 1]) + shifts[|shifts| - 1]
  }

  function Start(offset: int): State {
    State(Command(0, 0, 0, 0), Phaser(0, 0, 0, 0, 0), offset, FpgaIdle, PollStart, [], [], [])
  }

  // ---------- statements ----------

  function FpgaStep(s: State, n: Nibble, d: Nibble): State {
    match s.fpga
    case FpgaIdle => if d == 0 || n == 0 then s else s.(fpga := CheckBusy(n, d))
    case CheckBusy(n, d) =>
      if s.cmd.ack != s.cmd.req then s.(fpga := FpgaIdle) else s.(fpga := WriteNumer(n, d))
    case WriteNumer(n, d) => s.(cmd := s.cmd.(numer := n), fpga := WriteDenom(n, d))
    case WriteDenom(n, d) => s.(cmd := s.cmd.(denom := d), fpga := BumpReq(n, d))
    case BumpReq(n, d) =>
      s.(cmd := s.cmd.(req := s.cmd.req + 1), fpga := FpgaIdle,
         requests := s.requests + [(n, d)], accepted := s.accepted + [Shift(n, d)])
  }

  // current_value += step, not beyond stop_value
  function Advanced(p: Phaser): Phaser {
    var next := p.current + p.step;
    p.(current := if (p.step > 0 && next > p.stop) || (p.step < 0 && next < p.stop) then p.stop else next)
  }

  function PllStep(s: State): State {
    var p := s.phaser;
    match s.pll
    case PollStart => s.(pll := if p.Complete() then TestRequest else TestRamp)
    case TestRequest => s.(pll := if s.cmd.req != s.cmd.ack then LoadStart else WriteAck)
    case LoadStart =>
      s.(phaser := p.(start := s.phaseOffset, current := s.phaseOffset, stop := s.phaseOffset), pll := TestShift)
    case TestShift =>
      if s.cmd.denom != 0 && s.cmd.numer != 0 then s.(pll := AddShift)
      else s.(pll := LoadReq, applied := s.applied + [0])
    case AddShift =>
      var shift := Shift(s.cmd.numer, s.cmd.denom);
      s.(phaser := p.(stop := p.stop + shift), pll := LoadReq, applied := s.applied + [shift])
    case LoadReq => s.(phaser := p.(req := s.cmd.req), pll := SetStep)
    case SetStep => s.(phaser := p.(step := if p.start > p.stop then -STEP_PS else STEP_PS), pll := WriteAck)
    case WriteAck => s.(cmd := s.cmd.(ack := p.req), pll := TestRamp)
    case TestRamp => s.(pll := if p.Complete() then PollStart else Advance)
    case Advance => s.(phaser := Advanced(p), phaseOffset := Advanced(p).current, pll := PollStart)
  }

  function Step(s: State, a: Action): State {
    match a
    case FpgaRuns(n, d) => FpgaStep(s, n, d)
    case PllRuns => PllStep(s)
  }

  function Run(s: State, actions: seq<Action>): State {
    if actions == [] then s else Step(Run(s, actions[..|actions| - 1]), actions[|actions| - 1])
  }

  // ---------- what every statement keeps ----------

  predicate FpgaInv(s: State) {
    match s.fpga
    case FpgaIdle => true
    case CheckBusy(_, _) => true
    case WriteNumer(_, _) => s.cmd.ack == s.cmd.req
    case WriteDenom(n, _) => s.cmd.ack == s.cmd.req && s.cmd.numer == n
    case BumpReq(n, d) => s.cmd.ack == s.cmd.req && s.cmd.numer == n && s.cmd.denom == d
  }

  predicate PllInv(s: State) {
    var p, done := s.phaser, |s.applied|;
    match s.pll
    case PollStart => s.cmd.ack == p.req == done && (p.Complete() || p.Ramping())
    case TestRequest => s.cmd.ack == p.req == done && p.Complete()
    case LoadStart => s.cmd.ack == p.req == done == s.cmd.req - 1 && p.Complete()
    case TestShift =>
      s.cmd.ack == p.req == done == s.cmd.req - 1 && p.start == p.current == p.stop == s.phaseOffset
    case AddShift =>
      && s.cmd.ack == p.req == done == s.cmd.req - 1 && p.start == p.current == p.stop == s.phaseOffset
      && s.cmd.denom != 0 && s.cmd.numer != 0
    case LoadReq => s.cmd.ack == p.req == done - 1 == s.cmd.req - 1 && p.start == p.current == s.phaseOffset
    case SetStep => s.cmd.ack == done - 1 && p.req == done == s.cmd.req && p.start == p.current == s.phaseOffset
    case WriteAck =>
      && p.req == done && (s.cmd.ack == done || (s.cmd.ack == done - 1 && s.cmd.req == done))
      && (p.Complete() || p.Ramping())
    case TestRamp => s.cmd.ack == p.req == done && (p.Complete() || p.Ramping())
    case Advance => s.cmd.ack == p.req == done && !p.Complete() && p.Ramping()
  }

  predicate Inv(s: State, offset: int) {
    && s.cmd.req == |s.accepted|
    && s.applied <= s.accepted && |s.accepted| <= |s.applied| + 1
    && (|s.applied| < |s.accepted| ==>
          Shift(s.cmd.numer, s.cmd.denom) == s.accepted[|s.accepted| - 1])
    && s.phaseOffset + (s.phaser.stop - s.phaser.current) == offset + Sum(s.applied)
    && (s.phaser.Complete() || s.phaseOffset == s.phaser.current)
    && FpgaInv(s) && PllInv(s)
  }

  lemma SumLast(shifts: seq<int>, shift: int)
    ensures Sum(shifts + [shift]) == Sum(shifts) + shift
  {
    assert (shifts + [shift])[..|shifts|] == shifts;
  }

  lemma FpgaKeepsInv(s: State, offset: int, n: Nibble, d: Nibble)
    requires Inv(s, offset)
    ensures Inv(FpgaStep(s, n, d), offset)
  {
    hide Sum, Shift;
  }

  lemma ApplyKeepsInv(s: State, offset: int)
    requires Inv(s, offset) && (s.pll.TestShift? || s.pll.AddShift?)
    ensures Inv(PllStep(s), offset)
  {
    hide Sum;
    SumLast(s.applied, if s.pll.TestShift? then 0 else Shift(s.cmd.numer, s.cmd.denom));
  }

  lemma PllKeepsInv(s: State, offset: int)
    requires Inv(s, offset)
    ensures Inv(PllStep(s), offset)
  {
    hide Sum, Shift;
    if s.pll.TestShift? || s.pll.AddShift? {
      ApplyKeepsInv(s, offset);
    }
  }

  lemma {:induction false} InvAlways(offset: int, actions: seq<Action>)
    ensures Inv(Run(Start(offset), actions), offset)
    decreases |actions|
  {
    if actions == [] {
    } else {
      var n := |actions| - 1;
      InvAlways(offset, actions[..n]);
      var before := Run(Start(offset), actions[..n]);
      match actions[n]
      case FpgaRuns(a, b) => FpgaKeepsInv(before, offset, a, b);
      case PllRuns => PllKeepsInv(before, offset);
    }
  }

  // Main result: under every interleaving, requests are applied in order, each once,
  // at most one is waiting, and the phase accounts for all of them.
  lemma NoRequestLostOrTorn(offset: int, actions: seq<Action>)
    ensures var s := Run(Start(offset), actions);
            && s.applied <= s.accepted && |s.accepted| <= |s.applied| + 1
            && s.phaseOffset + (s.phaser.stop - s.phaser.current) + Sum(s.accepted[|s.applied|..])
                 == offset + Sum(s.accepted)
  {
    InvAlways(offset, actions);
    var s := Run(Start(offset), actions);
    if |s.applied| < |s.accepted| {
      var last := s.accepted[|s.accepted| - 1];
      assert s.accepted == s.applied + [last] && s.accepted[|s.applied|..] == [last];
      SumLast(s.applied, last);
      SumLast([], last);
      assert [] + [last] == [last];
    } else {
      assert s.accepted[|s.applied|..] == [] && s.applied == s.accepted;
    }
  }

  // When nothing is waiting and the ramp is over, the phase is exactly the sum.
  lemma PhaseWhenQuiet(offset: int, actions: seq<Action>)
    ensures var s := Run(Start(offset), actions);
            s.phaser.Complete() && |s.applied| == |s.accepted|
            ==> s.phaseOffset == offset + Sum(s.accepted)
  {
    NoRequestLostOrTorn(offset, actions);
    var s := Run(Start(offset), actions);
    if |s.applied| == |s.accepted| {
      assert s.accepted[|s.applied|..] == [];
    }
  }

  // ---------- in plain numbers ----------

  predicate RequestsInv(s: State) {
    && |s.requests| == |s.accepted|
    && (forall k :: 0 <= k < |s.requests| ==>
          && s.requests[k].0 != 0 && s.requests[k].1 != 0
          && s.accepted[k] == Shift(s.requests[k].0, s.requests[k].1))
    && (s.fpga.FpgaIdle? || (s.fpga.n != 0 && s.fpga.d != 0))
  }

  lemma {:induction false} RequestsAreAccepted(offset: int, actions: seq<Action>)
    ensures RequestsInv(Run(Start(offset), actions))
    decreases |actions|
  {
    hide Shift;
    if actions == [] {
    } else {
      RequestsAreAccepted(offset, actions[..|actions| - 1]);
    }
  }

  // The exact sum of 16000 * n / d.
  function Exact(requests: seq<(Nibble, Nibble)>): real
    requires forall k :: 0 <= k < |requests| ==> requests[k].1 != 0
  {
    if requests == [] then 0.0
    else
      var (n, d) := requests[|requests| - 1];
      Exact(requests[..|requests| - 1]) + 16000.0 * n as real / d as real
  }

  lemma ShiftNearExact(n: Nibble, d: Nibble)
    requires n != 0 && d != 0
    ensures Shift(n, d) as real <= 16000.0 * n as real / d as real < Shift(n, d) as real + 1.0
  {
    hide Shift;
    ShiftMoves(n, d);
    QuotientBetween(Shift(n, d), 16000 * n, d, 16000.0 * n as real / d as real);
  }

  lemma QuotientBetween(s: int, a: int, d: int, x: real)
    requires d > 0 && s * d <= a < (s + 1) * d && x == a as real / d as real
    ensures s as real <= x < s as real + 1.0
  {
    var z := d as real;
    assert x * z == a as real;
    CancelAtMost(s as real, x, z, (s * d) as real, a as real);
    CancelBelow(x, (s + 1) as real, z, a as real, ((s + 1) * d) as real);
  }

  lemma CancelAtMost(x: real, y: real, z: real, xz: real, yz: real)
    requires z > 0.0 && xz == x * z && yz == y * z && xz <= yz
    ensures x <= y
  {
  }

  lemma CancelBelow(x: real, y: real, z: real, xz: real, yz: real)
    requires z > 0.0 && xz == x * z && yz == y * z && xz < yz
    ensures x < y
  {
  }

  lemma {:induction false} SumNearExact(requests: seq<(Nibble, Nibble)>, shifts: seq<int>)
    requires |requests| == |shifts|
    requires forall k :: 0 <= k < |requests| ==>
               && requests[k].0 != 0 && requests[k].1 != 0 && shifts[k] == Shift(requests[k].0, requests[k].1)
    ensures 0.0 <= Exact(requests) - Sum(shifts) as real
    ensures requests != [] ==> Exact(requests) - Sum(shifts) as real < |requests| as real
    decreases |requests|
  {
    hide Shift;
    if requests == [] {
    } else {
      var n := |requests| - 1;
      SumNearExact(requests[..n], shifts[..n]);
      ShiftNearExact(requests[n].0, requests[n].1);
    }
  }

  // Main result: in a quiet state the phase is below the initial offset plus the exact
  // sum of 16000 * n / d over the requests made by less than a picosecond each.
  lemma QuietPhase(offset: int, actions: seq<Action>)
    ensures var s := Run(Start(offset), actions);
            RequestsInv(s)
            && (s.phaser.Complete() && |s.applied| == |s.accepted| ==>
                  var gap := offset as real + Exact(s.requests) - s.phaseOffset as real;
                  0.0 <= gap && (s.requests == [] || gap < |s.requests| as real))
  {
    hide Run, Shift, Sum, Exact;
    RequestsAreAccepted(offset, actions);
    PhaseWhenQuiet(offset, actions);
    var s := Run(Start(offset), actions);
    SumNearExact(s.requests, s.accepted);
    if s.requests == [] { NothingSums(s.requests, s.accepted); }
  }

  lemma NothingSums(requests: seq<(Nibble, Nibble)>, shifts: seq<int>)
    requires requests == [] && shifts == []
    ensures Exact(requests) == 0.0 && Sum(shifts) == 0
  {
  }

  // ---------- the ramp ----------

  // A step of an unfinished ramp goes towards the target, by at most 2000 ps, and
  // not past it.
  lemma RampStep(p: Phaser)
    requires p.Ramping() && !p.Complete()
    ensures var q := Advanced(p);
            && q.Ramping() && q.stop == p.stop
            && q.Distance() == (if p.Distance() <= 2000 then 0 else p.Distance() - 2000)
            && -2000 <= q.current - p.current <= 2000
  {
  }

  // ---------- the C functions, run without interruption ----------

  // How many statements at most until the poll function returns.
  function Left(pc: PllPc): nat {
    match pc
    case PollStart => 9
    case TestRequest => 8
    case LoadStart => 7
    case TestShift => 6
    case AddShift => 5
    case LoadReq => 4
    case SetStep => 3
    case WriteAck => 2
    case TestRamp => 1
    case Advance => 0
  }

  // From this statement to the return of poll_ad9545_commands.
  function FinishPoll(s: State): (after: State)
    ensures after.pll == PollStart
    decreases Left(s.pll)
  {
    var next := PllStep(s);
    if next.pll.PollStart? then next else FinishPoll(next)
  }

  function FpgaLeft(pc: FpgaPc): nat {
    match pc
    case FpgaIdle => 4
    case CheckBusy(_, _) => 3
    case WriteNumer(_, _) => 2
    case WriteDenom(_, _) => 1
    case BumpReq(_, _) => 0
  }

  function FinishFpga(s: State, n: Nibble, d: Nibble): (after: State)
    ensures after.fpga == FpgaIdle
    decreases FpgaLeft(s.fpga)
  {
    var next := FpgaStep(s, n, d);
    if next.fpga.FpgaIdle? then next else FinishFpga(next, n, d)
  }

  lemma {:induction false} RunFirst(s: State, a: Action, rest: seq<Action>)
    ensures Run(s, [a] + rest) == Run(Step(s, a), rest)
    decreases |rest|
  {
    var all := [a] + rest;
    if rest == [] {
      assert all[..0] == [] && all[0] == a;
      assert Run(s, all) == Step(Run(s, all[..0]), a);
    } else {
      var n := |rest| - 1;
      assert all[..|all| - 1] == [a] + rest[..n];
      RunFirst(s, a, rest[..n]);
    }
  }

  // An uninterrupted poll is one of the schedules the results above cover.
  lemma {:induction false} PollIsARun(s: State) returns (actions: seq<Action>)
    ensures Run(s, actions) == FinishPoll(s) && forall a :: a in actions ==> a == PllRuns
    decreases Left(s.pll)
  {
    var next := PllStep(s);
    if next.pll.PollStart? {
      actions := [];
    } else {
      actions := PollIsARun(next);
    }
    RunFirst(s, PllRuns, actions);
    actions := [PllRuns] + actions;
  }

  lemma {:induction false} FpgaPollIsARun(s: State, n: Nibble, d: Nibble) returns (actions: seq<Action>)
    ensures Run(s, actions) == FinishFpga(s, n, d) && forall a :: a in actions ==> a == FpgaRuns(n, d)
    decreases FpgaLeft(s.fpga)
  {
    var next := FpgaStep(s, n, d);
    if next.fpga.FpgaIdle? {
      actions := [];
    } else {
      actions := FpgaPollIsARun(next, n, d);
    }
    RunFirst(s, FpgaRuns(n, d), actions);
    actions := [FpgaRuns(n, d)] + actions;
  }

  // ---------- the length of a ramp ----------

  // Statements of the requesting side, with what each finds in the detector.
  function FpgaRun(s: State, found: seq<(Nibble, Nibble)>): State {
    if found == [] then s
    else FpgaStep(FpgaRun(s, found[..|found| - 1]), found[|found| - 1].0, found[|found| - 1].1)
  }

  // Uninterrupted polls, each after some statements of the requesting side.
  function AfterPolls(s: State, between: seq<seq<(Nibble, Nibble)>>): State {
    if between == [] then s
    else FinishPoll(FpgaRun(AfterPolls(s, between[..|between| - 1]), between[|between| - 1]))
  }

  lemma {:induction false} FpgaLeavesPhaser(s: State, found: seq<(Nibble, Nibble)>)
    ensures FpgaRun(s, found).phaser == s.phaser && FpgaRun(s, found).pll == s.pll
    decreases |found|
  {
    if found == [] {
    } else {
      FpgaLeavesPhaser(s, found[..|found| - 1]);
    }
  }

  // Polls needed from this distance: over 2000 ps, rounded up.
  function PollsLeft(p: Phaser): nat { (p.Distance() + 1999) / 2000 }

  lemma {:induction false} RampAfter(s: State, between: seq<seq<(Nibble, Nibble)>>)
    requires s.pll == PollStart && s.phaser.Ramping() && |between| <= PollsLeft(s.phaser)
    ensures var t := AfterPolls(s, between);
            && t.pll == PollStart && t.phaser.Ramping() && t.phaser.stop == s.phaser.stop
            && PollsLeft(t.phaser) == PollsLeft(s.phaser) - |between|
    decreases |between|
  {
    hide FinishPoll, Advanced;
    if between == [] {
    } else {
      var n := |between| - 1;
      RampAfter(s, between[..n]);
      var t := AfterPolls(s, between[..n]);
      var u := FpgaRun(t, between[n]);
      FpgaLeavesPhaser(t, between[n]);
      PollBegins(u);
      PollEnds(u.(pll := TestRamp));
      RampStep(u.phaser);
    }
  }

  // Main result: from its start a ramp is complete after exactly the distance over
  // 2000 ps, rounded up, polls and not before, whatever the requesting side does in
  // between; bus failures do not enter into it.
  lemma RampLength(s: State, between: seq<seq<(Nibble, Nibble)>>)
    requires s.pll == PollStart && s.phaser.Ramping() && |between| <= PollsLeft(s.phaser)
    ensures AfterPolls(s, between).phaser.Complete() <==> |between| == PollsLeft(s.phaser)
  {
    RampAfter(s, between);
  }

  // ---------- requests are made and picked up ----------

  // The requesting side makes a request exactly when both numbers are there and none
  // is waiting.
  lemma RequestMade(s: State, n: Nibble, d: Nibble)
    requires s.fpga == FpgaIdle
    ensures FinishFpga(s, n, d).requests ==
              if n != 0 && d != 0 && s.cmd.ack == s.cmd.req then s.requests + [(n, d)] else s.requests
  {
    if n != 0 && d != 0 && s.cmd.ack == s.cmd.req {
      FpgaRequestSteps(s, n, d);
    } else if n != 0 && d != 0 {
      assert FinishFpga(s, n, d) == FinishFpga(FpgaStep(s, n, d), n, d);
    }
  }

  // A poll that finds no ramp underway picks up the waiting request, and acknowledges
  // all there are; one that finds a ramp picks up nothing.
  lemma PollPicksUp(s: State, offset: int)
    requires Inv(s, offset) && s.pll == PollStart
    ensures var t := FinishPoll(s);
            if s.phaser.Complete() then t.applied == s.accepted && t.cmd.ack == t.cmd.req == s.cmd.req
            else t.applied == s.applied && t.cmd == s.cmd
  {
    hide FinishPoll, Shift, Sum;
    PollBegins(s);
    if s.phaser.Complete() {
      var u := s.(pll := WriteAck);
      if s.cmd.req != s.cmd.ack {
        var loading := s.(pll := LoadStart);
        SetupSteps(loading);
        u := SetUp(loading);
        assert s.accepted == s.applied + [Shift(s.cmd.numer, s.cmd.denom)];
      }
      AckStep(u);
      PollEnds(u.(cmd := u.cmd.(ack := u.phaser.req), pll := TestRamp));
    } else {
      PollEnds(s.(pll := TestRamp));
    }
  }

  // ---------- every request takes effect ----------

  // k polls with the requesting side silent.
  function Alone(k: nat): (between: seq<seq<(Nibble, Nibble)>>)
    ensures |between| == k && forall i :: 0 <= i < k ==> between[i] == []
  {
    seq(k, _ => [])
  }

  lemma {:induction false} FinishPollKeeps(s: State, offset: int)
    requires Inv(s, offset)
    ensures Inv(FinishPoll(s), offset) && FinishPoll(s).accepted == s.accepted
    decreases Left(s.pll)
  {
    hide Inv, Shift;
    PllKeepsInv(s, offset);
    var next := PllStep(s);
    if next.pll.PollStart? {
    } else {
      FinishPollKeeps(next, offset);
    }
  }

  lemma {:induction false} AfterMore(s: State, a: seq<seq<(Nibble, Nibble)>>, b: seq<seq<(Nibble, Nibble)>>)
    ensures AfterPolls(s, a + b) == AfterPolls(AfterPolls(s, a), b)
    decreases |b|
  {
    hide FinishPoll, FpgaRun;
    if b == [] {
      assert a + b == a;
    } else {
      var n := |b| - 1;
      assert (a + b)[..|a + b| - 1] == a + b[..n];
      AfterMore(s, a, b[..n]);
    }
  }

  lemma {:induction false} AloneKeeps(s: State, offset: int, k: nat)
    requires Inv(s, offset) && s.pll == PollStart
    ensures var t := AfterPolls(s, Alone(k));
            && Inv(t, offset) && t.pll == PollStart && t.accepted == s.accepted
            && (s.applied == s.accepted ==> t.applied == t.accepted)
    decreases k
  {
    hide Inv, FinishPoll;
    if k == 0 {
    } else {
      AloneKeeps(s, offset, k - 1);
      var t := AfterPolls(s, Alone(k - 1));
      assert Alone(k)[..k - 1] == Alone(k - 1);
      assert FpgaRun(t, []) == t;
      FinishPollKeeps(t, offset);
      PollPicksUp(t, offset);
    }
  }

  lemma RampEnds(s: State, offset: int) returns (k: nat)
    requires Inv(s, offset) && s.pll == PollStart
    ensures AfterPolls(s, Alone(k)).phaser.Complete()
  {
    hide FinishPoll;
    if s.phaser.Complete() {
      k := 0;
    } else {
      k := PollsLeft(s.phaser);
      RampLength(s, Alone(k));
    }
  }

  // Main result: from any point of any interleaving between two polls, enough polls
  // bring the phase to the initial offset plus the shifts of all requests made.
  lemma EveryRequestTakesEffect(offset: int, actions: seq<Action>) returns (k: nat)
    requires Run(Start(offset), actions).pll == PollStart
    ensures var s := Run(Start(offset), actions);
            var t := AfterPolls(s, Alone(k));
            t.phaser.Complete() && t.phaseOffset == offset + Sum(s.accepted)
  {
    hide Run, Inv, FinishPoll, Sum;
    InvAlways(offset, actions);
    var s := Run(Start(offset), actions);
    var a := RampEnds(s, offset);
    AloneKeeps(s, offset, a);
    var t := AfterPolls(s, Alone(a));
    PollPicksUp(t, offset);
    FinishPollKeeps(t, offset);
    OnePoll(t);
    var u := AfterPolls(t, Alone(1));
    var b := RampEnds(u, offset);
    AloneKeeps(u, offset, b);
    k := a + 1 + b;
    assert Alone(k) == Alone(a) + (Alone(1) + Alone(b));
    AfterMore(s, Alone(a), Alone(1) + Alone(b));
    AfterMore(t, Alone(1), Alone(b));
    QuietInv(AfterPolls(u, Alone(b)), offset);
  }

  lemma OnePoll(s: State)
    ensures AfterPolls(s, Alone(1)) == FinishPoll(s)
  {
    hide FinishPoll;
    assert Alone(1)[..0] == [];
    assert FpgaRun(s, []) == s;
  }

  lemma QuietInv(s: State, offset: int)
    requires Inv(s, offset) && s.phaser.Complete()
    ensures s.phaseOffset == offset + Sum(s.applied)
  {
    hide Sum;
  }

  // Whether a poll from this state moves the phase.
  predicate Moves(s: State) {
    if s.phaser.Complete() then s.cmd.req != s.cmd.ack && Shift(s.cmd.numer, s.cmd.denom) != 0 else true
  }

  class ClockShiftTasks {
    var cmd: Command
    var phaser: Phaser
    var phaseOffset: int
    ghost var requests: seq<(Nibble, Nibble)>
    ghost var accepted: seq<int>
    ghost var applied: seq<int>

    ghost function View(pll: PllPc): State
      reads this
    {
      State(cmd, phaser, phaseOffset, FpgaIdle, pll, requests, accepted, applied)
    }

    constructor (offset: int)
      ensures View(PollStart) == Start(offset)
    {
      cmd := Command(0, 0, 0, 0);
      phaser := Phaser(0, 0, 0, 0, 0);
      phaseOffset := offset;
      requests, accepted, applied := [], [], [];
    }

    method SetupPhaser()
      modifies this`phaser, this`applied
      ensures FinishPoll(View(WriteAck)) == FinishPoll(old(View(LoadStart)))
      ensures phaser.start == phaseOffset && phaser.current == phaseOffset
      ensures MovesBy(phaser.stop - phaseOffset, cmd.numer, cmd.denom)
    {
      hide FinishPoll;
      ShiftMoves(cmd.numer, cmd.denom);
      phaser := phaser.(start := phaseOffset);
      phaser := phaser.(current := phaser.start);
      phaser := phaser.(stop := phaser.start);
      ghost var shift := 0;
      if cmd.denom != 0 && cmd.numer != 0 {
        shift := CLOCK_PS * cmd.numer / cmd.denom;
        phaser := phaser.(stop := phaser.stop + CLOCK_PS * cmd.numer / cmd.denom);
      }
      applied := applied + [shift];
      phaser := phaser.(req := cmd.req);
      phaser := phaser.(step := STEP_PS);
      if phaser.start > phaser.stop {
        phaser := phaser.(step := -STEP_PS);
      }
      SetupSteps(old(View(LoadStart)));
    }

    // The bus write's result is the caller's only; the phase has moved either way.
    method RunPhaser(busOk: bool) returns (ok: bool)
      modifies this`phaser, this`phaseOffset
      ensures old(phaser.Complete()) ==> ok && View(PollStart) == old(View(PollStart))
      ensures !old(phaser.Complete()) ==> ok == busOk && View(PollStart) == PllStep(old(View(Advance)))
    {
      if phaser.Complete() {
        return true;
      }
      phaser := phaser.(current := phaser.current + phaser.step);
      if phaser.step > 0 && phaser.current > phaser.stop {
        phaser := phaser.(current := phaser.stop);
      }
      if phaser.step < 0 && phaser.current < phaser.stop {
        phaser := phaser.(current := phaser.stop);
      }
      phaseOffset := phaser.current;
      return busOk;
    }

    method Poll(busOk: bool) returns (ok: bool)
      modifies this
      ensures View(PollStart) == FinishPoll(old(View(PollStart)))
      ensures ok <==> busOk || !Moves(old(View(PollStart)))
    {
      hide FinishPoll;
      PollBegins(View(PollStart));
      if phaser.Complete() {
        if cmd.req != cmd.ack {
          SetupPhaser();
        }
        AckStep(View(WriteAck));
        cmd := cmd.(ack := phaser.req);
      }
      assert FinishPoll(View(TestRamp)) == FinishPoll(old(View(PollStart)));
      PollEnds(View(TestRamp));
      if phaser.Complete() {
        return true;
      }
      ok := RunPhaser(busOk);
    }

    // The request side, with the detector register's two numbers.
    method FpgaPoll(n: Nibble, d: Nibble)
      modifies this`cmd, this`requests, this`accepted
      ensures View(PollStart) == FinishFpga(old(View(PollStart)), n, d)
    {
      ghost var s := View(PollStart);
      if d == 0 {
        return;
      }
      if n == 0 {
        return;
      }
      if cmd.ack != cmd.req {
        return;
      }
      cmd := cmd.(numer := n);
      cmd := cmd.(denom := d);
      cmd := cmd.(req := cmd.req + 1);
      requests := requests + [(n, d)];
      accepted := accepted + [Shift(n, d)];
      FpgaRequestSteps(s, n, d);
    }
  }

  lemma PollBegins(s: State)
    requires s.pll == PollStart
    ensures FinishPoll(s) == FinishPoll(s.(pll :=
              if !s.phaser.Complete() then TestRamp else if s.cmd.req != s.cmd.ack then LoadStart else WriteAck))
  {
    var s1 := PllStep(s);
    if s.phaser.Complete() {
      assert FinishPoll(s) == FinishPoll(s1) == FinishPoll(PllStep(s1));
    }
  }

  lemma AckStep(s: State)
    requires s.pll == WriteAck
    ensures FinishPoll(s) == FinishPoll(s.(cmd := s.cmd.(ack := s.phaser.req), pll := TestRamp))
  {
  }

  // A poll that finds the ramp unfinished advances it once.
  lemma PollEnds(s: State)
    requires s.pll == TestRamp
    ensures FinishPoll(s) ==
              if s.phaser.Complete() then s.(pll := PollStart)
              else
                s.(phaser := Advanced(s.phaser), phaseOffset := Advanced(s.phaser).current, pll := PollStart)
  {
    var s1 := PllStep(s);
    if !s.phaser.Complete() {
      assert FinishPoll(s) == FinishPoll(s1) == PllStep(s1);
    }
  }

  // What setup_phaser leaves for the acknowledgement.
  function SetUp(s: State): State {
    var p0 := s.phaser.(start := s.phaseOffset, current := s.phaseOffset, stop := s.phaseOffset);
    var shift := Shift(s.cmd.numer, s.cmd.denom);
    var p1 := p0.(stop := p0.stop + shift, req := s.cmd.req);
    var p2 := p1.(step := if p1.start > p1.stop then -STEP_PS else STEP_PS);
    s.(phaser := p2, applied := s.applied + [shift], pll := WriteAck)
  }

  lemma SetupSteps(s: State)
    requires s.pll == LoadStart
    ensures FinishPoll(s) == FinishPoll(SetUp(s))
  {
    var s1 := PllStep(s);
    var s2 := PllStep(s1);
    var s3 := PllStep(s2);
    var s4 := PllStep(s3);
    assert FinishPoll(s) == FinishPoll(s1) == FinishPoll(s2) == FinishPoll(s3);
    if s3.pll.SetStep? {
      assert FinishPoll(s3) == FinishPoll(s4);
    } else {
      assert FinishPoll(s3) == FinishPoll(s4) == FinishPoll(PllStep(s4));
    }
  }

  lemma FpgaRequestSteps(s: State, n: Nibble, d: Nibble)
    requires s.fpga == FpgaIdle && d != 0 && n != 0 && s.cmd.ack == s.cmd.req
    ensures FinishFpga(s, n, d) ==
              s.(cmd := s.cmd.(numer := n, denom := d, req := s.cmd.req + 1),
                 requests := s.requests + [(n, d)], accepted := s.accepted + [Shift(n, d)])
  {
    var s1 := FpgaStep(s, n, d);
    var s2 := FpgaStep(s1, n, d);
    var s3 := FpgaStep(s2, n, d);
    var s4 := FpgaStep(s3, n, d);
    assert FinishFpga(s, n, d) == FinishFpga(s1, n, d) == FinishFpga(s2, n, d);
    assert FinishFpga(s2, n, d) == FinishFpga(s3, n, d) == FinishFpga(s4, n, d);
  }
}
