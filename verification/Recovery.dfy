// The retry discipline the three PLL state machines share: an error is retried a
// bounded number of times, then declared fatal, then tried afresh. A machine is given
// by its step and by what of a state and an input the discipline depends on.
module Recovery {
  const WRAP := 0x1_0000_0000

  // The kernel tick counter.
  type Tick = x: int | 0 <= x < WRAP

  // Unsigned 32-bit difference
  function Elapsed(now: Tick, start: Tick): Tick { (now - start) % WRAP }

  // The clock may pass 2^32 ms once between the two readings.
  lemma ElapsedIsDuration(start: Tick, k: nat)
    requires k < 0x1_0000_0000
    ensures Elapsed((start + k) % 0x1_0000_0000, start) == k
  {
    if start + k < WRAP { assert (start + k) % WRAP == start + k; }
    else { assert (start + k) % WRAP == start + k - WRAP && (k - WRAP) % WRAP == k; }
  }

  datatype DeviceStatus = Unknown | Normal | Fail

  // The outcome of reading a register into a stored word.
  datatype Register = Failed | Read(word: bv8)

  function Store(register: Register, word: bv8): bv8 {
    if register.Read? then register.word else word
  }

  datatype Phase = Idle | Working | Running | Halted | GivenUp

  // state numbers the machine's states; start is the stored stateStartTick.
  datatype Snap = Snap(state: nat, phase: Phase, count: nat, start: Tick)

  // now and stamp are the two clock readings of a step; clears says whether a running
  // step passes the test after which it zeroes the count. It can still fail after that.
  datatype Beat = Beat(enabled: bool, clears: bool, now: Tick, stamp: Tick)

  predicate Next(a: Snap, m: Beat, b: Snap) {
    && (a.state == b.state ==> a.phase == b.phase)
    && b.start == (if m.enabled && a.state != b.state then m.stamp else a.start)
    && if !m.enabled then b.phase == Idle && b.count == a.count
       else
         match a.phase
         case Idle => (b.phase == Working || b.phase == Halted) && b.count == a.count
         case Working => b.phase != Idle && b.phase != GivenUp && b.count == a.count
         case Running =>
           && b.phase != Idle && b.phase != GivenUp && (b.phase == Running ==> m.clears)
           && b.count == if m.clears then 0 else a.count
         case Halted =>
           if a.count > 3 then b.phase == GivenUp && b.count == a.count
           else if Elapsed(m.now, a.start) > 1000 then b.phase == Idle && b.count == a.count + 1
           else b == a
         case GivenUp =>
           if Elapsed(m.now, a.start) > 2000 then b.phase == Idle && b.count == 0
           else b == a
  }

  datatype Machine<!S(!new), !I(!new)> = Machine(start: S, step: (S, I) -> S, snap: S -> Snap, beat: (S, I) -> Beat) {
    ghost predicate Disciplined() {
      && snap(start).phase == Idle && snap(start).count == 0
      && forall s: S, i: I :: Next(snap(s), beat(s, i), snap(step(s, i)))
    }

    function Run(inputs: seq<I>): S {
      if inputs == [] then start else step(Run(inputs[..|inputs| - 1]), inputs[|inputs| - 1])
    }

    function After(inputs: seq<I>): Snap { snap(Run(inputs)) }

    // ---------- what a step is, judged by its outcome ----------

    // An attempt to restart after an error.
    predicate Retries(s: S, i: I) {
      beat(s, i).enabled && snap(s).phase == Halted && snap(step(s, i)).phase == Idle
    }

    // A running step that ends running, or a fresh start after giving up.
    predicate Recovers(s: S, i: I) {
      && beat(s, i).enabled
      && ((snap(s).phase == Running && snap(step(s, i)).phase == Running)
          || (snap(s).phase == GivenUp && snap(step(s, i)).phase == Idle))
    }

    // A running step that zeroes the count and then fails.
    predicate ClearsInVain(s: S, i: I) {
      beat(s, i).enabled && snap(s).phase == Running && beat(s, i).clears && snap(step(s, i)).phase != Running
    }

    predicate RetriesAt(inputs: seq<I>, n: int) { 0 <= n < |inputs| && Retries(Run(inputs[..n]), inputs[n]) }

    predicate RecoversAt(inputs: seq<I>, n: int) { 0 <= n < |inputs| && Recovers(Run(inputs[..n]), inputs[n]) }

    predicate ClearsInVainAt(inputs: seq<I>, n: int) {
      0 <= n < |inputs| && ClearsInVain(Run(inputs[..n]), inputs[n])
    }

    // Retries in a run since the last recovery.
    function RetriesSince(inputs: seq<I>): nat {
      if inputs == [] then 0
      else
        var before, i := inputs[..|inputs| - 1], inputs[|inputs| - 1];
        if Recovers(Run(before), i) then 0
        else if Retries(Run(before), i) then RetriesSince(before) + 1
        else RetriesSince(before)
    }

    // Retries since the count was last zeroed, in vain or not.
    function RetriesSinceZeroed(inputs: seq<I>): nat {
      if inputs == [] then 0
      else
        var before, i := inputs[..|inputs| - 1], inputs[|inputs| - 1];
        if Recovers(Run(before), i) || ClearsInVain(Run(before), i) then 0
        else if Retries(Run(before), i) then RetriesSinceZeroed(before) + 1
        else RetriesSinceZeroed(before)
    }

    // Step p is a retry, and nothing has recovered since.
    predicate Outstanding(inputs: seq<I>, p: int) {
      RetriesAt(inputs, p) && forall r :: p < r < |inputs| ==> !RecoversAt(inputs, r)
    }

    // An outstanding retry was followed by a step that zeroed the count in vain.
    predicate ForgottenBy(inputs: seq<I>, p: int, q: int) {
      Outstanding(inputs, p) && p < q && ClearsInVainAt(inputs, q)
    }

    ghost predicate SomeOutstanding(inputs: seq<I>) { exists p :: Outstanding(inputs, p) }

    ghost predicate SomeForgotten(inputs: seq<I>) { exists p, q :: ForgottenBy(inputs, p, q) }

    // The clock at the end of the last step that changed the state.
    function Entered(inputs: seq<I>): Tick {
      if inputs == [] then snap(start).start
      else
        var before, i := inputs[..|inputs| - 1], inputs[|inputs| - 1];
        if After(before).state != After(inputs).state then beat(Run(before), i).stamp else Entered(before)
    }

    // Whether the run has ever been in FATAL.
    predicate GaveUp(inputs: seq<I>) {
      After(inputs).phase == GivenUp || (inputs != [] && GaveUp(inputs[..|inputs| - 1]))
    }

    // ---------- one more step ----------

    lemma OneMore(before: seq<I>, i: I)
      ensures Run(before + [i]) == step(Run(before), i)
      ensures GaveUp(before + [i]) == (GaveUp(before) || snap(step(Run(before), i)).phase == GivenUp)
      ensures RetriesSince(before + [i]) ==
                if Recovers(Run(before), i) then 0
                else RetriesSince(before) + if Retries(Run(before), i) then 1 else 0
    {
      var inputs := before + [i];
      assert inputs[..|inputs| - 1] == before;
    }

    lemma EarlierSteps(before: seq<I>, i: I, n: int)
      requires n < |before|
      ensures RetriesAt(before + [i], n) == RetriesAt(before, n)
      ensures RecoversAt(before + [i], n) == RecoversAt(before, n)
      ensures ClearsInVainAt(before + [i], n) == ClearsInVainAt(before, n)
    {
      if 0 <= n {
        assert (before + [i])[..n] == before[..n];
      }
    }

    lemma LastStep(before: seq<I>, i: I)
      ensures RetriesAt(before + [i], |before|) == Retries(Run(before), i)
      ensures RecoversAt(before + [i], |before|) == Recovers(Run(before), i)
      ensures ClearsInVainAt(before + [i], |before|) == ClearsInVain(Run(before), i)
    {
      assert (before + [i])[..|before|] == before;
    }

    lemma OutstandingStep(before: seq<I>, i: I, p: int)
      ensures Outstanding(before + [i], p) <==>
                || (!Recovers(Run(before), i) && p < |before| && Outstanding(before, p))
                || (p == |before| && Retries(Run(before), i))
    {
      var inputs, n := before + [i], |before|;
      hide Recovers, Retries, ClearsInVain;
      LastStep(before, i);
      forall r | r < n ensures RetriesAt(inputs, r) == RetriesAt(before, r) && RecoversAt(inputs, r) == RecoversAt(before, r) {
        EarlierSteps(before, i, r);
      }
    }

    lemma SomeOutstandingStep(before: seq<I>, i: I)
      ensures SomeOutstanding(before + [i]) <==>
                Retries(Run(before), i) || (!Recovers(Run(before), i) && SomeOutstanding(before))
    {
      hide Retries, Recovers, Outstanding;
      forall p ensures Outstanding(before, p) ==> p < |before| { OutstandingInRange(before, p); }
      forall p
        ensures Outstanding(before + [i], p) <==>
                  || (!Recovers(Run(before), i) && p < |before| && Outstanding(before, p))
                  || (p == |before| && Retries(Run(before), i))
      {
        OutstandingStep(before, i, p);
      }
      if SomeOutstanding(before) {
        var p :| Outstanding(before, p);
        OutstandingStep(before, i, p);
      }
      OutstandingStep(before, i, |before|);
    }

    lemma OutstandingInRange(inputs: seq<I>, p: int)
      ensures Outstanding(inputs, p) ==> 0 <= p < |inputs|
    {
    }

    lemma SomeForgottenStep(before: seq<I>, i: I)
      ensures SomeForgotten(before + [i]) <==>
                && !Recovers(Run(before), i)
                && (SomeForgotten(before) || (ClearsInVain(Run(before), i) && SomeOutstanding(before)))
    {
      hide Retries, Recovers, ClearsInVain, Outstanding;
      var inputs, n := before + [i], |before|;
      LastStep(before, i);
      if SomeForgotten(inputs) {
        var p, q :| ForgottenBy(inputs, p, q);
        OutstandingStep(before, i, p);
        if q < n {
          EarlierSteps(before, i, q);
          assert ForgottenBy(before, p, q);
        } else {
          assert Outstanding(before, p);
        }
      }
      if !Recovers(Run(before), i) && SomeForgotten(before) {
        var p, q :| ForgottenBy(before, p, q);
        OutstandingStep(before, i, p);
        EarlierSteps(before, i, q);
        assert ForgottenBy(inputs, p, q);
      }
      if !Recovers(Run(before), i) && ClearsInVain(Run(before), i) && SomeOutstanding(before) {
        var p :| Outstanding(before, p);
        OutstandingInRange(before, p);
        OutstandingStep(before, i, p);
        assert ForgottenBy(inputs, p, n);
      }
    }

    // ---------- whole runs ----------

    lemma {:induction false} NoneOutstanding(inputs: seq<I>)
      ensures RetriesSince(inputs) > 0 <==> SomeOutstanding(inputs)
      decreases |inputs|
    {
      hide Retries, Recovers;
      if inputs == [] {
      } else {
        var before, i := inputs[..|inputs| - 1], inputs[|inputs| - 1];
        assert inputs == before + [i];
        NoneOutstanding(before);
        SomeOutstandingStep(before, i);
        NotBoth(Run(before), i);
      }
    }

    lemma NotBoth(s: S, i: I)
      ensures !(Retries(s, i) && Recovers(s, i)) && !(Retries(s, i) && ClearsInVain(s, i))
      ensures !(Recovers(s, i) && ClearsInVain(s, i))
    {
    }

    // In every run the count is the number of retries since it was last zeroed, and
    // it never passes four.
    lemma {:induction false} CountSinceZeroed(inputs: seq<I>)
      requires Disciplined()
      ensures After(inputs).count == RetriesSinceZeroed(inputs) <= 4
      ensures After(inputs).phase == GivenUp ==> After(inputs).count == 4
      decreases |inputs|
    {
      if inputs == [] {
      } else {
        var before, i := inputs[..|inputs| - 1], inputs[|inputs| - 1];
        CountSinceZeroed(before);
        assert Next(snap(Run(before)), beat(Run(before), i), snap(step(Run(before), i)));
      }
    }

    lemma {:induction false} ZeroedOrForgotten(inputs: seq<I>)
      ensures RetriesSinceZeroed(inputs) <= RetriesSince(inputs)
      ensures RetriesSinceZeroed(inputs) == RetriesSince(inputs) <==> !SomeForgotten(inputs)
      decreases |inputs|
    {
      hide Retries, Recovers, ClearsInVain;
      if inputs == [] {
      } else {
        var before, i := inputs[..|inputs| - 1], inputs[|inputs| - 1];
        assert inputs == before + [i];
        ZeroedOrForgotten(before);
        NoneOutstanding(before);
        SomeForgottenStep(before, i);
        NotBoth(Run(before), i);
        ForgottenOutstanding(before);
      }
    }

    lemma ForgottenOutstanding(inputs: seq<I>)
      ensures SomeForgotten(inputs) ==> SomeOutstanding(inputs)
    {
      if SomeForgotten(inputs) {
        var p, q :| ForgottenBy(inputs, p, q);
        assert Outstanding(inputs, p);
      }
    }

    // Main result: in every run the count never passes four, nor the retries since the
    // last recovery, and it equals them exactly when no retry since then was followed
    // by a running step that zeroed the count and failed.
    lemma CountIsRetries(inputs: seq<I>)
      requires Disciplined()
      ensures After(inputs).count <= 4 && After(inputs).count <= RetriesSince(inputs)
      ensures After(inputs).count == RetriesSince(inputs) <==> !SomeForgotten(inputs)
    {
      CountSinceZeroed(inputs);
      ZeroedOrForgotten(inputs);
    }

    // A step into FATAL comes from ERROR, enabled, with the count at four, so after at
    // least four retries.
    lemma FatalAfterFourRetries(inputs: seq<I>, i: I)
      requires Disciplined()
      requires After(inputs).phase != GivenUp && After(inputs + [i]).phase == GivenUp
      ensures After(inputs).phase == Halted && beat(Run(inputs), i).enabled
      ensures After(inputs).count == 4 && RetriesSince(inputs) >= 4
    {
      OneMore(inputs, i);
      CountSinceZeroed(inputs);
      CountIsRetries(inputs);
      assert Next(snap(Run(inputs)), beat(Run(inputs), i), snap(step(Run(inputs), i)));
    }

    // Outside the idle state the stored tick is the one of the entry; disabling does
    // not update it.
    lemma {:induction false} TimedFromEntry(inputs: seq<I>)
      requires Disciplined()
      ensures After(inputs).phase != Idle ==> After(inputs).start == Entered(inputs)
      decreases |inputs|
    {
      if inputs == [] {
      } else {
        var before, i := inputs[..|inputs| - 1], inputs[|inputs| - 1];
        TimedFromEntry(before);
        assert Next(snap(Run(before)), beat(Run(before), i), snap(step(Run(before), i)));
      }
    }

    // So a retry waits out 1000 ticks in ERROR, and a fresh start 2000 in FATAL.
    lemma RestartsWait(inputs: seq<I>, i: I)
      requires Disciplined()
      requires beat(Run(inputs), i).enabled && After(inputs).phase != Idle && After(inputs + [i]).phase == Idle
      ensures After(inputs).phase == Halted || After(inputs).phase == GivenUp
      ensures Elapsed(beat(Run(inputs), i).now, Entered(inputs)) > if After(inputs).phase == Halted then 1000 else 2000
    {
      OneMore(inputs, i);
      TimedFromEntry(inputs);
      assert Next(snap(Run(inputs)), beat(Run(inputs), i), snap(step(Run(inputs), i)));
    }
  }
}
