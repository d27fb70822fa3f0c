// What dev/ad9548/dev_ad9548.h and dev/ad9545/dev_ad9545.h both declare: the states of
// the machine and the private fields its step uses.
module PllStates {
  import opened Recovery

  datatype FsmState = Init | Reset | SetupSysclk | SysclkWaitLock | Setup | Run | Error | Fatal {
    predicate Detected() { SetupSysclk? || SysclkWaitLock? || Setup? || Run? }

    function Code(): nat {
      match this
      case Init => 0
      case Reset => 1
      case SetupSysclk => 2
      case SysclkWaitLock => 3
      case Setup => 4
      case Run => 5
      case Error => 6
      case Fatal => 7
    }

    function PhaseOf(): Phase {
      match this
      case Init => Idle
      case Run => Running
      case Error => Halted
      case Fatal => GivenUp
      case _ => Working
    }
  }

  datatype Pll = Pll(state: FsmState, status: DeviceStatus, count: nat, start: Tick, sysclk: bv8)

  function PowerUp(): Pll { Pll(Init, Unknown, 0, 0, 0) }

  function SnapOf(s: Pll): Snap { Snap(s.state.Code(), s.state.PhaseOf(), s.count, s.start) }

  predicate LockedBit(word: bv8) { word & 1 != 0 }

  // Consecutive clock readings 1001 ticks apart.
  function TickAt(n: nat): Tick { 1001 * n % WRAP }

  lemma TickAfter(n: nat)
    ensures Elapsed(TickAt(n + 1), TickAt(n)) == 1001 && TickAt(0) == 0
  {
    var t := 1001 * n;
    assert t == WRAP * (t / WRAP) + t % WRAP;
    var u := t % WRAP + 1001;
    assert (t + 1001) % WRAP == if u < WRAP then u else u - WRAP by {
      assert t + 1001 == WRAP * (t / WRAP) + u;
    }
  }
}
