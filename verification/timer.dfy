/**
 * The tick-counted software timer of util/timer.h: an 8-bit countdown and a
 * flag byte holding ACTIVE and EXPIRED. The functions below give the effect
 * of each operation on a timer's value; class Timer performs the operations
 * in place and is proved to match them.
 */
module Timers {
  import opened Common

  const ACTIVE: bv8 := 1
  const EXPIRED: bv8 := 2

  /** The value of a struct timer_t: its counter and the two flags the operations use. */
  datatype TimerState = TimerState(counter: U8, active: bool, expired: bool)

  /** A zero-initialised timer: counter 0, no flags. */
  const Idle := TimerState(0, false, false)

  /**
   * timer_start: a nonzero `n` replaces the counter and arms the timer; zero
   * keeps the previous counter and re-arms with it, or, if that is zero too,
   * leaves the timer expired at once.
   */
  function Started(t: TimerState, n: U8): (r: TimerState)
    ensures n != 0 ==> r == TimerState(n, true, false)
    ensures n == 0 ==> r.counter == t.counter
    ensures n == 0 ==> (r.active <==> t.counter != 0) && (r.expired <==> t.counter == 0)
    ensures r.active != r.expired
  {
    var c := if n != 0 then n else t.counter;
    if c != 0 then TimerState(c, true, false) else TimerState(c, false, true)
  }

  /** timer_stop: clears ACTIVE only; the counter is kept for a later start. */
  function Stopped(t: TimerState): (r: TimerState)
    ensures r.counter == t.counter && !r.active && r.expired == t.expired
  {
    t.(active := false)
  }

  /**
   * timer_tick: counts an active timer down; the tick that reaches zero sets
   * EXPIRED and clears ACTIVE. An inactive or used-up timer is unchanged.
   */
  function Ticked(t: TimerState): (r: TimerState)
    ensures !(t.active && t.counter > 0) ==> r == t
    ensures t.active && t.counter > 1 ==> r == t.(counter := t.counter - 1)
    ensures t.active && t.counter == 1 ==> r == TimerState(0, false, true)
  {
    if t.active && t.counter != 0 then
      var c := t.counter - 1;
      if c == 0 then TimerState(c, false, true) else t.(counter := c)
    else t
  }

  /** timer_ack, which led.h calls but the source never defines: clears EXPIRED only. */
  function Acked(t: TimerState): (r: TimerState)
    ensures r.counter == t.counter && r.active == t.active && !r.expired
  {
    t.(expired := false)
  }

  /** The state after `k` ticks. */
  function Ticks(t: TimerState, k: nat): (r: TimerState)
    decreases k
  {
    if k == 0 then t else Ticks(Ticked(t), k - 1)
  }

  /** The timer's own invariant: an active timer has ticks left, and ACTIVE and EXPIRED are never both set. */
  predicate Sane(t: TimerState)
  {
    (t.active ==> t.counter > 0) && !(t.active && t.expired)
  }

  /** Every timer operation keeps Sane, starting from the zeroed timer. */
  lemma SanePreserved(t: TimerState, n: U8)
    requires Sane(t)
    ensures Sane(Idle)
    ensures Sane(Started(t, n)) && Sane(Stopped(t)) && Sane(Ticked(t)) && Sane(Acked(t))
  {
  }

  /** A timer that is not active is unaffected by any number of ticks. */
  lemma {:induction false} InactiveTicks(t: TimerState, k: nat)
    requires !t.active
    ensures Ticks(t, k) == t
    decreases k
  {
    if k > 0 {
      InactiveTicks(Ticked(t), k - 1);
    }
  }

  /** An armed timer counts down one per tick and expires exactly when its counter is used up. */
  lemma {:induction false} Countdown(t: TimerState, k: nat)
    requires t.active && 0 < t.counter && k <= t.counter
    ensures k < t.counter ==> Ticks(t, k) == t.(counter := t.counter - k)
    ensures k == t.counter ==> Ticks(t, k) == TimerState(0, false, true)
    decreases k
  {
    if k > 0 {
      if t.counter == 1 {
        assert Ticks(t, k) == Ticks(Ticked(t), 0);
      } else {
        Countdown(Ticked(t), k - 1);
      }
    }
  }

  /**
   * Starting with n > 0 and ticking: before the n-th tick the timer is active
   * and not expired; from the n-th tick on it is expired and not active, and
   * further ticks change nothing.
   */
  lemma {:induction false} ExpiresOnNthTick(t: TimerState, n: U8, k: nat)
    requires n > 0
    ensures k < n ==>
      var s := Ticks(Started(t, n), k);
      s == TimerState(n - k, true, false)
    ensures k >= n ==>
      var s := Ticks(Started(t, n), k);
      s == TimerState(0, false, true)
  {
    var s0 := Started(t, n);
    if k < n {
      Countdown(s0, k);
    } else {
      Countdown(s0, n);
      TicksAdd(s0, n, k - n);
      InactiveTicks(Ticks(s0, n), k - n);
    }
  }

  /** Ticking a + b times is ticking a times, then b times. */
  lemma {:induction false} TicksAdd(t: TimerState, a: nat, b: nat)
    ensures Ticks(t, a + b) == Ticks(Ticks(t, a), b)
    decreases a
  {
    if a > 0 {
      TicksAdd(Ticked(t), a - 1, b);
    }
  }

  /** struct timer_t, updated in place by the operations of util/timer.h. */
  class Timer {
    var counter: U8
    var flags: bv8

    function State(): (r: TimerState)
      reads this
    {
      TimerState(counter, flags & ACTIVE != 0, flags & EXPIRED != 0)
    }

    /** A zero-initialised timer. */
    constructor ()
      ensures State() == Idle && flags == 0
    {
      counter, flags := 0, 0;
    }

    method Start(n: U8)
      modifies this
      ensures State() == Started(old(State()), n)
    {
      if n != 0 {
        counter := n;
      }
      if counter != 0 {
        flags := flags & !EXPIRED;
        flags := flags | ACTIVE;
      } else {
        flags := flags | EXPIRED;
        flags := flags & !ACTIVE;
      }
    }

    method Stop()
      modifies this
      ensures State() == Stopped(old(State()))
      ensures flags | ACTIVE == old(flags) | ACTIVE
    {
      flags := flags & !ACTIVE;
    }

    method Tick()
      modifies this
      ensures State() == Ticked(old(State()))
      ensures flags | ACTIVE | EXPIRED == old(flags) | ACTIVE | EXPIRED
    {
      if flags & ACTIVE != 0 && counter != 0 {
        counter := counter - 1;
        if counter == 0 {
          flags := flags | EXPIRED;
          flags := flags & !ACTIVE;
        }
      }
    }

    method Ack()
      modifies this
      ensures State() == Acked(old(State()))
      ensures flags | EXPIRED == old(flags) | EXPIRED
    {
      flags := flags & !EXPIRED;
    }
  }
}
