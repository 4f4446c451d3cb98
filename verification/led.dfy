/**
 * The LED pulse scheduler of hardware/led.h: one bit of an 8-bit output
 * port, a polarity-invert flag, and a two-phase "now, then after N ticks"
 * action driven by an embedded software timer, optionally repeating.
 * The functions give the effect of each operation on an LED's value;
 * class Led performs them in place and is proved to match them.
 */
module Leds {
  import opened Common
  import opened Timers

  const ACT_NONE: bv8 := 0
  const ACT_TOGGLE: bv8 := 1
  const ACT_OFF: bv8 := 2
  const ACT_ON: bv8 := 3

  const CFG_INVERT: bv8 := 0x80
  const CONFIG_BITS: bv8 := 0xF0
  const CONFIG_ACT: bv8 := 0x0F

  /** An 8-bit I/O register (a PORTx or DDRx); several LEDs may share one. */
  class Register {
    var value: bv8

    constructor (v: bv8)
      ensures value == v
    {
      value := v;
    }
  }

  /**
   * led_set_state on a port value: the new value of the LED's port register
   * (DriveSpec states what it is).
   */
  function Drive(port: bv8, bit: bv8, config: bv8, action: bv8): (r: bv8)
    ensures r & !bit == port & !bit
  {
    if action == ACT_TOGGLE then port ^ bit
    else if action == ACT_ON then
      (if config & CFG_INVERT != 0 then port & !bit else port | bit)
    else if action == ACT_OFF then
      (if config & CFG_INVERT != 0 then port | bit else port & !bit)
    else port
  }

  /**
   * What led_set_state does to the port: only the LED's bit can change.
   * TOGGLE flips it whatever the polarity; ON and OFF drive it to the level
   * the invert flag calls for; NONE and every other action leave the port
   * as it was.
   */
  lemma DriveSpec(port: bv8, bit: bv8, config: bv8, action: bv8)
    ensures var r := Drive(port, bit, config, action);
      && r & !bit == port & !bit
      && (action == ACT_TOGGLE ==> r & bit == (port & bit) ^ bit)
      && (action == ACT_ON ==> r & bit == if config & CFG_INVERT != 0 then 0 else bit)
      && (action == ACT_OFF ==> r & bit == if config & CFG_INVERT != 0 then bit else 0)
      && (action != ACT_TOGGLE && action != ACT_ON && action != ACT_OFF ==> r == port)
  {
  }

  /** The fields of struct led_t, with the port register's current value in place of the pointer. */
  datatype LedView = LedView(timer: TimerState, port: bv8, bit: bv8, period: U8, config: bv8)

  /** The action applied when the timer expires: the low nibble of `config`. */
  function PendingAction(v: LedView): (r: bv8) { v.config & CONFIG_ACT }

  /**
   * led_pulse: records the repeat period and the after-action (the low
   * nibble of config, the high configuration bits kept), arms the timer for
   * `delay` ticks and applies `now` at once.
   */
  function Pulsed(v: LedView, now: bv8, delay: U8, after: bv8, repeat: U8): (r: LedView)
    ensures r.period == repeat && r.bit == v.bit
    ensures r.config & CONFIG_BITS == v.config & CONFIG_BITS
    ensures PendingAction(r) == after & CONFIG_ACT
    ensures r.timer == Started(v.timer, delay)
    ensures r.port == Drive(v.port, v.bit, v.config, now)
  {
    var config := (v.config & CONFIG_BITS) | (after & CONFIG_ACT);
    LedView(Started(v.timer, delay), Drive(v.port, v.bit, config, now), v.bit, repeat, config)
  }

  /**
   * led_tick: ticks the timer; if it is then expired, re-arms it for the
   * period (or, with no period, acknowledges the expiry) and applies the
   * pending action.
   */
  function LedTicked(v: LedView): (r: LedView)
    ensures r.bit == v.bit && r.period == v.period && r.config == v.config
    ensures !Ticked(v.timer).expired ==> r.timer == Ticked(v.timer) && r.port == v.port
    ensures Ticked(v.timer).expired ==>
      r.port == Drive(v.port, v.bit, v.config, PendingAction(v)) && !r.timer.expired
    ensures Ticked(v.timer).expired && v.period != 0 ==>
      r.timer.counter == v.period && r.timer.active
    ensures Ticked(v.timer).expired && v.period == 0 ==>
      r.timer.counter == Ticked(v.timer).counter && (r.timer.active <==> Ticked(v.timer).active)
  {
    var t := Ticked(v.timer);
    if t.expired then
      var t' := if v.period != 0 then Started(t, v.period) else Acked(t);
      v.(timer := t', port := Drive(v.port, v.bit, v.config, PendingAction(v)))
    else
      v.(timer := t)
  }

  /** led_stop: no repeat period and the timer stopped; the port is not touched. */
  function LedStopped(v: LedView): (r: LedView)
    ensures r.period == 0 && !r.timer.active && r.timer.counter == v.timer.counter
    ensures r.timer.expired <==> v.timer.expired
    ensures r.port == v.port && r.bit == v.bit && r.config == v.config
  {
    v.(period := 0, timer := Stopped(v.timer))
  }

  /** The LED after `k` ticks. */
  function LedTicks(v: LedView, k: nat): (r: LedView)
    decreases k
  {
    if k == 0 then v else LedTicks(LedTicked(v), k - 1)
  }

  /** The port after applying `action` `m` times. */
  function Repeatedly(port: bv8, bit: bv8, config: bv8, action: bv8, m: nat): (r: bv8)
    decreases m
  {
    if m == 0 then port else Repeatedly(Drive(port, bit, config, action), bit, config, action, m - 1)
  }

  /** An LED whose timer is counting down. */
  predicate Armed(v: LedView)
  {
    v.timer.active && !v.timer.expired && v.timer.counter > 0
  }

  /** An LED with nothing pending: its timer neither counts nor reports an expiry. */
  predicate Quiet(v: LedView)
  {
    !v.timer.active && !v.timer.expired
  }

  lemma {:induction false} LedTicksAdd(v: LedView, a: nat, b: nat)
    ensures LedTicks(v, a + b) == LedTicks(LedTicks(v, a), b)
    decreases a
  {
    if a > 0 {
      LedTicksAdd(LedTicked(v), a - 1, b);
    }
  }

  /** Ticks change nothing on a quiet LED. */
  lemma {:induction false} QuietTicks(v: LedView, k: nat)
    requires Quiet(v)
    ensures LedTicks(v, k) == v
    decreases k
  {
    if k > 0 {
      assert LedTicked(v) == v;
      QuietTicks(v, k - 1);
    }
  }

  /**
   * While an armed LED counts down, only its timer changes; on the tick that
   * uses up the counter the pending action is applied, and the timer is
   * re-armed for the period (back to the same flags) or, with no period,
   * left quiet.
   */
  lemma {:induction false} ArmedCountdown(v: LedView, k: nat)
    requires Armed(v) && k <= v.timer.counter
    ensures k < v.timer.counter ==>
      LedTicks(v, k) == v.(timer := v.timer.(counter := v.timer.counter - k))
    ensures k == v.timer.counter && v.period != 0 ==>
      LedTicks(v, k) == v.(timer := TimerState(v.period, true, false),
                           port := Drive(v.port, v.bit, v.config, PendingAction(v)))
    ensures k == v.timer.counter && v.period == 0 ==>
      var w := LedTicks(v, k);
      Quiet(w) && w == v.(timer := w.timer, port := Drive(v.port, v.bit, v.config, PendingAction(v)))
    decreases k
  {
    if k > 0 {
      var w := LedTicked(v);
      if v.timer.counter == 1 {
        assert LedTicks(v, k) == w;
      } else {
        assert w == v.(timer := v.timer.(counter := v.timer.counter - 1));
        ArmedCountdown(w, k - 1);
      }
    }
  }

  /**
   * A one-shot pulse (no repeat period) with delay > 0: the port keeps the
   * `now` state for `delay - 1` ticks; the `delay`-th tick applies the
   * after-action once, and no later tick changes anything.
   */
  lemma OneShotPulse(v: LedView, now: bv8, delay: U8, after: bv8, k: nat)
    requires delay > 0
    ensures var p := Pulsed(v, now, delay, after, 0);
      k < delay ==> LedTicks(p, k).port == Drive(v.port, v.bit, v.config, now)
    ensures var p := Pulsed(v, now, delay, after, 0);
      k >= delay ==>
        && LedTicks(p, k) == LedTicks(p, delay)
        && LedTicks(p, k).port == Drive(p.port, p.bit, p.config, after & CONFIG_ACT)
        && Quiet(LedTicks(p, k))
  {
    var p := Pulsed(v, now, delay, after, 0);
    if k < delay {
      ArmedCountdown(p, k);
    } else {
      ArmedCountdown(p, delay);
      LedTicksAdd(p, delay, k - delay);
      QuietTicks(LedTicks(p, delay), k - delay);
    }
  }

  lemma PeriodsSplit(m: nat, p: nat)
    requires m > 0
    ensures m * p == p + (m - 1) * p
  {
  }

  /**
   * A repeating LED armed for its full period applies its pending action
   * once per period: after m periods the port has seen it m times and the
   * LED is otherwise exactly as it was.
   */
  lemma {:induction false} EveryPeriod(v: LedView, m: nat)
    requires Armed(v) && v.timer.counter == v.period
    ensures LedTicks(v, m * v.period) ==
      v.(port := Repeatedly(v.port, v.bit, v.config, PendingAction(v), m))
    decreases m
  {
    if m > 0 {
      var once := Drive(v.port, v.bit, v.config, PendingAction(v));
      var w := LedTicks(v, v.period);
      ArmedCountdown(v, v.period);
      assert w == v.(port := once);
      var rest := (m - 1) * v.period;
      PeriodsSplit(m, v.period);
      LedTicksAdd(v, v.period, rest);
      EveryPeriod(w, m - 1);
      assert Repeatedly(v.port, v.bit, v.config, PendingAction(v), m)
          == Repeatedly(once, v.bit, v.config, PendingAction(v), m - 1);
    }
  }

  /**
   * A repeating pulse: after `delay` ticks and then every `repeat` ticks the
   * after-action is applied again, and the LED's timer is back to a full
   * period each time.
   */
  lemma RepeatingPulse(v: LedView, now: bv8, delay: U8, after: bv8, repeat: U8, m: nat)
    requires delay > 0 && repeat > 0
    ensures var p := Pulsed(v, now, delay, after, repeat);
      LedTicks(p, delay + m * repeat).port ==
        Repeatedly(p.port, p.bit, p.config, after & CONFIG_ACT, m + 1)
  {
    var p := Pulsed(v, now, delay, after, repeat);
    ArmedCountdown(p, delay);
    var w := LedTicks(p, delay);
    EveryPeriod(w, m);
    LedTicksAdd(p, delay, m * repeat);
  }

  /** Flipping the same bits twice restores the value. */
  lemma FlipTwice(x: bv8, bit: bv8)
    ensures (x ^ bit) ^ bit == x
  {
  }

  /** Repeating TOGGLE flips the LED's bit each time, so a repeating toggle pulse blinks. */
  lemma {:induction false} ToggleAlternates(port: bv8, bit: bv8, config: bv8, m: nat)
    ensures Repeatedly(port, bit, config, ACT_TOGGLE, m) == if m % 2 == 0 then port else port ^ bit
    decreases m
  {
    if m > 0 {
      var flipped := port ^ bit;
      assert Drive(port, bit, config, ACT_TOGGLE) == flipped;
      ToggleAlternates(flipped, bit, config, m - 1);
      FlipTwice(port, bit);
      assert (m - 1) % 2 == 0 <==> m % 2 != 0;
    }
  }

  /**
   * Any action other than TOGGLE gives the same port when repeated: a
   * repeating pulse whose after-action is ON or OFF does not blink.
   */
  lemma {:induction false} SteadyAction(port: bv8, bit: bv8, config: bv8, action: bv8, m: nat)
    requires action != ACT_TOGGLE && m > 0
    ensures Repeatedly(port, bit, config, action, m) == Drive(port, bit, config, action)
    decreases m
  {
    if m > 1 {
      var once := Drive(port, bit, config, action);
      assert Drive(once, bit, config, action) == once;
      SteadyAction(once, bit, config, action, m - 1);
    }
  }

  /** struct led_t and the operations of hardware/led.h that act on it. */
  class Led {
    const timer: Timer
    const port: Register
    const bit: bv8
    var period: U8
    var config: bv8

    function View(): (r: LedView)
      reads this, timer, port
    {
      LedView(timer.State(), port.value, bit, period, config)
    }

    /**
     * led_init: a zeroed LED on `bit` of `port`, the bit made an output in
     * `ddr`, and the LED switched off. The `config` argument is ignored, so
     * the invert flag is always clear afterwards.
     */
    constructor Init(port: Register, ddr: Register, bit: bv8, config: bv8)
      requires ddr != port
      modifies port, ddr
      ensures fresh(timer) && this.port == port && this.bit == bit
      ensures ddr.value == old(ddr.value) | bit
      ensures View() == LedView(Idle, Drive(old(port.value), bit, 0, ACT_OFF), bit, 0, 0)
    {
      timer := new Timer();
      this.port := port;
      this.bit := bit;
      period := 0;
      this.config := 0;
      new;
      ddr.value := ddr.value | bit;
      SetState(ACT_OFF);
    }

    method SetState(action: bv8)
      modifies port
      ensures port.value == Drive(old(port.value), bit, config, action)
    {
      if action == ACT_TOGGLE {
        port.value := port.value ^ bit;
        return;
      }
      if action == ACT_ON {
        if config & CFG_INVERT != 0 {
          port.value := port.value & !bit;
        } else {
          port.value := port.value | bit;
        }
      } else if action == ACT_OFF {
        if config & CFG_INVERT != 0 {
          port.value := port.value | bit;
        } else {
          port.value := port.value & !bit;
        }
      }
    }

    method Stop()
      modifies this, timer
      ensures View() == LedStopped(old(View()))
    {
      period := 0;
      timer.Stop();
    }

    method Pulse(now: bv8, delay: U8, after: bv8, repeat: U8)
      modifies this, timer, port
      ensures View() == Pulsed(old(View()), now, delay, after, repeat)
    {
      period := repeat;
      config := (config & CONFIG_BITS) | (after & CONFIG_ACT);
      timer.Start(delay);
      SetState(now);
    }

    method Tick()
      modifies this, timer, port
      ensures View() == LedTicked(old(View()))
    {
      timer.Tick();
      if timer.flags & EXPIRED != 0 {
        if period != 0 {
          timer.Start(period);
        } else {
          timer.Ack();
        }
        SetState(config & CONFIG_ACT);
      }
    }
  }
}
