# Non-blocking I/O layer of the AVR programmer firmware, in Dafny

This project models the part of the firmware that moves bytes between
interrupt handlers and the main loop without blocking:

- **the ring FIFO of bytes** (`util/fifo.h`): caller-owned storage, a
  capacity, a fill count and read/write cursors that wrap at the capacity;
  reads and writes report empty or full through their return value;
- **the tick-counted software timer** (`util/timer.h`): an 8-bit countdown
  with ACTIVE and EXPIRED flags;
- **the LED pulse scheduler** (`hardware/led.h`): one bit of a port
  register, a polarity-invert flag, an action applied now and another
  applied when the embedded timer expires, optionally every `period` ticks;
- **the USART1 driver** (`hardware/usart.c`): the baud divisor choice, the
  duplex controller (`usart_duplex`: receive/transmit enables and a
  direction OFF, RX, TX or FULL) and how it drives the enable/interrupt
  groups of UCSR1B, the transmit-request handler and the receive,
  transmit-complete and data-register-empty interrupt handlers.

Each stateful structure of the source is a class (`Fifos.Fifo`,
`Timers.Timer`, `Leds.Led`, `Usart.Driver`) whose methods change their
fields in place. Every method states its new state as a function of the old
one: `Fifo` through a ghost `Contents` sequence (oldest byte first) tied to
the array by `Valid()`, `Timer` and `Led` through value views (`TimerState`,
`LedView`) and pure functions (`Started`, `Ticked`, `Pulsed`, `LedTicked`,
...), and `Driver` through the duplex record and the register values.
Properties over several steps (countdowns, repeating pulses, the
half-duplex turnaround, the divisor choice) are lemmas about those
functions.

Files: `common.dfy` (byte-sized numbers, `Min`, `Option`), `fifo.dfy`,
`timer.dfy`, `led.dfy`, `usart.dfy`.

Where the code leaves something undefined, the model fills it as follows:

- `fifo_peek_one` is called but never defined: it reports whether the FIFO
  holds a byte (`Fifo.PeekOne`).
- `timer_ack` is called but never defined: it clears EXPIRED only
  (`Timers.Acked`).
- `fifo_read` uses a `byte` variable that is never declared: it is taken as
  the result of a first `fifo_read_one` before the loop. As written, the
  loop then takes one byte more out of the FIFO than it delivers whenever
  `sz` runs out while bytes remain (`Fifo.Read` states the exact amount).
- `struct fifo_t` has no consumer-handler fields and `fifo_write_one` never
  notifies anyone, although `usart_init` installs a handler for new
  transmit data. The model makes the notification explicit:
  `Driver.EnqueueTx` is `fifo_write_one` on the transmit FIFO followed, when
  the byte was stored and `usart_init` has installed the handler, by the
  handler (`Driver.TxFifoEvent`).
- `USART_MODE_HDUPLEX` is not defined in `hardware/usart.h`: half duplex is
  a separate boolean argument of `Driver.Init`.

Behaviour kept as written, where the comments or the evident intent
suggest otherwise:

- The direction is turned around in the data-register-empty handler, not
  in the transmit-complete handler.
- That handler's TX case has no `break`, so after choosing RX or OFF it
  falls into the default case and always ends OFF: a half-duplex link that
  has finished sending does not go back to listening
  (`Usart.AfterDrained`, `Usart.HalfDuplexBurst`).
- For the /8 prescaler `usart_init` writes the constant `U2X1` itself
  (the bit number 1) into UCSR1A instead of the mask `1 << U2X1`, so the
  double-speed bit stays clear and MPCM1 (bit 0) is set
  (`Usart.Ucsr1aFor`).
- `led_init` ignores its `config` argument, so the invert flag is clear
  after initialisation.
- A repeating pulse applies the same after-action every period; it blinks
  only when that action is TOGGLE (`Leds.ToggleAlternates`,
  `Leds.SteadyAction`).

The UCSR1B and UCSR1A bit positions (RXCIE1 = 7, TXCIE1 = 6, UDRIE1 = 5,
RXEN1 = 4, TXEN1 = 3, UCSZ12 = 2; TXC1 = 6, UDRE1 = 5, U2X1 = 1,
MPCM1 = 0) and the UCSR1A reset value 0x20 are those of the ATmega32U4;
they come from the device headers, which are not part of this model.
`F_CPU` is the constant field `Driver.fCpu`.

## Model

| member | source | states |
|---|---|---|
| Fifos.Ring | util/fifo.h:28-34 | the bytes a FIFO holds: `n` bytes of the storage read from the read cursor on, wrapping at the capacity |
| Fifos.RingPush | util/fifo.h:77-79 | storing a byte at the write cursor (read cursor plus count) and counting it appends the byte to the contents |
| Fifos.RingPop | util/fifo.h:63-65 | advancing the read cursor by one (wrapping) and counting one byte less drops the oldest byte of the contents |
| Fifos.Fifo.constructor | util/fifo.h:28-34 | a FIFO before `fifo_init`: every field zero, no storage, empty contents |
| Fifos.Fifo.Empty | util/fifo.h:39-43 | count and both cursors become 0, storage and capacity are untouched, the contents become empty |
| Fifos.Fifo.Init | util/fifo.h:48-53 | the FIFO is emptied and bound to the caller's storage and size; the storage is not written |
| Fifos.Fifo.PeekOne | hardware/usart.c:194 | true exactly when the FIFO holds a byte |
| Fifos.Fifo.ReadOne | util/fifo.h:59-67 | on an empty FIFO returns -1 and changes nothing; otherwise returns the byte at the read cursor (0..255), which is the oldest byte, decrements the count, advances the read cursor modulo the capacity and removes that byte from the contents; the ring invariant is kept |
| Fifos.Fifo.WriteOne | util/fifo.h:73-81 | on a full FIFO returns 0 and changes nothing; otherwise stores the byte at the old write cursor, increments the count, advances the write cursor modulo the capacity, returns 1 and appends the byte to the contents; the ring invariant is kept |
| Fifos.Fifo.Read | util/fifo.h:86-97 | delivers min(sz, stored) bytes, the oldest ones in order, into the destination and leaves the rest of it unchanged; removes min(sz + 1, stored) bytes from the FIFO |
| Fifos.Fifo.Write | util/fifo.h:102-111 | stops at the first refused write; returns min(sz, capacity − stored) and appends exactly that prefix of the source |
| Timers.Started | util/timer.h:46-57 | a nonzero `n` sets the counter and arms the timer (ACTIVE, not EXPIRED); zero keeps the counter and arms the timer if it is nonzero, else sets EXPIRED and clears ACTIVE; ACTIVE and EXPIRED always differ afterwards |
| Timers.Stopped | util/timer.h:62-64 | ACTIVE cleared; counter and EXPIRED unchanged |
| Timers.Ticked | util/timer.h:67-75 | an inactive timer or a zero counter is unchanged; otherwise the counter drops by one, and the tick that reaches zero sets EXPIRED and clears ACTIVE |
| Timers.Acked | hardware/led.h:132 | EXPIRED cleared; counter and ACTIVE unchanged |
| Timers.SanePreserved | util/timer.h:46-75 | the zeroed timer satisfies "ACTIVE implies counter > 0, and not both flags", and start, stop, tick and ack preserve it |
| Timers.InactiveTicks | util/timer.h:68 | any number of ticks leave an inactive timer unchanged |
| Timers.Countdown | util/timer.h:67-75 | an armed timer with counter c, after k ≤ c ticks, holds c − k and is still armed while k < c, and is expired and inactive with counter 0 at k = c |
| Timers.ExpiresOnNthTick | util/timer.h:5-11 | after starting with n > 0, the timer is active with n − k left for k < n ticks and is expired with counter 0 from the n-th tick on |
| Timers.TicksAdd | util/timer.h:67-75 | ticking a + b times is ticking a times, then b times |
| Timers.Timer.constructor | util/timer.h:37-40 | a zero-initialised timer: counter 0, no flags |
| Timers.Timer.Start | util/timer.h:46-57 | the timer's new value is `Started` of the old one |
| Timers.Timer.Stop | util/timer.h:62-64 | the timer's new value is `Stopped` of the old one; no flag other than ACTIVE changes |
| Timers.Timer.Tick | util/timer.h:67-75 | the timer's new value is `Ticked` of the old one; no flag other than ACTIVE and EXPIRED changes |
| Timers.Timer.Ack | hardware/led.h:132 | the timer's new value is `Acked` of the old one; no flag other than EXPIRED changes |
| Leds.Drive | hardware/led.h:62-80 | `led_set_state` on a port value never changes a bit outside the LED's mask (the full effect per action is `DriveSpec`) |
| Leds.DriveSpec | hardware/led.h:62-80 | `led_set_state`: only the LED's bits of the port can change, TOGGLE flips them whatever the polarity, ON and OFF drive them according to the invert flag, NONE and any other action leave the port unchanged |
| Leds.Pulsed | hardware/led.h:105-118 | `led_pulse` sets the period to the repeat delay, replaces only the low nibble of config with the after-action, starts the timer with the delay and applies `now` to the port |
| Leds.LedTicked | hardware/led.h:123-136 | `led_tick` ticks the timer; if the timer is then not expired nothing else changes; if it is, the pending action is applied and EXPIRED is cleared, with the timer re-armed for the period when there is one and otherwise only acknowledged |
| Leds.LedStopped | hardware/led.h:85-88 | `led_stop` sets the period to 0 and clears ACTIVE; counter, EXPIRED, port and config are untouched |
| Leds.LedTicksAdd | hardware/led.h:123-136 | ticking an LED a + b times is ticking it a times, then b times |
| Leds.QuietTicks | hardware/led.h:123-136 | ticks change nothing on an LED whose timer is neither active nor expired |
| Leds.ArmedCountdown | hardware/led.h:123-136 | while an armed LED counts down only its counter changes; on the tick that uses it up the pending action is applied and the timer is re-armed for the period, or, with no period, left neither active nor expired |
| Leds.OneShotPulse | hardware/led.h:105-136 | a pulse with no repeat and delay > 0 keeps the `now` state for fewer than `delay` ticks; from the `delay`-th tick on the after-action has been applied once and later ticks change nothing |
| Leds.EveryPeriod | hardware/led.h:127-134 | an LED armed for its full period, after m periods, has applied its pending action m times and is otherwise as it was |
| Leds.RepeatingPulse | hardware/led.h:105-136 | with a repeat period, after `delay + m·repeat` ticks the after-action has been applied m + 1 times |
| Leds.ToggleAlternates | hardware/led.h:64-67 | repeating TOGGLE m times gives the original port for even m and the port with the LED's bit flipped for odd m |
| Leds.SteadyAction | hardware/led.h:69-79 | repeating any action other than TOGGLE gives the same port as applying it once, so a repeating ON or OFF pulse does not blink |
| Leds.Led.Init | hardware/led.h:93-100 | a zeroed LED on `bit` of `port`, the bit made an output in the data-direction register, the LED switched off with the invert flag clear (the `config` argument is ignored) |
| Leds.Led.SetState | hardware/led.h:62-80 | the port's new value is `Drive` of the old one for the LED's bit, config and the action |
| Leds.Led.Stop | hardware/led.h:85-88 | the LED's new value is `LedStopped` of the old one |
| Leds.Led.Pulse | hardware/led.h:105-118 | the LED's new value is `Pulsed` of the old one |
| Leds.Led.Tick | hardware/led.h:123-136 | the LED's new value is `LedTicked` of the old one |
| Usart.UbrrVal | hardware/usart.c:29-30 | `UBRR_VAL` is f / baud rounded to the nearest integer, halves rounded up |
| Usart.UbrrErr | hardware/usart.c:33-34 | `UBRR_ERR` is negative exactly when f · div falls short of the baud rate, and never below −baud |
| Usart.Ucsr1aFor | hardware/usart.c:147 | UCSR1A after `usart_init` as written: 0 for /16 and the bit number `U2X1` for /8, so U2X1 is never set and MPCM1 is set exactly for /8 |
| Usart.ChooseDivisor | hardware/usart.c:95-114 | no divisor exactly when both the /16 and the /8 values are 0; a chosen /16 or /8 divisor carries that prescaler's nonzero value |
| Usart.Div8NotBelowDiv16 | hardware/usart.c:25-30 | the /8 prescaler never gives a smaller UBRR value than /16 |
| Usart.InitFailsIffTooFast | hardware/usart.c:95-100 | `usart_init` finds no divisor exactly when F_CPU/8 + baud/2 < baud |
| Usart.KeepsDiv16 | hardware/usart.c:102-114 | with `UBRR_ERR` over unbounded integers, /16 is kept whenever its value is nonzero and F_CPU/16 · value ≥ baud |
| Usart.EncodeRoundTrip | hardware/usart.c:37-48 | the byte layout of `usart_duplex` loses nothing: decoding an encoded record gives it back, and encoding a decoded byte gives its low nibble |
| Usart.SetDirLayout | hardware/usart.c:84-86 | masking a direction code into `usart_duplex` changes only the direction and keeps both enable bits |
| Usart.DirectionBits | hardware/usart.c:53-81 | after `usart_update_dir` the receive group of UCSR1B is on exactly in RX and FULL, the transmit group exactly in TX and FULL, and every other UCSR1B bit is unchanged |
| Usart.InitialDuplex | hardware/usart.c:120-134 | the enables follow mode bits 13 and 12; half duplex starts in RX when receiving is enabled and otherwise OFF; full duplex opens exactly the enabled directions |
| Usart.InitialDuplexLayout | hardware/usart.c:120-134 | the bit arithmetic as written, including the enable bits shifted into the state bits in full duplex, is exactly the encoding of `InitialDuplex` |
| Usart.AfterTxRequest | hardware/usart.c:169-178 | the transmit-request handler's effect on `usart_duplex`: the enables are kept, and the direction changes exactly when transmitting is enabled and the link is in RX, and then to TX |
| Usart.AfterDrained | hardware/usart.c:199-214 | with an empty transmit FIFO, FULL is left alone and every other direction, TX included, ends OFF with the enables kept |
| Usart.DirectionWithinEnables | hardware/usart.c:120-214 | initialisation, the transmit-request handler and the drained case keep the enables and never open a direction that is not enabled |
| Usart.TxDisabledKeepsDirection | hardware/usart.c:170-173 | with the transmitter disabled, a transmit request leaves `usart_duplex` unchanged |
| Usart.HalfDuplexNeverFull | hardware/usart.c:123-214 | half duplex never starts in FULL, a transmit request never makes a non-FULL link FULL, and a drained non-FULL link is OFF |
| Usart.FullDuplexStaysFull | hardware/usart.c:131-202 | full duplex with both directions enabled starts in FULL, and neither a transmit request nor a drained FIFO changes it |
| Usart.HalfDuplexBurst | hardware/usart.c:120-217 | half duplex with both enables: RX at start, TX after the first queued byte, OFF (not RX) once the FIFO drains, and a later queued byte leaves it OFF |
| Usart.Driver.constructor | hardware/usart.c:37 | the driver at reset: `usart_duplex` zero, UCSR1A at its device reset value 0x20 (UDRE1 set), UCSR1B and UDR1 zero, no handler installed, nothing sent |
| Usart.Driver.UpdateDir | hardware/usart.c:58-82 | UCSR1B becomes `DirectionBits` of its old value for the current direction |
| Usart.Driver.SetDir | hardware/usart.c:84-88 | the direction is replaced with the enables kept, and UCSR1B is updated for the new direction |
| Usart.Driver.Init | hardware/usart.c:93-155 | with no usable divisor returns -1 and changes nothing; otherwise records the chosen divisor, sets UCSR1A to `Ucsr1aFor` of it, sets `usart_duplex` to `InitialDuplex`, rebuilds UCSR1B from zero (ninth-data-bit flag and direction groups), installs the transmit handler and returns 0 |
| Usart.Driver.SendNext | hardware/usart.c:157-166 | with an empty transmit FIFO nothing changes; otherwise the oldest byte leaves the FIFO, is written to UDR1 and appended to the bytes sent, and the transmit LED (if any) is pulsed ON for the LED delay, then OFF |
| Usart.Driver.TxFifoEvent | hardware/usart.c:168-182 | with the transmitter disabled the oldest queued byte is discarded and nothing else changes; otherwise the FIFO is kept, RX turns to TX (with UCSR1B updated), other directions stay, and TXC1 is set in UCSR1A |
| Usart.Driver.EnqueueTx | hardware/usart.c:152-182 | returns 1 exactly when the transmit FIFO had room; a refused byte changes nothing; a stored byte is appended and, with the handler installed, the handler runs: with transmitting disabled the oldest byte is dropped and UCSR1A and UCSR1B are kept, otherwise an RX link turns to TX with UCSR1B switched to the transmit group and TXC1 is set in UCSR1A |
| Usart.Driver.RxIsr | hardware/usart.c:184-189 | the received byte is appended to the receive FIFO when there is room and dropped otherwise; the receive LED (if any) is pulsed either way |
| Usart.Driver.TxIsr | hardware/usart.c:190-192 | exactly the effect of `SendNext` |
| Usart.Driver.UdreIsr | hardware/usart.c:193-217 | while bytes are queued, the effect of `SendNext` with the direction untouched; with an empty FIFO, `usart_duplex` becomes `AfterDrained` of its old value and UCSR1B is updated for OFF unless the link is FULL |
| Usart.Driver.Drained | hardware/usart.c:199-215 | the switch of the empty-FIFO case, fall-through included, gives `AfterDrained` and the matching UCSR1B |

## Left out

- Setting up UCSR1C, UBRR1 and the PD2/PD3 pin directions in `usart_init`
  (hardware/usart.c:137-146): these depend on device header constants that
  are not part of this model; the model records only the chosen divisor
  (`Driver.divisor`). UCSR1A is modelled as written (hardware/usart.c:147
  stores the bit number `U2X1`, not its mask), but what its bits do to the
  baud rate or to frame reception is not.
- Usart.Driver.Init: requires a nonzero baud rate below 2^32. The source's
  `uint32_t baud` admits 0, for which `UBRR_VAL` divides by zero
  (hardware/usart.c:95-96); that undefined case is excluded.
- Usart.UbrrVal: requires a nonzero baud rate, as `UBRR_VAL` divides by it.
- Usart.ChooseDivisor: requires a nonzero baud rate, for the same reason.
- Usart.ChooseDivisor: `UBRR_ERR` is evaluated over unbounded integers; the
  source computes it in `uint32_t` and stores it in `int32_t`, which wraps
  at low baud rates, and that wrap is not modelled. `UBRR_ERR` is also not
  a baud-rate error, so no "closest rate" property is claimed.
- Usart.Driver.TxFifoEvent: the write of TXC1 into UCSR1A is modelled as a
  register update only; what the hardware does with it (whether a
  transmit-complete interrupt follows) is not modelled.
- Usart.Driver.RxIsr: the byte read from UDR1 is a parameter; the receive
  data register itself is not modelled.
- Usart.Driver.EnqueueTx: only `FIFO_EVT_NEW` is modelled; the `events`
  argument of the handler and its mask field do not exist in the FIFO type.
- Usart.Driver: the two LEDs may be absent (a null reference), standing for
  the address test of the aliased LED objects; the objects themselves and
  the aliases are set up by `main.c`, which is not part of this model.
- Leds.Led.Init: requires the data-direction register and the port register
  to be different registers, as they are on the device.
- Fifos.Fifo.Read: requires the destination array to be different from the
  FIFO's own storage.
- Timers.Timer.Start: states the effect on ACTIVE, EXPIRED and the counter,
  but not that the other flag bits are kept.
- Interrupt interleaving: each handler is one atomic method; preemption
  between the main loop and the handlers is not modelled.
- Debug output (`util/debug.h` and the `fprintf` in `usart_update_dir`).
- `main.c` (USB glue, clock and timer setup, the main loop, the connection
  handlers) and the protocol files: not part of this model.
- `led_get_state` (hardware/led.h:55-57) is not used by the modelled
  operations and is not modelled.
