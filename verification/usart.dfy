/**
 * hardware/usart.c: the USART1 driver. One byte, usart_duplex, holds the
 * receive and transmit enable bits and a two-bit direction state; the
 * direction decides which interrupt/enable group of UCSR1B is switched on.
 * The functions give the pure parts (divisor choice, duplex transitions,
 * UCSR1B mapping); class Driver holds the driver's state and performs the
 * initialisation, the transmit-request handler and the three interrupt
 * handlers on it.
 */
module Usart {
  import opened Common
  import opened Fifos
  import opened Leds

  /* usart_duplex: enable bits 0-1, direction state bits 2-3. */
  const RX_EN: bv8 := 0x01
  const TX_EN: bv8 := 0x02
  const STATE_OFF: bv8 := 0x00
  const STATE_RX: bv8 := 0x04
  const STATE_TX: bv8 := 0x08
  const STATE_FULL: bv8 := 0x0C
  const EN_MASK: bv8 := 0x03
  const STATE_MASK: bv8 := 0x0C

  /*
   * UCSR1B groups, with the ATmega32U4 bit positions RXCIE1 = 7,
   * TXCIE1 = 6, UDRIE1 = 5, RXEN1 = 4, TXEN1 = 3 and UCSZ12 = 2;
   * in UCSR1A, TXC1 = 6.
   */
  const UCSR1B_RX: bv8 := 0x90
  const UCSR1B_TX: bv8 := 0x68
  const UCSZ12: bv8 := 0x04
  const TXC1: bv8 := 0x40
  /* UCSR1A at reset: only the data-register-empty flag UDRE1 (bit 5). */
  const UCSR1A_RESET: bv8 := 0x20

  /**
   * What usart_init writes to UCSR1A for the /8 prescaler: the constant
   * U2X1, which is the bit number 1 rather than the mask (1 << U2X1). This
   * sets MPCM1 (bit 0) and leaves the double-speed bit U2X1 clear.
   */
  const U2X1_AS_WRITTEN: bv8 := 1
  const U2X1_MASK: bv8 := 0x02
  const MPCM1_MASK: bv8 := 0x01

  /* The bits of usart_init's `mode` word that this model reads. */
  const MODE_RXEN: bv16 := 0x2000
  const MODE_TXEN: bv16 := 0x1000
  const MODE_UCSZ2: bv16 := 0x0800

  // ---------------------------------------------------------------------
  // Baud-rate divisor
  // ---------------------------------------------------------------------

  /**
   * The prescaler usart_init settles on: UBRR1 divides F_CPU/16 (Div16) or
   * F_CPU/8 (Div8). For /8 the code means to set U2X1 in UCSR1A but writes
   * the bit number instead of its mask (see U2X1_AS_WRITTEN).
   */
  datatype Divisor = Div16(ubrr: nat) | Div8(ubrr: nat)

  /** UBRR_VAL: f / baud, rounded to the nearest integer (halves up). */
  function UbrrVal(f: nat, baud: nat): (v: nat)
    requires baud > 0
    ensures v * baud <= f + baud / 2 < (v + 1) * baud
  {
    (f + baud / 2) / baud
  }

  /**
   * UBRR_ERR, over unbounded integers: how far f * div overshoots the baud
   * rate, negative exactly when it falls short.
   */
  function UbrrErr(f: nat, div: nat, baud: nat): (r: int)
    ensures r < 0 <==> f * div < baud
    ensures r >= -(baud as int)
  {
    f * div - baud
  }

  function Abs(x: int): (r: nat)
  {
    if x < 0 then -x else x
  }

  /**
   * The divisor part of usart_init: None when neither prescaler gives a
   * non-zero UBRR value; otherwise /16 unless both are usable and /16's
   * UBRR_ERR is larger in magnitude than /8's.
   */
  function ChooseDivisor(fCpu: nat, baud: nat): (r: Option<Divisor>)
    requires baud > 0
    ensures r == None <==> UbrrVal(fCpu / 16, baud) == 0 && UbrrVal(fCpu / 8, baud) == 0
    ensures r.Some? && r.value.Div16? ==> r.value.ubrr == UbrrVal(fCpu / 16, baud) > 0
    ensures r.Some? && r.value.Div8? ==> r.value.ubrr == UbrrVal(fCpu / 8, baud) > 0
  {
    var u16 := UbrrVal(fCpu / 16, baud);
    var u8 := UbrrVal(fCpu / 8, baud);
    if u16 == 0 && u8 == 0 then None
    else if u16 != 0 && u8 != 0
         && Abs(UbrrErr(fCpu / 16, u16, baud)) > Abs(UbrrErr(fCpu / 8, u8, baud))
    then Some(Div8(u8))
    else if u16 != 0 then Some(Div16(u16))
    else Some(Div8(u8))
  }

  lemma DivMonotone(x: nat, y: nat, b: nat)
    requires x <= y && b > 0
    ensures x / b <= y / b
  {
    var qx, qy := x / b, y / b;
    assert b * qx <= x;
    assert y < b * (qy + 1);
    if qy + 1 <= qx {
      MulMonotone(b, qy + 1, b, qx);
    }
  }

  lemma DivZero(x: nat, b: nat)
    requires b > 0
    ensures x / b == 0 <==> x < b
  {
  }

  lemma MulMonotone(a: nat, b: nat, c: nat, d: nat)
    requires a <= c && b <= d
    ensures a * b <= c * d
  {
    assert a * b <= c * b;
    assert c * b <= c * d;
  }

  /** The /8 prescaler never yields a smaller UBRR value than /16. */
  lemma {:induction false} Div8NotBelowDiv16(f: nat, baud: nat)
    requires baud > 0
    ensures f / 16 <= f / 8
    ensures UbrrVal(f / 16, baud) <= UbrrVal(f / 8, baud)
  {
    assert f / 16 <= f / 8;
    DivMonotone(f / 16 + baud / 2, f / 8 + baud / 2, baud);
  }

  /** usart_init fails exactly when even the /8 prescaler rounds to zero. */
  lemma {:induction false} InitFailsIffTooFast(f: nat, baud: nat)
    requires baud > 0
    ensures ChooseDivisor(f, baud) == None <==> f / 8 + baud / 2 < baud
  {
    Div8NotBelowDiv16(f, baud);
    DivZero(f / 8 + baud / 2, baud);
  }

  /**
   * With UBRR_ERR taken over unbounded integers, /16 is kept whenever its
   * value does not fall short of the baud rate.
   */
  lemma {:induction false} KeepsDiv16(f: nat, baud: nat)
    requires baud > 0
    requires UbrrVal(f / 16, baud) > 0
    requires (f / 16) * UbrrVal(f / 16, baud) >= baud
    ensures ChooseDivisor(f, baud) == Some(Div16(UbrrVal(f / 16, baud)))
  {
    var u16 := UbrrVal(f / 16, baud);
    var u8 := UbrrVal(f / 8, baud);
    Div8NotBelowDiv16(f, baud);
    MulMonotone(f / 16, u16, f / 8, u8);
  }

  /**
   * UCSR1A as usart_init leaves it for the chosen prescaler. For /8 the
   * value written is U2X1_AS_WRITTEN, so the double-speed bit stays clear
   * and the multi-processor mode bit MPCM1 is set instead.
   */
  function Ucsr1aFor(d: Divisor): (r: bv8)
    ensures r & U2X1_MASK == 0
    ensures r & MPCM1_MASK != 0 <==> d.Div8?
    ensures r & !MPCM1_MASK == 0
  {
    if d.Div16? then 0 else U2X1_AS_WRITTEN
  }

  // ---------------------------------------------------------------------
  // Duplex state and UCSR1B
  // ---------------------------------------------------------------------

  /** The four direction states of usart_duplex. */
  datatype Dir = Off | Rx | Tx | Full

  /** usart_duplex: the two enable bits and the direction state. */
  datatype Duplex = Duplex(rxEn: bool, txEn: bool, dir: Dir)

  /** The direction's code in bits 2-3 of usart_duplex. */
  function DirBits(s: Dir): (r: bv8)
  {
    match s
    case Off => STATE_OFF
    case Rx => STATE_RX
    case Tx => STATE_TX
    case Full => STATE_FULL
  }

  /** The byte usart_duplex holds for `d`. */
  function Encode(d: Duplex): (r: bv8)
  {
    (if d.rxEn then RX_EN else 0) | (if d.txEn then TX_EN else 0) | DirBits(d.dir)
  }

  /** Reads the enable bits and the direction back out of a usart_duplex byte. */
  function Decode(b: bv8): (r: Duplex)
  {
    var state := b & STATE_MASK;
    Duplex(b & RX_EN != 0, b & TX_EN != 0,
           if state == STATE_FULL then Full
           else if state == STATE_TX then Tx
           else if state == STATE_RX then Rx
           else Off)
  }

  /** Encoding loses nothing, and decoding ignores only the unused high nibble. */
  lemma EncodeRoundTrip(d: Duplex, b: bv8)
    ensures Decode(Encode(d)) == d
    ensures Encode(Decode(b)) == b & 0x0F
  {
  }

  /** The direction only opens what is enabled. */
  predicate WithinEnables(d: Duplex)
  {
    && (d.dir == Rx || d.dir == Full ==> d.rxEn)
    && (d.dir == Tx || d.dir == Full ==> d.txEn)
  }

  /** usart_set_dir's update of the usart_duplex byte, as written with masks. */
  function SetDirBits(b: bv8, dir: bv8): (r: bv8)
  {
    (b & !STATE_MASK) | (dir & STATE_MASK)
  }

  /** Masking in a direction code changes the direction and keeps both enable bits. */
  lemma SetDirLayout(d: Duplex, s: Dir)
    ensures SetDirBits(Encode(d), DirBits(s)) == Encode(d.(dir := s))
  {
  }

  /**
   * UCSR1B after usart_update_dir in direction `s`: the receive group is
   * on exactly in RX and FULL, the transmit group exactly in TX and FULL,
   * and every other bit is kept.
   */
  function DirectionBits(ucsr: bv8, s: Dir): (r: bv8)
    ensures r & !(UCSR1B_RX | UCSR1B_TX) == ucsr & !(UCSR1B_RX | UCSR1B_TX)
    ensures r & UCSR1B_RX == (if s == Full || s == Rx then UCSR1B_RX else 0)
    ensures r & UCSR1B_TX == (if s == Full || s == Tx then UCSR1B_TX else 0)
  {
    var rx := if s == Full || s == Rx then UCSR1B_RX else 0;
    var tx := if s == Full || s == Tx then UCSR1B_TX else 0;
    (ucsr & !(UCSR1B_RX | UCSR1B_TX)) | rx | tx
  }

  /** The duplex part of usart_init, on the bits as written. */
  function InitialDuplexBits(mode: bv16, halfDuplex: bool): (r: bv8)
  {
    var en := (if mode & MODE_RXEN != 0 then RX_EN else 0)
            | (if mode & MODE_TXEN != 0 then TX_EN else 0);
    if halfDuplex then en | (if en & RX_EN != 0 then STATE_RX else STATE_OFF)
    else en | ((en & EN_MASK) << 2)
  }

  /**
   * The duplex part of usart_init: the enables come from the mode; half
   * duplex starts listening when it may receive, full duplex opens every
   * enabled direction.
   */
  function InitialDuplex(mode: bv16, halfDuplex: bool): (d: Duplex)
    ensures d.rxEn <==> mode & MODE_RXEN != 0
    ensures d.txEn <==> mode & MODE_TXEN != 0
    ensures halfDuplex ==> d.dir == (if d.rxEn then Rx else Off)
    ensures !halfDuplex ==> (d.dir == Rx || d.dir == Full <==> d.rxEn)
    ensures !halfDuplex ==> (d.dir == Tx || d.dir == Full <==> d.txEn)
  {
    var rx := mode & MODE_RXEN != 0;
    var tx := mode & MODE_TXEN != 0;
    var dir :=
      if halfDuplex then (if rx then Rx else Off)
      else if rx && tx then Full
      else if rx then Rx
      else if tx then Tx
      else Off;
    Duplex(rx, tx, dir)
  }

  /**
   * The bit arithmetic of usart_init (the shift by two of the enable bits
   * in full duplex) yields exactly the encoding of InitialDuplex.
   */
  lemma InitialDuplexLayout(mode: bv16, halfDuplex: bool)
    ensures InitialDuplexBits(mode, halfDuplex) == Encode(InitialDuplex(mode, halfDuplex))
  {
  }

  /**
   * usart_duplex after the transmit-request handler: unchanged when the
   * transmitter is disabled (the byte is discarded) or when not in RX;
   * switched from RX to TX otherwise.
   */
  function AfterTxRequest(d: Duplex): (r: Duplex)
    ensures r.rxEn == d.rxEn && r.txEn == d.txEn
    ensures r.dir != d.dir <==> d.txEn && d.dir == Rx
    ensures r.dir != d.dir ==> r.dir == Tx
  {
    if !d.txEn then d
    else if d.dir == Rx then d.(dir := Tx)
    else d
  }

  /**
   * usart_duplex after the data-register-empty interrupt found the
   * transmit FIFO empty. The TX case has no `break`, so its choice between
   * RX and OFF is always overwritten by the default case's OFF.
   */
  function AfterDrained(d: Duplex): (r: Duplex)
    ensures d.dir == Full ==> r == d
    ensures d.dir != Full ==> r == d.(dir := Off)
  {
    if d.dir == Full then d
    else
      var afterCase := if d.dir == Tx then d.(dir := if d.rxEn then Rx else Off) else d;
      afterCase.(dir := Off)
  }

  /** Every duplex transition keeps the enables and keeps the direction within them. */
  lemma DirectionWithinEnables(mode: bv16, halfDuplex: bool, d: Duplex)
    ensures WithinEnables(InitialDuplex(mode, halfDuplex))
    ensures WithinEnables(d) ==> WithinEnables(AfterTxRequest(d)) && WithinEnables(AfterDrained(d))
    ensures AfterTxRequest(d).rxEn == d.rxEn && AfterTxRequest(d).txEn == d.txEn
    ensures AfterDrained(d).rxEn == d.rxEn && AfterDrained(d).txEn == d.txEn
  {
  }

  /** Without the transmitter enabled, queued bytes never change the direction. */
  lemma TxDisabledKeepsDirection(d: Duplex)
    requires !d.txEn
    ensures AfterTxRequest(d) == d
  {
  }

  /** In half-duplex mode the link never reaches FULL, and a drained link is OFF. */
  lemma HalfDuplexNeverFull(mode: bv16, d: Duplex)
    ensures InitialDuplex(mode, true).dir != Full
    ensures d.dir != Full ==> AfterTxRequest(d).dir != Full
    ensures d.dir != Full ==> AfterDrained(d).dir == Off
  {
  }

  /** Full duplex with both directions enabled starts in FULL and stays there. */
  lemma FullDuplexStaysFull(mode: bv16, d: Duplex)
    ensures mode & MODE_RXEN != 0 && mode & MODE_TXEN != 0 ==> InitialDuplex(mode, false).dir == Full
    ensures d.dir == Full ==> AfterTxRequest(d) == d && AfterDrained(d) == d
  {
  }

  /**
   * A half-duplex burst as written: the link starts listening (RX), turns
   * to TX on the first queued byte and, once the FIFO drains, goes OFF
   * instead of back to RX; a later queued byte leaves it OFF.
   */
  lemma HalfDuplexBurst(mode: bv16)
    requires mode & MODE_RXEN != 0 && mode & MODE_TXEN != 0
    ensures InitialDuplex(mode, true).dir == Rx
    ensures AfterTxRequest(InitialDuplex(mode, true)).dir == Tx
    ensures AfterDrained(AfterTxRequest(InitialDuplex(mode, true))).dir == Off
    ensures
      var off := AfterDrained(AfterTxRequest(InitialDuplex(mode, true)));
      AfterTxRequest(off) == off && off.rxEn && off.txEn
  {
  }

  /** The rest of a byte sequence after one fifo_read_one. */
  function Rest(s: seq<bv8>): (r: seq<bv8>)
    ensures s == [] ==> r == []
    ensures s != [] ==> r == s[1..]
  {
    if s == [] then [] else s[1..]
  }

  /** The objects led_pulse may change on LED `l` (none when there is no LED). */
  function LedFrame(l: Led?): (r: set<object>)
  {
    if l == null then {} else {l, l.timer, l.port}
  }

  // ---------------------------------------------------------------------
  // The driver
  // ---------------------------------------------------------------------

  /**
   * The driver's state: the two FIFOs, the optional activity LEDs and
   * their pulse length, usart_duplex, the USART1 registers it writes, the
   * divisor chosen, and whether the transmit FIFO's consumer handler is
   * installed. Sent records every byte written to UDR1.
   */
  class Driver {
    const fCpu: nat
    const txFifo: Fifo
    const rxFifo: Fifo
    const ledTx: Led?
    const ledRx: Led?
    const ledDelay: U8
    var duplex: Duplex
    var ucsr1a: bv8
    var ucsr1b: bv8
    var udr1: bv8
    var divisor: Divisor
    var txNotify: bool
    /** The half-duplex choice of the last successful usart_init. */
    ghost var HalfDuplex: bool
    ghost var Sent: seq<bv8>

    ghost predicate Valid()
      reads this, txFifo, txFifo.buffer, rxFifo, rxFifo.buffer
    {
      && txFifo.Valid() && rxFifo.Valid()
      && txFifo != rxFifo && txFifo.buffer != rxFifo.buffer
      && WithinEnables(duplex)
      && (HalfDuplex ==> duplex.dir != Full)
    }

    /**
     * The driver's static state at reset: usart_duplex zero, UCSR1A at the
     * device's reset value (only UDRE1 set), UCSR1B and UDR1 zero.
     */
    constructor (fCpu: nat, txFifo: Fifo, rxFifo: Fifo, ledTx: Led?, ledRx: Led?, ledDelay: U8)
      requires txFifo.Valid() && rxFifo.Valid()
      requires txFifo != rxFifo && txFifo.buffer != rxFifo.buffer
      ensures Valid()
      ensures this.fCpu == fCpu && this.txFifo == txFifo && this.rxFifo == rxFifo
      ensures this.ledTx == ledTx && this.ledRx == ledRx && this.ledDelay == ledDelay
      ensures duplex == Duplex(false, false, Off) && ucsr1a == UCSR1A_RESET && ucsr1b == 0 && udr1 == 0
      ensures divisor == Div16(0) && !txNotify && !HalfDuplex && Sent == []
    {
      this.fCpu := fCpu;
      this.txFifo := txFifo;
      this.rxFifo := rxFifo;
      this.ledTx := ledTx;
      this.ledRx := ledRx;
      this.ledDelay := ledDelay;
      duplex := Duplex(false, false, Off);
      ucsr1a, ucsr1b, udr1 := UCSR1A_RESET, 0, 0;
      divisor := Div16(0);
      txNotify := false;
      HalfDuplex := false;
      Sent := [];
    }

    /** usart_update_dir: UCSR1B follows the direction held in usart_duplex. */
    method UpdateDir()
      modifies this`ucsr1b
      ensures ucsr1b == DirectionBits(old(ucsr1b), duplex.dir)
    {
      match duplex.dir
      case Full =>
        ucsr1b := ucsr1b | (UCSR1B_RX | UCSR1B_TX);
      case Tx =>
        ucsr1b := ucsr1b | UCSR1B_TX;
        ucsr1b := ucsr1b & !UCSR1B_RX;
      case Rx =>
        ucsr1b := ucsr1b | UCSR1B_RX;
        ucsr1b := ucsr1b & !UCSR1B_TX;
      case Off =>
        ucsr1b := ucsr1b & !(UCSR1B_RX | UCSR1B_TX);
    }

    /** usart_set_dir: replaces the direction, keeps the enables, then updates UCSR1B. */
    method SetDir(s: Dir)
      modifies this`duplex, this`ucsr1b
      ensures duplex == old(duplex).(dir := s)
      ensures ucsr1b == DirectionBits(old(ucsr1b), s)
    {
      duplex := duplex.(dir := s);
      UpdateDir();
    }

    /**
     * usart_init: -1 and no change when no divisor is usable; otherwise
     * records the divisor, rebuilds UCSR1B from zero (the ninth-data-bit
     * flag and the direction groups), sets usart_duplex from the mode and
     * installs the transmit FIFO handler.
     */
    method Init(baud: nat, mode: bv16, halfDuplex: bool) returns (r: int)
      requires Valid()
      requires 0 < baud < 0x1_0000_0000
      modifies this`ucsr1a, this`ucsr1b, this`duplex, this`divisor, this`txNotify, this`HalfDuplex
      ensures Valid()
      ensures ChooseDivisor(fCpu, baud) == None ==> r == -1 && unchanged(this)
      ensures ChooseDivisor(fCpu, baud) != None ==>
        && r == 0
        && divisor == ChooseDivisor(fCpu, baud).value
        && ucsr1a == Ucsr1aFor(divisor)
        && duplex == InitialDuplex(mode, halfDuplex)
        && ucsr1b == DirectionBits(if mode & MODE_UCSZ2 != 0 then UCSZ12 else 0, duplex.dir)
        && txNotify && HalfDuplex == halfDuplex
    {
      var choice := ChooseDivisor(fCpu, baud);
      if choice == None {
        return -1;
      }
      ucsr1b := 0;
      duplex := InitialDuplex(mode, halfDuplex);
      HalfDuplex := halfDuplex;
      DirectionWithinEnables(mode, halfDuplex, duplex);
      HalfDuplexNeverFull(mode, duplex);
      divisor := choice.value;
      ucsr1a := Ucsr1aFor(divisor);
      ucsr1b := ucsr1b | (if mode & MODE_UCSZ2 != 0 then UCSZ12 else 0);
      UpdateDir();
      txNotify := true;
      r := 0;
    }

    /**
     * usart_send_next: moves the oldest queued byte to UDR1 and pulses the
     * transmit LED; does nothing when the transmit FIFO is empty.
     */
    method SendNext()
      requires Valid()
      modifies this`udr1, this`Sent, txFifo, LedFrame(ledTx)
      ensures Valid()
      ensures txFifo.buffer == old(txFifo.buffer) && txFifo.totalSz == old(txFifo.totalSz)
      ensures txFifo.Contents == Rest(old(txFifo.Contents))
      ensures old(txFifo.Contents) == [] ==>
        udr1 == old(udr1) && Sent == old(Sent) && unchanged(LedFrame(ledTx))
      ensures old(txFifo.Contents) != [] ==>
        && udr1 == old(txFifo.Contents)[0]
        && Sent == old(Sent) + [udr1]
        && (ledTx != null ==> ledTx.View() == Pulsed(old(ledTx.View()), ACT_ON, ledDelay, ACT_OFF, 0))
    {
      var b := txFifo.ReadOne();
      if b >= 0 {
        udr1 := b as bv8;
        Sent := Sent + [udr1];
        if ledTx != null {
          ledTx.Pulse(ACT_ON, ledDelay, ACT_OFF, 0);
        }
      }
    }

    /**
     * usart_txfifo_evth on a FIFO_EVT_NEW event: with the transmitter
     * disabled, discards the oldest queued byte; otherwise turns an RX link
     * to TX and raises TXC1 to start transmission.
     */
    method TxFifoEvent()
      requires Valid()
      modifies this`duplex, this`ucsr1b, this`ucsr1a, txFifo
      ensures Valid()
      ensures txFifo.buffer == old(txFifo.buffer) && txFifo.totalSz == old(txFifo.totalSz)
      ensures duplex == AfterTxRequest(old(duplex))
      ensures !old(duplex).txEn ==>
        && txFifo.Contents == Rest(old(txFifo.Contents))
        && ucsr1b == old(ucsr1b) && ucsr1a == old(ucsr1a)
      ensures old(duplex).txEn ==>
        && txFifo.Contents == old(txFifo.Contents)
        && ucsr1b == (if old(duplex).dir == Rx then DirectionBits(old(ucsr1b), Tx) else old(ucsr1b))
        && ucsr1a == old(ucsr1a) | TXC1
    {
      if !duplex.txEn {
        var _ := txFifo.ReadOne();
        return;
      } else if duplex.dir == Rx {
        SetDir(Tx);
      }
      ucsr1a := ucsr1a | TXC1;
    }

    /**
     * A byte queued for transmission: fifo_write_one on the transmit FIFO
     * followed, when the byte was stored and the consumer handler is
     * installed, by that handler.
     */
    method EnqueueTx(b: bv8) returns (r: U8)
      requires Valid()
      modifies this`duplex, this`ucsr1b, this`ucsr1a, txFifo, txFifo.buffer
      ensures Valid()
      ensures txFifo.buffer == old(txFifo.buffer) && txFifo.totalSz == old(txFifo.totalSz)
      ensures r == (if |old(txFifo.Contents)| < txFifo.totalSz then 1 else 0)
      ensures r == 0 || !txNotify ==>
        && txFifo.Contents == (if r == 1 then old(txFifo.Contents) + [b] else old(txFifo.Contents))
        && duplex == old(duplex) && ucsr1b == old(ucsr1b) && ucsr1a == old(ucsr1a)
      ensures r == 1 && txNotify ==>
        && duplex == AfterTxRequest(old(duplex))
        && txFifo.Contents == (if old(duplex).txEn
                               then old(txFifo.Contents) + [b]
                               else Rest(old(txFifo.Contents) + [b]))
        && ucsr1b == (if old(duplex).txEn && old(duplex).dir == Rx
                      then DirectionBits(old(ucsr1b), Tx) else old(ucsr1b))
        && ucsr1a == (if old(duplex).txEn then old(ucsr1a) | TXC1 else old(ucsr1a))
    {
      r := txFifo.WriteOne(b);
      if r == 1 && txNotify {
        TxFifoEvent();
      }
    }

    /**
     * The receive-complete interrupt: the received byte goes into the
     * receive FIFO (dropped when it is full) and the receive LED is pulsed
     * either way.
     */
    method RxIsr(received: bv8)
      requires Valid()
      modifies rxFifo, rxFifo.buffer, LedFrame(ledRx)
      ensures Valid()
      ensures rxFifo.buffer == old(rxFifo.buffer) && rxFifo.totalSz == old(rxFifo.totalSz)
      ensures rxFifo.Contents == (if |old(rxFifo.Contents)| < rxFifo.totalSz
                                  then old(rxFifo.Contents) + [received]
                                  else old(rxFifo.Contents))
      ensures ledRx != null ==>
        ledRx.View() == Pulsed(old(ledRx.View()), ACT_ON, ledDelay, ACT_OFF, 0)
    {
      var _ := rxFifo.WriteOne(received);
      if ledRx != null {
        ledRx.Pulse(ACT_ON, ledDelay, ACT_OFF, 0);
      }
    }

    /** The transmit-complete interrupt: sends the next queued byte, if any. */
    method TxIsr()
      requires Valid()
      modifies this`udr1, this`Sent, txFifo, LedFrame(ledTx)
      ensures Valid()
      ensures txFifo.buffer == old(txFifo.buffer) && txFifo.totalSz == old(txFifo.totalSz)
      ensures txFifo.Contents == Rest(old(txFifo.Contents))
      ensures old(txFifo.Contents) == [] ==>
        udr1 == old(udr1) && Sent == old(Sent) && unchanged(LedFrame(ledTx))
      ensures old(txFifo.Contents) != [] ==>
        && udr1 == old(txFifo.Contents)[0]
        && Sent == old(Sent) + [udr1]
        && (ledTx != null ==> ledTx.View() == Pulsed(old(ledTx.View()), ACT_ON, ledDelay, ACT_OFF, 0))
    {
      SendNext();
    }

    /**
     * The data-register-empty interrupt: sends the next byte while any is
     * queued; once the FIFO is empty, leaves a FULL link alone and takes
     * every other link OFF.
     */
    method UdreIsr()
      requires Valid()
      modifies this`udr1, this`Sent, this`duplex, this`ucsr1b, txFifo, LedFrame(ledTx)
      ensures Valid()
      ensures txFifo.buffer == old(txFifo.buffer) && txFifo.totalSz == old(txFifo.totalSz)
      ensures txFifo.Contents == Rest(old(txFifo.Contents))
      ensures old(txFifo.Contents) != [] ==>
        && udr1 == old(txFifo.Contents)[0]
        && Sent == old(Sent) + [udr1]
        && duplex == old(duplex) && ucsr1b == old(ucsr1b)
        && (ledTx != null ==> ledTx.View() == Pulsed(old(ledTx.View()), ACT_ON, ledDelay, ACT_OFF, 0))
      ensures old(txFifo.Contents) == [] ==>
        && udr1 == old(udr1) && Sent == old(Sent) && unchanged(LedFrame(ledTx))
        && duplex == AfterDrained(old(duplex))
        && ucsr1b == (if old(duplex).dir == Full then old(ucsr1b) else DirectionBits(old(ucsr1b), Off))
    {
      if txFifo.PeekOne() {
        SendNext();
      } else {
        Drained();
      }
    }

    /**
     * The switch of the data-register-empty interrupt once the transmit
     * FIFO is empty: FULL returns at once; TX picks RX or OFF and then
     * falls through into the default case, which sets OFF.
     */
    method Drained()
      requires Valid()
      modifies this`duplex, this`ucsr1b
      ensures Valid()
      ensures duplex == AfterDrained(old(duplex))
      ensures ucsr1b == (if old(duplex).dir == Full then old(ucsr1b) else DirectionBits(old(ucsr1b), Off))
    {
      if duplex.dir == Full {
        return;
      }
      if duplex.dir == Tx {
        if duplex.rxEn {
          SetDir(Rx);
        } else {
          SetDir(Off);
        }
      }
      SetDir(Off);
    }
  }
}
