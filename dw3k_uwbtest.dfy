/** The variant of the DW3000 driver in the UWB test program. It keeps the
    library's status enum, statics and completion stage, but initialises
    without checking the device, never returns early from a poll, and sizes
    frames by a configured maximum. */
module Dw3kUwbTest {
  import opened Common
  import opened Dw3k

  /** `dw3k_poll` of the variant. */
  function Poll(d: State, r: PollReads): (d': State)
  {
    if d.status == ResetActive && !ResetDone(d, r) then d
    else Configured(d.(status := if d.status == ResetActive then ResetWaitIRQ else d.status), r)
  }

  /** Once the IRQ pin is high after reset, the radio configuration is
      written and cached, with no device or OTP checks. */
  function Configured(d: State, r: PollReads): (d': State)
  {
    if d.status != ResetWaitIRQ then Flagged(d, r)
    else if !r.irqAtInit then d
    else Flagged(d.(status := ResetWaitPLL, fctrl := 0x1C00, chanCtrl := 0x031E), r)
  }

  /** The error check, which does not end the poll, then PLL lock,
      calibration and the completion stage. */
  function Flagged(d: State, r: PollReads): (d': State)
  {
    var st := r.sysStatus;
    var d1 := if st & ErrorBits != 0 then d.(status := ChipError, errorText := ErrorText(st)) else d;
    if d1.status == ResetWaitPLL && st & 0x2 == 0 then d1
    else
      var s := if d1.status == ResetWaitPLL then CalibrationWait else d1.status;
      if s == CalibrationWait && r.rxCalSts == 0 then d1.(status := s)
      else
        var o := RadioStep(if s == CalibrationWait then Ready else s, d1.errorText, r, st & 0x400 != 0);
        d1.(status := o.0, errorText := o.1)
  }

  // ----- what a poll of the variant promises -----

  /** ChipError is final for the status, though a later failure bit
      replaces the text. */
  lemma ChipErrorFinal(d: State, r: PollReads)
    requires d.status == ChipError
    ensures Poll(d, r).status == ChipError
    ensures r.sysStatus & ErrorBits == 0 ==> Poll(d, r) == d
  {
    RadioSettled(ChipError, d.errorText, r, r.sysStatus & 0x400 != 0);
    RadioSettled(ChipError, ErrorText(r.sysStatus), r, r.sysStatus & 0x400 != 0);
  }

  /** CodeBug is not final: a failure bit turns it into ChipError. */
  lemma CodeBugOverridden(d: State, r: PollReads)
    requires d.status == CodeBug
    ensures r.sysStatus & ErrorBits != 0 ==>
              Poll(d, r) == d.(status := ChipError, errorText := ErrorText(r.sysStatus))
    ensures r.sysStatus & ErrorBits == 0 ==> Poll(d, r) == d
  {
    assert Poll(d, r) == Flagged(d, r);
    if r.sysStatus & ErrorBits != 0 {
      RadioSettled(ChipError, ErrorText(r.sysStatus), r, r.sysStatus & 0x400 != 0);
    } else {
      RadioSettled(CodeBug, d.errorText, r, r.sysStatus & 0x400 != 0);
    }
  }

  /** With the IRQ pin high after reset, the configuration is cached at
      once. */
  lemma DirectInit(d: State, r: PollReads)
    requires d.status == ResetWaitIRQ && r.irqAtInit
    ensures Poll(d, r).fctrl == 0x1C00 && Poll(d, r).chanCtrl == 0x031E
    ensures Poll(d, r).status in {ResetWaitPLL, CalibrationWait, Ready, ChipError}
  {
    RadioSettled(Ready, d.errorText, r, r.sysStatus & 0x400 != 0);
  }

  /** Calibration starts on the PLL lock bit alone, and ends in Ready as
      soon as the calibration status is non-zero. */
  lemma PllAndCalibration(d: State, r: PollReads)
    requires d.status in {ResetWaitPLL, CalibrationWait} && r.sysStatus & ErrorBits == 0
    ensures d.status == ResetWaitPLL ==> (Poll(d, r).status == ResetWaitPLL <==> r.sysStatus & 0x2 == 0)
    ensures d.status == CalibrationWait ==> Poll(d, r) == d.(status := if r.rxCalSts == 0 then CalibrationWait else Ready)
  {
    RadioSettled(Ready, d.errorText, r, r.sysStatus & 0x400 != 0);
  }

  /** Analysis ends on status bit 0x400. */
  lemma AnalysisDone(d: State, r: PollReads)
    requires d.status == ReceiveAnalyze && r.sysStatus & ErrorBits == 0
    ensures Poll(d, r).status == ReceiveDone <==> r.sysStatus & 0x400 != 0
  {
  }

  /** The two drivers disagree on the bit that ends analysis: with only
      bit 0x2000 set, the library's receiver is done and the variant's
      still analysing. */
  lemma DoneBitsDiffer(d: State, r: PollReads)
    requires d.status == ReceiveAnalyze && r.sysStatus == 0x2000 && Pmsc(r.sysState) == 0x12
    ensures Dw3k.Poll(d, r).status == ReceiveDone
    ensures Poll(d, r).status == ReceiveAnalyze
  {
  }

  // ----- the calls of the variant -----

  /** `dw3k_buffer_tx` of the variant: the same guards with the configured
      maximum, and the frame length set to the bytes buffered. */
  function BufferTx(d: State, maxSize: nat, size: int): (d': State)
    requires 0 <= d.txBufferSize < maxSize <= 0x400 && d.fctrl < Word
    ensures size < 0 || d.txBufferSize + size >= maxSize ==>
              d' == Bug(d, Misuse("BUG: Bad size for dw3k_start_transmit"))
    ensures 0 <= size && d.txBufferSize + size < maxSize && d.status != Ready ==>
              d' == Bug(d, Misuse("BUG: Not ready for dw3k_tx_buffer"))
    ensures 0 <= size && d.txBufferSize + size < maxSize && d.status == Ready ==>
              d'.txBufferSize == d.txBufferSize + size &&
              d'.fctrl % 0x400 == d'.txBufferSize && d'.fctrl / 0x400 == d.fctrl / 0x400 &&
              d' == d.(txBufferSize := d'.txBufferSize, fctrl := d'.fctrl)
  {
    if size < 0 || d.txBufferSize + size >= maxSize then Bug(d, Misuse("BUG: Bad size for dw3k_start_transmit"))
    else if d.status != Ready then Bug(d, Misuse("BUG: Not ready for dw3k_tx_buffer"))
    else
      var n := d.txBufferSize + size;
      d.(txBufferSize := n, fctrl := Fctrl(d.fctrl, n))
  }

  /** `dw3k_rx_size` of the variant: the 6-bit length less the CRC,
      clamped to 0 and to the configured maximum instead of failing. */
  function RxSize(d: State, maxSize: nat, finfo: bv16): (o: (State, int))
    ensures !Received(d.status) ==> o == (Bug(d, Misuse("BUF: Not ready for dw3k_rx_size")), 0)
    ensures Received(d.status) ==> o.0 == d && 0 <= o.1 <= maxSize
    ensures Received(d.status) && 2 <= (finfo & 0x3F) as int <= maxSize + 2 ==> o.1 == (finfo & 0x3F) as int - 2
    ensures Received(d.status) && (finfo & 0x3F) as int < 2 ==> o.1 == 0
    ensures Received(d.status) && (finfo & 0x3F) as int > maxSize + 2 ==> o.1 == maxSize
  {
    if !Received(d.status) then (Bug(d, Misuse("BUF: Not ready for dw3k_rx_size")), 0)
    else
      var raw := (finfo & 0x3F) as int;
      (d, if raw < 2 then 0 else if raw > maxSize + 2 then maxSize else raw - 2)
  }

  /** `dw3k_retrieve_rx` of the variant: the range must lie inside the
      configured maximum plus the CRC; the flag says whether the read
      happens. */
  function RetrieveRx(d: State, maxSize: nat, offset: int, size: int): (o: (State, bool))
    ensures o.1 <==> Received(d.status) && 0 <= offset && 0 <= size && offset + size <= maxSize + 2
    ensures o.1 ==> o.0 == d
    ensures !o.1 ==> o.0.status == CodeBug
  {
    if !Received(d.status) then (Bug(d, Misuse("BUF: Not ready for dw3k_retrieve_rx")), false)
    else if offset < 0 || size < 0 || offset + size > maxSize + 2 then
      (Bug(d, Misuse("BUG: Bad offset/size for dw3k_retrieve_rx")), false)
    else (d, true)
  }

  /** With the library's packet size as the maximum, the variant's read
      guard is the library's. */
  lemma RetrieveRxAgrees(d: State, offset: int, size: int)
    ensures RetrieveRx(d, PacketSize, offset, size) == Dw3k.RetrieveRx(d, offset, size)
  {
  }

  /** `dw3k_rx_timestamp_t40` of the variant: the 64-bit value read at
      RX_STAMP_LO, once received. */
  function RxTimestamp(d: State, read64: nat): (o: (State, nat))
    requires read64 < Word * Word
    ensures d.status == ReceiveDone ==> o == (d, read64)
    ensures d.status != ReceiveDone ==> o == (Bug(d, Misuse("BUF: Not ready for dw3k_rx_timestamp_t40")), 0)
  {
    if d.status != ReceiveDone then (Bug(d, Misuse("BUF: Not ready for dw3k_rx_timestamp_t40")), 0)
    else (d, read64)
  }

  /** The variant's stamp is the library's 40-bit stamp exactly when the
      three bytes read after it are zero; otherwise those bytes end up in
      bits 40 and up of the result. */
  lemma {:induction false} RxTimestampWider(d: State, lo: nat, hi: nat, above: nat)
    requires d.status == ReceiveDone && lo < Word && hi < 0x100 && above < 0x100_0000
    ensures Stamp40(lo, hi) + above * 0x100_0000_0000 < Word * Word
    ensures var v := RxTimestamp(d, Stamp40(lo, hi) + above * 0x100_0000_0000);
      var l := Dw3k.RxTimestamp(d, lo, hi);
      v.0 == l.0 && v.1 == l.1 + above * 0x100_0000_0000 && (v.1 == l.1 <==> above == 0)
  {
    assert Stamp40(lo, hi) < 0x100_0000_0000;
  }
}

/** The variant's statics as a class whose methods change them in place.
    As for the library, each method is the C++ code's step-by-step update
    of the statics, proved to agree with the function of the same name in
    `Dw3kUwbTest`, which carries the properties. */
module Dw3kUwbTestStatics {
  import opened Common
  import opened Dw3k
  import Dw3kUwbTest

  class Driver {
    var status: Status
    var errorText: Message
    var resetMillis: nat
    var fctrl: nat
    var chanCtrl: bv16
    var txBufferSize: int
    var txDelay40: Option<nat>
    /** `dw3k_max_size`, a constant of the build. */
    const maxSize: nat

    function Snapshot(): State
      reads this
    {
      State(status, errorText, resetMillis, fctrl, chanCtrl, txBufferSize, txDelay40)
    }

    /** The bounds the C types put on the statics. */
    predicate Valid()
      reads this
    {
      resetMillis < Word && 0 <= txBufferSize < maxSize <= 0x400 && fctrl < Word
    }

    constructor (maxSize: nat)
      requires 0 < maxSize <= 0x400
      ensures Snapshot() == Boot && this.maxSize == maxSize && Valid()
    {
      status, errorText, resetMillis := Invalid, NoError, 0;
      fctrl, chanCtrl, txBufferSize, txDelay40 := 0, 0, 0, None;
      this.maxSize := maxSize;
    }

    method Bug(text: string)
      modifies this
      ensures Snapshot() == Dw3k.Bug(old(Snapshot()), Misuse(text))
    {
      status := CodeBug;
      errorText := Misuse(text);
    }

    /** `dw3k_reset`: holds the chip in reset from time `now`. */
    method Reset(now: nat)
      requires Valid() && now < Word
      modifies this
      ensures Valid() && Snapshot() == old(Snapshot()).(status := ResetActive, resetMillis := now)
    {
      status := ResetActive;
      resetMillis := now;
    }

    /** `dw3k_poll` of the variant. */
    method Poll(r: PollReads) returns (s: Status)
      requires Valid()
      modifies this
      ensures Snapshot() == Dw3kUwbTest.Poll(old(Snapshot()), r) && s == status && Valid()
    {
      if status == ResetActive {
        if (r.now - resetMillis) % Word < 10 || r.irqAtReset {
          return status;
        }
        status := ResetWaitIRQ;
      }
      if status == ResetWaitIRQ {
        if !r.irqAtInit {
          return status;
        }
        fctrl := 0x1C00;
        chanCtrl := 0x031E;
        status := ResetWaitPLL;
      }
      Finish(r);
      s := status;
    }

    /** The rest of the variant's poll, from the error check on. */
    method Finish(r: PollReads)
      requires Valid()
      modifies this
      ensures Snapshot() == Dw3kUwbTest.Flagged(old(Snapshot()), r) && Valid()
    {
      var st := r.sysStatus;
      if st & ErrorBits != 0 {
        status := ChipError;
        errorText := PickErrorText(st);
      }
      if status == ResetWaitPLL {
        if st & 0x2 == 0 { return; }
        status := CalibrationWait;
      }
      if status == CalibrationWait {
        if r.rxCalSts == 0 { return; }
        status := Ready;
      }
      status, errorText := CompleteRadio(status, errorText, r, st & 0x400 != 0);
    }

    /** `dw3k_buffer_tx` of the variant. */
    method BufferTx(size: int)
      requires Valid()
      modifies this
      ensures Snapshot() == Dw3kUwbTest.BufferTx(old(Snapshot()), maxSize, size) && Valid()
    {
      if size < 0 || txBufferSize + size >= maxSize {
        Bug("BUG: Bad size for dw3k_start_transmit");
        return;
      }
      if status != Ready {
        Bug("BUG: Not ready for dw3k_tx_buffer");
        return;
      }
      txBufferSize := txBufferSize + size;
      var f := Fctrl(fctrl, txBufferSize);
      if f != fctrl {
        fctrl := f;
      }
    }

    /** `dw3k_rx_size` of the variant, given the RX_FINFO register. */
    method RxSize(finfo: bv16) returns (n: int)
      modifies this
      ensures (Snapshot(), n) == Dw3kUwbTest.RxSize(old(Snapshot()), maxSize, finfo)
    {
      if status != ReceiveAnalyze && status != ReceiveDone {
        Bug("BUF: Not ready for dw3k_rx_size");
        return 0;
      }
      var raw := (finfo & 0x3F) as int;
      n := if raw < 2 then 0 else if raw > maxSize + 2 then maxSize else raw - 2;
    }

    /** `dw3k_retrieve_rx` of the variant; `read` says whether the bytes
        are read. */
    method RetrieveRx(offset: int, size: int) returns (read: bool)
      modifies this
      ensures (Snapshot(), read) == Dw3kUwbTest.RetrieveRx(old(Snapshot()), maxSize, offset, size)
    {
      if status != ReceiveAnalyze && status != ReceiveDone {
        Bug("BUF: Not ready for dw3k_retrieve_rx");
        return false;
      }
      if offset < 0 || size < 0 || offset + size > maxSize + 2 {
        Bug("BUG: Bad offset/size for dw3k_retrieve_rx");
        return false;
      }
      return true;
    }

    /** `dw3k_rx_timestamp_t40` of the variant, given the 64 bits read at
        RX_STAMP_LO. */
    method RxTimestamp(read64: nat) returns (t: nat)
      requires read64 < Word * Word
      modifies this
      ensures (Snapshot(), t) == Dw3kUwbTest.RxTimestamp(old(Snapshot()), read64)
    {
      if status != ReceiveDone {
        Bug("BUF: Not ready for dw3k_rx_timestamp_t40");
        return 0;
      }
      return read64;
    }

    /** `dw3k_end_txrx` of the variant, the same as the library's; `off`
        says whether TXRXOFF is sent. */
    method EndTxRx() returns (off: bool)
      requires Valid()
      modifies this
      ensures (Snapshot(), off) == Dw3k.EndTxRx(old(Snapshot())) && Valid()
    {
      if InFlight(status) {
        off := true;
      } else if status == TransmitDone || status == ReceiveDone || status == Ready {
        off := false;
      } else {
        Bug("BUG: Not ready for dw3k_end_txrx");
        return false;
      }
      txBufferSize := 0;
      status := Ready;
    }
  }
}
