/** The DW3000 ultra-wideband radio driver library: a status machine
    advanced by polling, and API calls that are only legal in certain
    states. The chip is seen through the register values each call reads;
    register writes and pin changes are not modelled. */
module Dw3k {
  import opened Common

  /** The driver's status, in the order of the C++ enum. */
  datatype Status =
    | Invalid | ResetActive | ResetWaitIRQ | ResetWaitPLL | CalibrationWait
    | TransmitWait | TransmitActive | TransmitDone | TransmitTooLate
    | ReceiveListen | ReceiveAnalyze | ReceiveDone | Ready | ChipError | CodeBug

  /** The enum value, which the `<` guards compare. */
  function Ord(s: Status): (n: nat)
    ensures n <= 14
  {
    match s
    case Invalid => 0
    case ResetActive => 1
    case ResetWaitIRQ => 2
    case ResetWaitPLL => 3
    case CalibrationWait => 4
    case TransmitWait => 5
    case TransmitActive => 6
    case TransmitDone => 7
    case TransmitTooLate => 8
    case ReceiveListen => 9
    case ReceiveAnalyze => 10
    case ReceiveDone => 11
    case Ready => 12
    case ChipError => 13
    case CodeBug => 14
  }

  /** The largest frame payload: 1023 bytes less the 2-byte CRC. */
  const PacketSize := 1023 - 2

  /** Status bits that mean the chip has failed. */
  const ErrorBits: bv48 := 0xF00020C0000

  /** What one poll reads, in the order the code reads it: the clock, the
      IRQ pin in each reset state, the device ID and OTP words of the
      initialisation, SYS_STATUS, PLL_CAL, the calibration registers,
      SYS_STATE, and SYS_STATUS again in the TX and RX state checks. */
  datatype PollReads = PollReads(
    now: nat, irqAtReset: bool, irqAtInit: bool,
    devId: bv32, ldoLo: bv32, ldoHi: bv32, biasOtp: bv32, xtalOtp: bv32,
    sysStatus: bv48, pllCal: bv16, rxCalSts: bv8, resi: bv32, resq: bv32,
    sysState: bv32, txStatus: bv32, rxStatus: bv32)

  /** The messages `error_text` points to: the start-up text, one per
      chip failure, and the text of each misuse of the API. */
  datatype Message =
    | NoError | StatusFailed | ImpulseFailure | LowVoltage | PllLosingLock | CommandFailed | SpiFailed
    | BadDeviceId | MissingOtp | CalibrationFailed | PmscNotTx | PmscNotRx | BadTxpsr | BadRxSize
    | Misuse(text: string)

  /** The text of a message. */
  function Text(m: Message): string
  {
    match m
    case NoError => "[No error logged]"
    case StatusFailed => "Chip: Status error"
    case ImpulseFailure => "Chip: Impulse analyzer failure"
    case LowVoltage => "Chip: Low voltage"
    case PllLosingLock => "Chip: Clock PLL losing lock"
    case CommandFailed => "Chip: Command error"
    case SpiFailed => "Chip: SPI error"
    case BadDeviceId => "Chip: Bad device ID"
    case MissingOtp => "Chip: Missing value in OTP"
    case CalibrationFailed => "Chip: RX calibration failed"
    case PmscNotTx => "Chip: PMSC not in TX state"
    case PmscNotRx => "Chip: PMSC not in RX state"
    case BadTxpsr => "Chip: Bad TXPSR value"
    case BadRxSize => "Chip: Bad RX_FINFO packet size"
    case Misuse(text) => text
  }

  /** The driver's module state: the status, the error text, when reset
      started, the cached TX_FCTRL and CHAN_CTRL, the bytes buffered for
      transmission, and the antenna delay once read. */
  datatype State = State(status: Status, errorText: Message, resetMillis: nat,
                         fctrl: nat, chanCtrl: bv16, txBufferSize: int, txDelay40: Option<nat>)

  /** The state at start-up. */
  const Boot := State(Invalid, NoError, 0, 0, 0, 0, None)

  /** `bug()`: a call made in the wrong state or with bad arguments. */
  function Bug(d: State, text: Message): (d': State)
    ensures d'.status == CodeBug && d'.errorText == text
  {
    d.(status := CodeBug, errorText := text)
  }

  // ----- the reset and initialisation stages of dw3k_poll -----

  /** At least 10 ms since reset started, on the wrapping millisecond
      clock, and the IRQ pin low. */
  predicate ResetDone(d: State, r: PollReads)
  {
    (r.now - d.resetMillis) % Word >= 10 && !r.irqAtReset
  }

  /** One of the two DW3000 device IDs. */
  predicate GoodDevice(id: bv32)
  {
    id == 0xDECA0302 || id == 0xDECA0312
  }

  /** A zero LDO, bias or crystal trim value in OTP; the bias is bits
      16-20 and the trim the low byte. */
  predicate OtpMissing(r: PollReads)
  {
    r.ldoLo == 0 || r.ldoHi == 0 || (r.biasOtp >> 16) & 0x1F == 0 || r.xtalOtp & 0xFF == 0
  }

  /** The error text for failed status bits: later checks override
      earlier ones, so SPI, command, PLL, low voltage and impulse
      analyzer failures take precedence in that order. */
  function ErrorText(st: bv48): (t: Message)
  {
    if st & 0xE0000000000 != 0 then SpiFailed
    else if st & 0x10000000000 != 0 then CommandFailed
    else if st & 0x02000000 != 0 then PllLosingLock
    else if st & 0x00080000 != 0 then LowVoltage
    else if st & 0x00040000 != 0 then ImpulseFailure
    else StatusFailed
  }

  /** The PMSC state field of SYS_STATE. */
  function Pmsc(sysState: bv32): bv32
  {
    (sysState >> 16) & 0xFF
  }

  /** A waiting transmission starts on a frame-sent bit, or is too late. */
  function TxStarted(s: Status, r: PollReads): Status
  {
    if s != TransmitWait then s
    else if r.sysStatus & 0xF0 != 0 then TransmitActive
    else if r.sysStatus & 0x8000000 != 0 || r.sysState == 0xD0000 then TransmitTooLate
    else s
  }

  /** An active transmission is done on the frame-sent bit. */
  function TxFinished(s: Status, r: PollReads): Status
  {
    if s == TransmitActive && r.sysStatus & 0x80 != 0 then TransmitDone else s
  }

  /** A listening receiver starts analysing on preamble detection. */
  function RxStarted(s: Status, r: PollReads): Status
  {
    if s == ReceiveListen && r.sysStatus & 0x4000 != 0 then ReceiveAnalyze else s
  }

  /** Analysis is done once `analysed`, the variant's done bit, is set. */
  function RxFinished(s: Status, analysed: bool): Status
  {
    if s == ReceiveAnalyze && analysed then ReceiveDone else s
  }

  /** A transmission in progress while the PMSC says otherwise is lost. */
  function TxChecked(s: Status, text: Message, r: PollReads): (o: (Status, Message))
  {
    if (s == TransmitWait || s == TransmitActive) && TxLost(r) then (ChipError, PmscNotTx)
    else (s, text)
  }

  /** A reception in progress while the PMSC says otherwise is lost. */
  function RxChecked(s: Status, text: Message, r: PollReads): (o: (Status, Message))
  {
    if (s == ReceiveListen || s == ReceiveAnalyze) && RxLost(r) then (ChipError, PmscNotRx)
    else (s, text)
  }

  /** The TX and RX completion stage of a poll, for both driver variants;
      `analysed` says whether the status bit that ends frame analysis,
      which differs between them, is set. */
  function RadioStep(s: Status, text: Message, r: PollReads, analysed: bool): (o: (Status, Message))
  {
    var tx := TxChecked(TxFinished(TxStarted(s, r), r), text, r);
    RxChecked(RxFinished(RxStarted(tx.0, r), analysed), tx.1, r)
  }

  /** `dw3k_poll` of the library: the reset and initialisation stages, the
      error check, PLL lock and calibration, then TX and RX completion. */
  function Poll(d: State, r: PollReads): (d': State)
  {
    if d.status == ChipError || d.status == CodeBug then d
    else if d.status == ResetActive && !ResetDone(d, r) then d
    else Initialised(d.(status := if d.status == ResetActive then ResetWaitIRQ else d.status), r)
  }

  /** A poll past the reset stage: once the IRQ pin is high, the device is
      identified and, with its OTP trim values present, configured. */
  function Initialised(d: State, r: PollReads): (d': State)
  {
    if d.status != ResetWaitIRQ then AfterInit(d, r)
    else if !r.irqAtInit then d
    else if !GoodDevice(r.devId) then d.(status := ChipError, errorText := BadDeviceId)
    else if OtpMissing(r) then d.(status := ChipError, errorText := MissingOtp)
    else AfterInit(d.(status := ResetWaitPLL, fctrl := 0x1800, chanCtrl := 0x094E), r)
  }

  /** The PLL has locked: the lock bit of SYS_STATUS set and the
      calibration bit of PLL_CAL clear. */
  predicate PllLocked(r: PollReads)
  {
    r.sysStatus & 0x2 != 0 && r.pllCal & 0x100 == 0
  }

  /** A calibration result register holds the failure value. */
  predicate CalibrationBad(r: PollReads)
  {
    r.resi == 0x1FFFFFFF || r.resq == 0x1FFFFFFF
  }

  /** The rest of a poll, from the error check on. */
  function AfterInit(d: State, r: PollReads): (d': State)
  {
    var st := r.sysStatus;
    if st & ErrorBits != 0 then d.(status := ChipError, errorText := ErrorText(st))
    else if d.status == ResetWaitPLL && !PllLocked(r) then d
    else
      var s := if d.status == ResetWaitPLL then CalibrationWait else d.status;
      if s == CalibrationWait && r.rxCalSts == 0 then d.(status := s)
      else if s == CalibrationWait && CalibrationBad(r) then
        d.(status := ChipError, errorText := CalibrationFailed)
      else
        var o := RadioStep(if s == CalibrationWait then Ready else s, d.errorText, r, r.sysStatus & 0x2000 != 0);
        d.(status := o.0, errorText := o.1)
  }

  // ----- what a poll promises -----

  /** The two error states are final: polling leaves the state alone. */
  lemma PollErrorFinal(d: State, r: PollReads)
    requires d.status == ChipError || d.status == CodeBug
    ensures Poll(d, r) == d
  {
  }

  /** Polling only moves forward in the enum order. */
  lemma PollForward(d: State, r: PollReads)
    ensures Ord(Poll(d, r).status) >= Ord(d.status)
  {
    if d.status != ChipError && d.status != CodeBug && !(d.status == ResetActive && !ResetDone(d, r)) {
      var d1 := d.(status := if d.status == ResetActive then ResetWaitIRQ else d.status);
      if d1.status != ResetWaitIRQ {
        AfterInitForward(d1, r);
      } else if r.irqAtInit && GoodDevice(r.devId) && !OtpMissing(r) {
        AfterInitForward(d1.(status := ResetWaitPLL, fctrl := 0x1800, chanCtrl := 0x094E), r);
      }
    }
  }

  /** The stages after initialisation only move forward. */
  lemma AfterInitForward(d: State, r: PollReads)
    requires d.status != CodeBug
    ensures Ord(AfterInit(d, r).status) >= Ord(d.status)
  {
    var st := r.sysStatus;
    if st & ErrorBits != 0 {
      assert AfterInit(d, r).status == ChipError;
    } else if d.status == ResetWaitPLL && !PllLocked(r) {
      assert AfterInit(d, r) == d;
    } else {
      var s := if d.status == ResetWaitPLL then CalibrationWait else d.status;
      if s == CalibrationWait && (r.rxCalSts == 0 || CalibrationBad(r)) {
        assert AfterInit(d, r).status in {CalibrationWait, ChipError};
      } else {
        var s' := if s == CalibrationWait then Ready else s;
        assert AfterInit(d, r).status == RadioStep(s', d.errorText, r, r.sysStatus & 0x2000 != 0).0;
        RadioForward(s', d.errorText, r, r.sysStatus & 0x2000 != 0);
      }
    }
  }

  /** Reset lasts until 10 ms have passed on the wrapping clock and the IRQ
      pin has gone low, and nothing changes while it lasts. */
  lemma ResetTimed(d: State, r: PollReads)
    requires d.status == ResetActive
    ensures Poll(d, r).status == ResetActive <==> !ResetDone(d, r)
    ensures !ResetDone(d, r) ==> Poll(d, r) == d
  {
    if ResetDone(d, r) {
      PollForward(d, r);
    }
  }

  /** Once the IRQ pin is high after reset, the device ID and the OTP trim
      values are checked and the radio configuration is cached. */
  lemma InitChecks(d: State, r: PollReads)
    requires d.status == ResetWaitIRQ || (d.status == ResetActive && ResetDone(d, r))
    ensures !r.irqAtInit ==> Poll(d, r) == d.(status := ResetWaitIRQ)
    ensures r.irqAtInit && !GoodDevice(r.devId) ==>
              Poll(d, r) == d.(status := ChipError, errorText := BadDeviceId)
    ensures r.irqAtInit && GoodDevice(r.devId) && OtpMissing(r) ==>
              Poll(d, r) == d.(status := ChipError, errorText := MissingOtp)
    ensures r.irqAtInit && GoodDevice(r.devId) && !OtpMissing(r) ==>
              Poll(d, r).fctrl == 0x1800 && Poll(d, r).chanCtrl == 0x094E &&
              Poll(d, r).status in {ResetWaitPLL, CalibrationWait, Ready, ChipError}
  {
  }

  /** In every state past initialisation, a failure bit in SYS_STATUS ends
      the poll in ChipError, with the text of the most telling bit. */
  lemma ErrorFlags(d: State, r: PollReads)
    requires d.status !in {ChipError, CodeBug, ResetActive, ResetWaitIRQ}
    requires r.sysStatus & ErrorBits != 0
    ensures Poll(d, r) == d.(status := ChipError, errorText := ErrorText(r.sysStatus))
  {
  }

  /** Calibration starts once the PLL has locked: the lock bit of
      SYS_STATUS set and the calibration bit of PLL_CAL clear. */
  lemma PllGate(d: State, r: PollReads)
    requires d.status == ResetWaitPLL && r.sysStatus & ErrorBits == 0
    ensures Poll(d, r).status == ResetWaitPLL <==> r.sysStatus & 0x2 == 0 || r.pllCal & 0x100 != 0
  {
  }

  /** Calibration ends in Ready unless a result register holds the
      failure value. */
  lemma CalibrationOutcome(d: State, r: PollReads)
    requires d.status == CalibrationWait && r.sysStatus & ErrorBits == 0
    ensures r.rxCalSts == 0 ==> Poll(d, r) == d
    ensures r.rxCalSts != 0 && (r.resi == 0x1FFFFFFF || r.resq == 0x1FFFFFFF) ==>
              Poll(d, r) == d.(status := ChipError, errorText := CalibrationFailed)
    ensures r.rxCalSts != 0 && r.resi != 0x1FFFFFFF && r.resq != 0x1FFFFFFF ==>
              Poll(d, r) == d.(status := Ready)
  {
    RadioSettled(Ready, d.errorText, r, r.sysStatus & 0x2000 != 0);
  }

  /** Without failure bits, a poll in a transmit, receive or Ready state
      is the completion stage alone. */
  lemma PollRadio(d: State, r: PollReads)
    requires Ord(d.status) >= Ord(TransmitWait) && Ord(d.status) <= Ord(Ready)
    requires r.sysStatus & ErrorBits == 0
    ensures var o := RadioStep(d.status, d.errorText, r, r.sysStatus & 0x2000 != 0);
            Poll(d, r) == d.(status := o.0, errorText := o.1)
  {
  }

  // ----- what the completion stage promises -----

  /** Only transmissions and receptions in progress are advanced; the
      other states, finished ones included, are left as they are. */
  lemma RadioSettled(s: Status, text: Message, r: PollReads, analysed: bool)
    requires s !in {TransmitWait, TransmitActive, ReceiveListen, ReceiveAnalyze}
    ensures RadioStep(s, text, r, analysed) == (s, text)
  {
  }

  /** The completion stage only moves forward in the enum order. */
  lemma RadioForward(s: Status, text: Message, r: PollReads, analysed: bool)
    ensures Ord(RadioStep(s, text, r, analysed).0) >= Ord(s)
  {
    var b := TxFinished(TxStarted(s, r), r);
    TxForward(s, r);
    var c := TxChecked(b, text, r);
    RxForward(c.0, r, analysed);
  }

  /** The transmit steps only move forward. */
  lemma TxForward(s: Status, r: PollReads)
    ensures Ord(TxFinished(TxStarted(s, r), r)) >= Ord(s)
  {
  }

  /** The receive steps only move forward. */
  lemma RxForward(s: Status, r: PollReads, analysed: bool)
    ensures Ord(RxFinished(RxStarted(s, r), analysed)) >= Ord(s)
  {
  }

  /** The PMSC state is outside the transmit range and the re-read status
      shows no frame being sent. */
  predicate TxLost(r: PollReads)
  {
    (Pmsc(r.sysState) < 0x8 || Pmsc(r.sysState) > 0xF) && r.txStatus & 0xF0 == 0
  }

  /** The PMSC state is outside the receive range and the re-read status
      shows no frame arriving. */
  predicate RxLost(r: PollReads)
  {
    (Pmsc(r.sysState) < 0x12 || Pmsc(r.sysState) > 0x19) && r.rxStatus & 0x4400 == 0
  }

  /** A waiting transmission starts on any frame-sent bit, and completes in
      the same poll when the frame-sent bit itself is set; without them it
      is too late when the chip flags a late start or sits in the idle
      state 0xD0000. */
  lemma TransmitWaitSteps(text: Message, r: PollReads, analysed: bool)
    ensures var st := r.sysStatus;
            var o := RadioStep(TransmitWait, text, r, analysed);
            (st & 0x80 != 0 ==> o == (TransmitDone, text)) &&
            (st & 0xF0 != 0 && st & 0x80 == 0 ==>
               o == if TxLost(r) then (ChipError, PmscNotTx) else (TransmitActive, text)) &&
            (st & 0xF0 == 0 && (st & 0x8000000 != 0 || r.sysState == 0xD0000) ==> o == (TransmitTooLate, text)) &&
            (st & 0xF0 == 0 && st & 0x8000000 == 0 && r.sysState != 0xD0000 ==>
               o == if TxLost(r) then (ChipError, PmscNotTx) else (TransmitWait, text))
  {
  }

  /** An active transmission is done on the frame-sent bit, and otherwise
      needs the PMSC to stay in a transmit state. */
  lemma TransmitActiveSteps(text: Message, r: PollReads, analysed: bool)
    ensures var o := RadioStep(TransmitActive, text, r, analysed);
            (r.sysStatus & 0x80 != 0 ==> o == (TransmitDone, text)) &&
            (r.sysStatus & 0x80 == 0 ==>
               o == if TxLost(r) then (ChipError, PmscNotTx) else (TransmitActive, text))
  {
  }

  /** A listening receiver starts analysing on the preamble-detect bit;
      analysis is done on the done bit; a receiver still listening or
      analysing needs the PMSC to stay in a receive state. */
  lemma ReceiveSteps(s: Status, text: Message, r: PollReads, analysed: bool)
    requires s == ReceiveListen || s == ReceiveAnalyze
    ensures var st := r.sysStatus;
            var analysing := s == ReceiveAnalyze || st & 0x4000 != 0;
            var o := RadioStep(s, text, r, analysed);
            (analysing && analysed ==> o == (ReceiveDone, text)) &&
            (!(analysing && analysed) ==>
               o == if RxLost(r) then (ChipError, PmscNotRx)
                    else (if analysing then ReceiveAnalyze else ReceiveListen, text))
  {
  }

  // ----- status text -----

  /** The name `dw3k_status_text` gives a status that is not an error. */
  function Name(s: Status): string
  {
    match s
    case Invalid => "Invalid"
    case ResetActive => "ResetActive"
    case ResetWaitIRQ => "ResetWaitIRQ"
    case ResetWaitPLL => "ResetWaitPLL"
    case CalibrationWait => "CalibrationWait"
    case TransmitWait => "TransmitWait"
    case TransmitActive => "TransmitActive"
    case TransmitDone => "TransmitDone"
    case TransmitTooLate => "TransmitTooLate"
    case ReceiveListen => "ReceiveListen"
    case ReceiveAnalyze => "ReceiveAnalyze"
    case ReceiveDone => "ReceiveDone"
    case Ready => "Ready"
    case ChipError => "ChipError"
    case CodeBug => "CodeBug"
  }

  /** `dw3k_status_text`: the error text in the two error states, the
      status name otherwise. */
  function StatusText(d: State): (t: string)
    ensures d.status == ChipError || d.status == CodeBug ==> t == Text(d.errorText)
    ensures d.status != ChipError && d.status != CodeBug ==> t == Name(d.status)
  {
    if d.status == ChipError || d.status == CodeBug then Text(d.errorText) else Name(d.status)
  }

  /** Different statuses have different names, so the text identifies the
      status outside the error states. */
  lemma NamesDistinct(a: Status, b: Status)
    ensures Name(a) == Name(b) ==> a == b
  {
    if a != b {
      assert Name(a) != Name(b) by {
        match a
        case Invalid =>
        case ResetActive =>
        case ResetWaitIRQ =>
        case ResetWaitPLL =>
        case CalibrationWait =>
        case TransmitWait =>
        case TransmitActive =>
        case TransmitDone =>
        case TransmitTooLate =>
        case ReceiveListen =>
        case ReceiveAnalyze =>
        case ReceiveDone =>
        case Ready =>
        case ChipError =>
        case CodeBug =>
      }
    }
  }

  // ----- the transmit and receive calls -----

  const Word := 0x1_0000_0000

  /** The TX_FCTRL word with its 10-bit frame length field set to `len`. */
  function Fctrl(cache: nat, len: nat): (r: nat)
    requires cache < Word && len < 0x400
    ensures r < Word
    ensures r % 0x400 == len && r / 0x400 == cache / 0x400
  {
    cache - cache % 0x400 + len
  }

  /** The TX_FCTRL update as the code writes it, `(cache & ~0x300) | len`:
      the mask clears only bits 8 and 9 of the length field. */
  function FctrlAsWritten(cache: bv32, len: bv32): (r: bv32)
    ensures r & !0x3FF == cache & !0x3FF || len >= 0x400
  {
    (cache & !0x300) | len
  }

  /** Two `dw3k_buffer_tx` calls after initialisation, of 3 and then 4
      bytes: the frame length field must be 9 but is 13, because the low bits
      of the earlier length 5 survive the mask, while the whole field is
      replaced by `Fctrl`. */
  lemma FctrlKeepsStaleLength()
    ensures FctrlAsWritten(0x1800, 3 + 2) == 0x1805
    ensures FctrlAsWritten(0x1805, 7 + 2) & 0x3FF == 13
    ensures Fctrl(Fctrl(0x1800, 3 + 2), 7 + 2) % 0x400 == 9
  {
  }

  /** `dw3k_buffer_tx`: appends `size` bytes to the frame being built and
      sets the frame length to the bytes buffered plus the CRC. */
  function BufferTx(d: State, size: int): (d': State)
    requires 0 <= d.txBufferSize < PacketSize && d.fctrl < Word
    ensures size < 0 || d.txBufferSize + size >= PacketSize ==>
              d' == Bug(d, Misuse("BUG: Bad size for dw3k_start_transmit"))
    ensures 0 <= size && d.txBufferSize + size < PacketSize && d.status != Ready ==>
              d' == Bug(d, Misuse("BUG: Not ready for dw3k_tx_buffer"))
    ensures 0 <= size && d.txBufferSize + size < PacketSize && d.status == Ready ==>
              d'.txBufferSize == d.txBufferSize + size &&
              d'.fctrl % 0x400 == d'.txBufferSize + 2 && d'.fctrl / 0x400 == d.fctrl / 0x400 &&
              d' == d.(txBufferSize := d'.txBufferSize, fctrl := d'.fctrl)
  {
    if size < 0 || d.txBufferSize + size >= PacketSize then Bug(d, Misuse("BUG: Bad size for dw3k_start_transmit"))
    else if d.status != Ready then Bug(d, Misuse("BUG: Not ready for dw3k_tx_buffer"))
    else
      var n := d.txBufferSize + size;
      d.(txBufferSize := n, fctrl := Fctrl(d.fctrl, n + 2))
  }

  /** `dw3k_schedule_tx`: starts a delayed transmission from Ready. */
  function ScheduleTx(d: State): (d': State)
    ensures d.status == Ready ==> d' == d.(status := TransmitWait)
    ensures d.status != Ready ==> d' == Bug(d, Misuse("BUG: Not ready for dw3k_start_transmit"))
  {
    if d.status != Ready then Bug(d, Misuse("BUG: Not ready for dw3k_start_transmit"))
    else d.(status := TransmitWait)
  }

  /** `dw3k_start_rx`: starts listening from Ready. */
  function StartRx(d: State): (d': State)
    ensures d.status == Ready ==> d' == d.(status := ReceiveListen)
    ensures d.status != Ready ==> d' == Bug(d, Misuse("BUG: Not ready for dw3k_start_rx"))
  {
    if d.status != Ready then Bug(d, Misuse("BUG: Not ready for dw3k_start_rx"))
    else d.(status := ReceiveListen)
  }

  /** A transmission or reception still in progress, which `dw3k_end_txrx`
      stops with the TXRXOFF command. */
  predicate InFlight(s: Status)
  {
    s == TransmitWait || s == TransmitActive || s == TransmitTooLate || s == ReceiveListen || s == ReceiveAnalyze
  }

  /** A state `dw3k_end_txrx` may be called in. */
  predicate Endable(s: Status)
  {
    InFlight(s) || s == TransmitDone || s == ReceiveDone || s == Ready
  }

  /** `dw3k_end_txrx`: from any transmit, receive or Ready state, returns to
      Ready with an empty transmit buffer; the flag says whether the TXRXOFF
      command is sent. */
  function EndTxRx(d: State): (o: (State, bool))
    ensures Endable(d.status) ==> o.0 == d.(status := Ready, txBufferSize := 0)
    ensures !Endable(d.status) ==> o.0 == Bug(d, Misuse("BUG: Not ready for dw3k_end_txrx"))
    ensures o.1 <==> InFlight(d.status)
  {
    if !Endable(d.status) then (Bug(d, Misuse("BUG: Not ready for dw3k_end_txrx")), false)
    else (d.(status := Ready, txBufferSize := 0), InFlight(d.status))
  }

  /** A state in which a received frame can be read. */
  predicate Received(s: Status)
  {
    s == ReceiveAnalyze || s == ReceiveDone
  }

  /** `dw3k_rx_size` as written: the payload size from the 6-bit length
      in RX_FINFO, less the CRC; a length below 2 is a chip error, and the
      mask leaves the upper bound test nothing to catch. */
  function RxSizeAsWritten(d: State, finfo: bv16): (o: (State, int))
    ensures !Received(d.status) ==> o == (Bug(d, Misuse("BUF: Not ready for dw3k_rx_size")), 0)
    ensures Received(d.status) && finfo & 0x3F < 2 ==>
              o == (d.(status := ChipError, errorText := BadRxSize), 0)
    ensures Received(d.status) && finfo & 0x3F >= 2 ==>
              o.0 == d && o.1 + 2 == (finfo & 0x3F) as int && 0 <= o.1 <= 61
  {
    if !Received(d.status) then (Bug(d, Misuse("BUF: Not ready for dw3k_rx_size")), 0)
    else
      var withCrc := (finfo & 0x3F) as int;
      if withCrc < 2 || withCrc > PacketSize + 2 then
        (d.(status := ChipError, errorText := BadRxSize), 0)
      else (d, withCrc - 2)
  }

  /** A 74-byte frame (RX_FINFO 0x004A) is sized as 8 bytes: the bits of
      the length above the sixth are dropped, so the test against the
      buffer size never fires. */
  lemma RxSizeTruncated(d: State)
    requires Received(d.status)
    ensures RxSizeAsWritten(d, 0x004A) == (d, 8)
    ensures forall finfo: bv16 :: RxSizeAsWritten(d, finfo).1 <= 61
  {
    assert 0x004A & 0x3F == 0x000A as bv16;
  }

  /** `dw3k_rx_size` with the 10-bit frame length of RX_FINFO, the width
      the receive buffer of `dw3k_packet_size + 2` (1023) bytes calls for:
      the payload size less the CRC, and a chip error for a length below 2.
      The test against the buffer size stays, as a guard. */
  function RxSize(d: State, finfo: bv16): (o: (State, int))
    ensures !Received(d.status) ==> o == (Bug(d, Misuse("BUF: Not ready for dw3k_rx_size")), 0)
    ensures Received(d.status) && (finfo & 0x3FF) as int < 2 ==>
              o == (d.(status := ChipError, errorText := BadRxSize), 0)
    ensures Received(d.status) && (finfo & 0x3FF) as int >= 2 ==>
              o.0 == d && o.1 + 2 == (finfo & 0x3FF) as int && 0 <= o.1 <= PacketSize
  {
    if !Received(d.status) then (Bug(d, Misuse("BUF: Not ready for dw3k_rx_size")), 0)
    else
      var withCrc := (finfo & 0x3FF) as int;
      if withCrc < 2 || withCrc > PacketSize + 2 then
        (d.(status := ChipError, errorText := BadRxSize), 0)
      else (d, withCrc - 2)
  }

  /** With the whole length field the 74-byte frame is sized as 72 bytes,
      and the longest frame fills the buffer. */
  lemma RxSizeWhole(d: State)
    requires Received(d.status)
    ensures RxSize(d, 0x004A) == (d, 72)
    ensures RxSize(d, 0x03FF) == (d, PacketSize)
  {
    assert 0x004A & 0x3FF == 0x004A as bv16;
    assert 0x03FF & 0x3FF == 0x03FF as bv16;
  }

  /** `dw3k_retrieve_rx`: reading `size` bytes at `offset` of the receive
      buffer is allowed once a frame has arrived and inside the 1023 bytes;
      the flag says whether the read happens. */
  function RetrieveRx(d: State, offset: int, size: int): (o: (State, bool))
    ensures o.1 <==> Received(d.status) && 0 <= offset && 0 <= size && offset + size <= PacketSize + 2
    ensures o.1 ==> o.0 == d
    ensures !o.1 ==> o.0.status == CodeBug
  {
    if !Received(d.status) then (Bug(d, Misuse("BUF: Not ready for dw3k_retrieve_rx")), false)
    else if offset < 0 || size < 0 || offset + size > PacketSize + 2 then
      (Bug(d, Misuse("BUG: Bad offset/size for dw3k_retrieve_rx")), false)
    else (d, true)
  }

  /** The calls that need the PLL, guarded by `status < ResetWaitPLL`. */
  predicate Clocked(s: Status)
  {
    Ord(s) >= Ord(ResetWaitPLL)
  }

  /** `dw3k_clock_t32`: the 32-bit system time, once the clock runs. */
  function ClockT32(d: State, sysTime: bv32): (o: (State, bv32))
    ensures Clocked(d.status) ==> o == (d, sysTime)
    ensures !Clocked(d.status) ==> o == (Bug(d, Misuse("BUG: Not ready for dw3k_clock_t32")), 0)
  {
    if !Clocked(d.status) then (Bug(d, Misuse("BUG: Not ready for dw3k_clock_t32")), 0) else (d, sysTime)
  }

  /** The preamble length for a TXPSR code of TX_FCTRL; the other codes are
      not valid. */
  function PreambleSymbols(code: bv16): (n: Option<int>)
    ensures n.Some? <==> code in {0x1, 0x2, 0x3, 0x4, 0x5, 0x6, 0x9, 0xA, 0xD}
    ensures n.Some? ==> 32 <= n.value <= 4096
  {
    if code == 0x1 then Some(64)
    else if code == 0x2 then Some(1024)
    else if code == 0x3 then Some(4096)
    else if code == 0x4 then Some(32)
    else if code == 0x5 then Some(128)
    else if code == 0x6 then Some(1536)
    else if code == 0x9 then Some(256)
    else if code == 0xA then Some(2048)
    else if code == 0xD then Some(512)
    else None
  }

  /** The symbol count `dw3k_tx_leadtime_t32` converts to a lead time: the
      preamble plus a start frame delimiter of 16 symbols for the channel
      control setting with bits 1-2 equal to 2, and 8 otherwise. */
  function TxLeadSymbols(d: State, fctrlRead: bv16): (o: (State, int))
    ensures !Clocked(d.status) ==> o == (Bug(d, Misuse("BUG: Not ready for dw3k_tx_leadtime_t32")), 0)
    ensures Clocked(d.status) && PreambleSymbols((fctrlRead >> 12) & 0xF).None? ==>
              o == (d.(status := ChipError, errorText := BadTxpsr), 0)
    ensures Clocked(d.status) && PreambleSymbols((fctrlRead >> 12) & 0xF).Some? ==>
              o.0 == d && o.1 - PreambleSymbols((fctrlRead >> 12) & 0xF).value == (if d.chanCtrl & 0x6 == 0x4 then 16 else 8)
  {
    if !Clocked(d.status) then (Bug(d, Misuse("BUG: Not ready for dw3k_tx_leadtime_t32")), 0)
    else match PreambleSymbols((fctrlRead >> 12) & 0xF)
      case None => (d.(status := ChipError, errorText := BadTxpsr), 0)
      case Some(pre) => (d, pre + if d.chanCtrl & 0x6 == 0x4 then 16 else 8)
  }

  /** With the CHAN_CTRL value initialisation caches (0x094E), the start
      frame delimiter takes 8 symbols. */
  lemma InitialLead(d: State, fctrlRead: bv16)
    requires Clocked(d.status) && d.chanCtrl == 0x094E
    requires PreambleSymbols((fctrlRead >> 12) & 0xF).Some?
    ensures TxLeadSymbols(d, fctrlRead).1 == PreambleSymbols((fctrlRead >> 12) & 0xF).value + 8
  {
  }

  /** The expected transmit time in 40-bit device time: the scheduled
      32-bit time, whose lowest bit the chip ignores, shifted up by 8 bits,
      plus the antenna delay. */
  function ExpectedT40(sched: nat, delay: nat): (t: nat)
    requires sched < Word && delay < 0x1_0000
    ensures (t - delay) % 512 == 0 && (t - delay) / 512 == sched / 2
    ensures t < 0x100_0000_0000 + 0x1_0000
  {
    (sched - sched % 2) * 256 + delay
  }

  /** `dw3k_tx_expected_t40`: the antenna delay is read on the first call
      that passes the guard and kept from then on. */
  function TxExpectedT40(d: State, sched: nat, antd: nat): (o: (State, nat))
    requires sched < Word && antd < 0x1_0000 && (d.txDelay40.Some? ==> d.txDelay40.value < 0x1_0000)
    ensures !Clocked(d.status) ==> o == (Bug(d, Misuse("BUG: Not ready for dw3k_tx_expect_t40")), 0)
    ensures Clocked(d.status) ==>
              o.0 == d.(txDelay40 := if d.txDelay40.Some? then d.txDelay40 else Some(antd))
    ensures Clocked(d.status) ==> o.1 == ExpectedT40(sched, o.0.txDelay40.value)
  {
    if !Clocked(d.status) then (Bug(d, Misuse("BUG: Not ready for dw3k_tx_expect_t40")), 0)
    else
      var delay := if d.txDelay40.Some? then d.txDelay40.value else antd;
      (d.(txDelay40 := Some(delay)), ExpectedT40(sched, delay))
  }

  /** `dw3k_tx_timestamp_t40`: the TX_STAMP register, once sent. */
  function TxTimestamp(d: State, stamp: nat): (o: (State, nat))
    ensures d.status == TransmitDone ==> o == (d, stamp)
    ensures d.status != TransmitDone ==> o == (Bug(d, Misuse("BUG: Not ready for dw3k_tx_stamp")), 0)
  {
    if d.status != TransmitDone then (Bug(d, Misuse("BUG: Not ready for dw3k_tx_stamp")), 0) else (d, stamp)
  }

  /** The 40-bit receive stamp from its low word and high byte. */
  function Stamp40(lo: nat, hi: nat): (t: nat)
    requires lo < Word && hi < 0x100
    ensures t < 0x100_0000_0000 && t % Word == lo && t / Word == hi
  {
    lo + hi * Word
  }

  /** `dw3k_rx_timestamp_t40`: the RX_STAMP register, once received. */
  function RxTimestamp(d: State, lo: nat, hi: nat): (o: (State, nat))
    requires lo < Word && hi < 0x100
    ensures d.status == ReceiveDone ==> o == (d, Stamp40(lo, hi))
    ensures d.status != ReceiveDone ==> o == (Bug(d, Misuse("BUF: Not ready for dw3k_rx_timestamp_t40")), 0)
  {
    if d.status != ReceiveDone then (Bug(d, Misuse("BUF: Not ready for dw3k_rx_timestamp_t40")), 0)
    else (d, Stamp40(lo, hi))
  }

  // ----- the driver's statics, updated in place -----

  /** The TX and RX completion stage as the code runs it, one status check
      after another. */
  method CompleteRadio(s: Status, text: Message, r: PollReads, analysed: bool)
    returns (status: Status, errorText: Message)
    ensures (status, errorText) == RadioStep(s, text, r, analysed)
  {
    status, errorText := CompleteTx(s, text, r);
    status, errorText := CompleteRx(status, errorText, r, analysed);
  }

  /** The transmit checks of the completion stage. */
  method CompleteTx(s: Status, text: Message, r: PollReads) returns (status: Status, errorText: Message)
    ensures (status, errorText) == TxChecked(TxFinished(TxStarted(s, r), r), text, r)
  {
    status, errorText := s, text;
    var st := r.sysStatus;
    if status == TransmitWait {
      if st & 0xF0 != 0 {
        status := TransmitActive;
      } else if st & 0x8000000 != 0 {
        status := TransmitTooLate;
      } else if r.sysState == 0xD0000 {
        status := TransmitTooLate;
      }
    }
    if status == TransmitActive && st & 0x80 != 0 {
      status := TransmitDone;
    }
    var pmsc := (r.sysState >> 16) & 0xFF;
    if (status == TransmitWait || status == TransmitActive) && (pmsc < 0x8 || pmsc > 0xF) && r.txStatus & 0xF0 == 0 {
      status := ChipError;
      errorText := PmscNotTx;
    }
  }

  /** The receive checks of the completion stage. */
  method CompleteRx(s: Status, text: Message, r: PollReads, analysed: bool) returns (status: Status, errorText: Message)
    ensures status == RxChecked(RxFinished(RxStarted(s, r), analysed), text, r).0
    ensures errorText == RxChecked(RxFinished(RxStarted(s, r), analysed), text, r).1
  {
    status, errorText := s, text;
    var st := r.sysStatus;
    if status == ReceiveListen && st & 0x4000 != 0 {
      status := ReceiveAnalyze;
    }
    if status == ReceiveAnalyze && analysed {
      status := ReceiveDone;
    }
    if (status == ReceiveListen || status == ReceiveAnalyze) && RxLost(r) {
      status := ChipError;
      errorText := PmscNotRx;
    }
  }

  /** The error text as the code picks it: a generic text, overwritten by
      each failure bit in turn. */
  method PickErrorText(st: bv48) returns (text: Message)
    requires st & ErrorBits != 0
    ensures text == ErrorText(st)
  {
    text := StatusFailed;
    if st & 0x00040000 != 0 { text := ImpulseFailure; }
    if st & 0x00080000 != 0 { text := LowVoltage; }
    if st & 0x02000000 != 0 { text := PllLosingLock; }
    if st & 0x10000000000 != 0 { text := CommandFailed; }
    if st & 0xE0000000000 != 0 { text := SpiFailed; }
  }
}

/** The library's statics as a class whose methods change them in place.
    This is the code as the C++ source has it: statics assigned step by
    step. Each method is proved to leave exactly the state, and return
    exactly the value, of the function of the same name in `Dw3k`, which
    is where the properties are stated; the functions are the
    specification and these methods the implementation. */
module Dw3kStatics {
  import opened Common
  import opened Dw3k

  /** The library's module state. */
  class Driver {
    var status: Status
    var errorText: Message
    var resetMillis: nat
    var fctrl: nat
    var chanCtrl: bv16
    var txBufferSize: int
    var txDelay40: Option<nat>

    function Snapshot(): State
      reads this
    {
      State(status, errorText, resetMillis, fctrl, chanCtrl, txBufferSize, txDelay40)
    }

    /** The bounds the C types put on the statics. */
    predicate Valid()
      reads this
    {
      resetMillis < Word && 0 <= txBufferSize < PacketSize && fctrl < Word &&
      (txDelay40.Some? ==> txDelay40.value < 0x1_0000)
    }

    constructor ()
      ensures Snapshot() == Boot && Valid()
    {
      status, errorText, resetMillis := Invalid, NoError, 0;
      fctrl, chanCtrl, txBufferSize, txDelay40 := 0, 0, 0, None;
    }

    method Bug(text: Message)
      modifies this
      ensures Snapshot() == Dw3k.Bug(old(Snapshot()), text)
    {
      status := CodeBug;
      errorText := text;
    }

    /** `dw3k_reset`: holds the chip in reset from time `now`. */
    method Reset(now: nat)
      requires Valid() && now < Word
      modifies this
      ensures Valid() && Snapshot() == old(Snapshot()).(status := ResetActive, resetMillis := now)
    {
      status := ResetActive;
      resetMillis := now;
    }

    /** `dw3k_poll`. */
    method Poll(r: PollReads) returns (s: Status)
      requires Valid()
      modifies this
      ensures Snapshot() == Dw3k.Poll(old(Snapshot()), r) && s == status && Valid()
    {
      var go := Start(r);
      if go {
        Finish(r);
      }
      s := status;
    }

    /** The reset and initialisation part of `dw3k_poll`; `go` says
        whether the poll goes on to the error check. */
    method Start(r: PollReads) returns (go: bool)
      requires Valid()
      modifies this
      ensures Valid()
      ensures go ==> Dw3k.Poll(old(Snapshot()), r) == AfterInit(Snapshot(), r)
      ensures !go ==> Snapshot() == Dw3k.Poll(old(Snapshot()), r)
      ensures go ==> status != CodeBug
    {
      ghost var d := Snapshot();
      if status == ChipError || status == CodeBug {
        return false;
      }
      if status == ResetActive {
        if (r.now - resetMillis) % Word < 10 || r.irqAtReset {
          assert !ResetDone(d, r);
          return false;
        }
        status := ResetWaitIRQ;
      }
      assert Dw3k.Poll(d, r) == Initialised(Snapshot(), r);
      go := Initialise(r);
    }

    /** The initialisation once SPI is up, as `Initialised` states it. */
    method Initialise(r: PollReads) returns (go: bool)
      requires Valid() && status != ChipError && status != CodeBug && status != ResetActive
      modifies this
      ensures Valid()
      ensures go ==> Initialised(old(Snapshot()), r) == AfterInit(Snapshot(), r)
      ensures !go ==> Snapshot() == Initialised(old(Snapshot()), r)
      ensures go ==> status != CodeBug
    {
      if status == ResetWaitIRQ {
        if !r.irqAtInit { return false; }
        if !GoodDevice(r.devId) {
          status := ChipError;
          errorText := BadDeviceId;
          return false;
        }
        if OtpMissing(r) {
          status := ChipError;
          errorText := MissingOtp;
          return false;
        }
        fctrl := 0x1800;
        chanCtrl := 0x094E;
        status := ResetWaitPLL;
      }
      return true;
    }

    /** The rest of `dw3k_poll`, from the error check on. */
    method Finish(r: PollReads)
      requires Valid()
      modifies this
      ensures Snapshot() == AfterInit(old(Snapshot()), r) && Valid()
    {
      var st := r.sysStatus;
      if st & ErrorBits != 0 {
        status := ChipError;
        errorText := PickErrorText(st);
        return;
      }
      if status == ResetWaitPLL {
        if !PllLocked(r) { return; }
        status := CalibrationWait;
      }
      if status == CalibrationWait {
        if r.rxCalSts == 0 { return; }
        if CalibrationBad(r) {
          status := ChipError;
          errorText := CalibrationFailed;
          return;
        }
        status := Ready;
      }
      status, errorText := CompleteRadio(status, errorText, r, st & 0x2000 != 0);
    }

    /** `dw3k_buffer_tx`. */
    method BufferTx(size: int)
      requires Valid()
      modifies this
      ensures Snapshot() == Dw3k.BufferTx(old(Snapshot()), size) && Valid()
    {
      if size < 0 || txBufferSize + size >= PacketSize {
        Bug(Misuse("BUG: Bad size for dw3k_start_transmit"));
        return;
      }
      if status != Ready {
        Bug(Misuse("BUG: Not ready for dw3k_tx_buffer"));
        return;
      }
      txBufferSize := txBufferSize + size;
      var f := Fctrl(fctrl, txBufferSize + 2);
      if f != fctrl {
        fctrl := f;
      }
    }

    /** `dw3k_schedule_tx`. */
    method ScheduleTx()
      modifies this
      ensures Snapshot() == Dw3k.ScheduleTx(old(Snapshot()))
    {
      if status != Ready {
        Bug(Misuse("BUG: Not ready for dw3k_start_transmit"));
        return;
      }
      status := TransmitWait;
    }

    /** `dw3k_start_rx`. */
    method StartRx()
      modifies this
      ensures Snapshot() == Dw3k.StartRx(old(Snapshot()))
    {
      if status != Ready {
        Bug(Misuse("BUG: Not ready for dw3k_start_rx"));
        return;
      }
      status := ReceiveListen;
    }

    /** `dw3k_end_txrx`; `off` says whether TXRXOFF is sent. */
    method EndTxRx() returns (off: bool)
      requires Valid()
      modifies this
      ensures (Snapshot(), off) == Dw3k.EndTxRx(old(Snapshot())) && Valid()
    {
      if InFlight(status) {
        off := true;
      } else if status == TransmitDone || status == ReceiveDone || status == Ready {
        off := false;
      } else {
        Bug(Misuse("BUG: Not ready for dw3k_end_txrx"));
        return false;
      }
      txBufferSize := 0;
      status := Ready;
    }

    /** `dw3k_rx_size`, given the RX_FINFO register. */
    method RxSize(finfo: bv16) returns (n: int)
      modifies this
      ensures (Snapshot(), n) == Dw3k.RxSize(old(Snapshot()), finfo)
    {
      if status != ReceiveAnalyze && status != ReceiveDone {
        Bug(Misuse("BUF: Not ready for dw3k_rx_size"));
        return 0;
      }
      var withCrc := (finfo & 0x3FF) as int;
      if withCrc < 2 || withCrc > PacketSize + 2 {
        status := ChipError;
        errorText := BadRxSize;
        return 0;
      }
      return withCrc - 2;
    }

    /** `dw3k_retrieve_rx`; `read` says whether the bytes are read. */
    method RetrieveRx(offset: int, size: int) returns (read: bool)
      modifies this
      ensures (Snapshot(), read) == Dw3k.RetrieveRx(old(Snapshot()), offset, size)
    {
      if status != ReceiveAnalyze && status != ReceiveDone {
        Bug(Misuse("BUF: Not ready for dw3k_retrieve_rx"));
        return false;
      }
      if offset < 0 || size < 0 || offset + size > PacketSize + 2 {
        Bug(Misuse("BUG: Bad offset/size for dw3k_retrieve_rx"));
        return false;
      }
      return true;
    }

    /** `dw3k_clock_t32`, given the SYS_TIME register. */
    method ClockT32(sysTime: bv32) returns (t: bv32)
      modifies this
      ensures (Snapshot(), t) == Dw3k.ClockT32(old(Snapshot()), sysTime)
    {
      if Ord(status) < Ord(ResetWaitPLL) {
        Bug(Misuse("BUG: Not ready for dw3k_clock_t32"));
        return 0;
      }
      return sysTime;
    }

    /** The symbol count of `dw3k_tx_leadtime_t32`, given TX_FCTRL. */
    method TxLeadSymbols(fctrlRead: bv16) returns (n: int)
      modifies this
      ensures (Snapshot(), n) == Dw3k.TxLeadSymbols(old(Snapshot()), fctrlRead)
    {
      if Ord(status) < Ord(ResetWaitPLL) {
        Bug(Misuse("BUG: Not ready for dw3k_tx_leadtime_t32"));
        return 0;
      }
      var pre := PreambleSymbols((fctrlRead >> 12) & 0xF);
      if pre.None? {
        status := ChipError;
        errorText := BadTxpsr;
        return 0;
      }
      n := pre.value + if chanCtrl & 0x6 == 0x4 then 16 else 8;
    }

    /** `dw3k_tx_expected_t40`, given the TX_ANTD register. */
    method TxExpectedT40(sched: nat, antd: nat) returns (t: nat)
      requires Valid() && sched < Word && antd < 0x1_0000
      modifies this
      ensures (Snapshot(), t) == Dw3k.TxExpectedT40(old(Snapshot()), sched, antd) && Valid()
    {
      if Ord(status) < Ord(ResetWaitPLL) {
        Bug(Misuse("BUG: Not ready for dw3k_tx_expect_t40"));
        return 0;
      }
      if txDelay40.None? {
        txDelay40 := Some(antd);
      }
      t := ExpectedT40(sched, txDelay40.value);
    }

    /** `dw3k_tx_timestamp_t40`, given the TX_STAMP register. */
    method TxTimestamp(stamp: nat) returns (t: nat)
      modifies this
      ensures (Snapshot(), t) == Dw3k.TxTimestamp(old(Snapshot()), stamp)
    {
      if status != TransmitDone {
        Bug(Misuse("BUG: Not ready for dw3k_tx_stamp"));
        return 0;
      }
      return stamp;
    }

    /** `dw3k_rx_timestamp_t40`, given the two parts of RX_STAMP. */
    method RxTimestamp(lo: nat, hi: nat) returns (t: nat)
      requires lo < Word && hi < 0x100
      modifies this
      ensures (Snapshot(), t) == Dw3k.RxTimestamp(old(Snapshot()), lo, hi)
    {
      if status != ReceiveDone {
        Bug(Misuse("BUF: Not ready for dw3k_rx_timestamp_t40"));
        return 0;
      }
      return Stamp40(lo, hi);
    }
  }
}
