/** The "power cradle" support of the RP2040/ESP32 programs: the AW9523
    GPIO expander behind pins CRADLE_X0 and up, the four status LEDs and
    the microbuttons on the expander's port 1, and the bookkeeping of the
    eleven text lines on the 64x32 SSD1306 screen.

    Pin, I2C and screen hardware is outside the model: each operation
    states the calls it makes on it (`Call`) and takes what the hardware
    answers (whether an I2C write was acknowledged, the byte an I2C read
    returned, the level of a native pin) as parameters. */
module PgCradle {
  import opened Common

  /** The first expander pin number. */
  const X0 := 100

  const NormalLedPower: seq<int> := [8, 1, 16, 4]
  /** 20 mA if the full scale of 255 is 37 mA. */
  const MaxLedPower := 137

  const LineChars := 16
  const LineCount := 11
  const TextBold := 0x70
  const TextInverse := 0x80
  /** The size of the formatting buffer, not counting its terminator. */
  const BufferChars := LineChars * LineCount

  /** AW9523 registers. */
  const InputPort0: byte := 0x00
  const InputPort1: byte := 0x01
  const OutputPort0: byte := 0x02
  const ConfigPort0: byte := 0x04
  const ModePort1: byte := 0x13

  /** The Arduino pin modes the expander handles, and any other. */
  datatype Mode = Input | Output | OtherMode(code: int)

  /** What an operation asks of the hardware: a native pin call, one I2C
      transmission to the expander, a one-byte I2C read from it, or the
      program's abort. */
  datatype Call =
    | NativeMode(pin: int, mode: Mode)
    | NativeWrite(pin: int, high: bool)
    | NativeRead(pin: int)
    | Send(data: Bytes)
    | Request
    | Abort

  /** The cached expander port-0 registers: direction (a set bit is an
      input) and output level. */
  datatype Gpio = Gpio(dir: byte, output: byte)

  /** All pins input and low, as the program starts. */
  const PowerOn := Gpio(0xFF, 0x00)

  function Bit(k: nat): byte
    requires k < 8
  {
    if k == 0 then 0x01 else if k == 1 then 0x02 else if k == 2 then 0x04 else if k == 3 then 0x08
    else if k == 4 then 0x10 else if k == 5 then 0x20 else if k == 6 then 0x40 else 0x80
  }

  predicate BitSet(x: byte, k: nat)
    requires k < 8
  {
    x & Bit(k) != 0
  }

  /** Two port values that differ at most in bit `k`. */
  predicate SameExcept(x: byte, y: byte, k: nat)
    requires k < 8
  {
    (x ^ y) & !Bit(k) == 0
  }

  predicate Expander(count: int, pin: int)
  {
    X0 <= pin < X0 + count
  }

  // ---------------------------------------------------------------------
  // GPIO

  /** The port-0 value with bit `k` set to `high`. */
  function WithBit(x: byte, k: nat, high: bool): (y: byte)
    requires k < 8
    ensures SameExcept(x, y, k) && (BitSet(y, k) <==> high)
    ensures y == x <==> (BitSet(x, k) <==> high)
  {
    if high then x | Bit(k) else x & !Bit(k)
  }

  /** `pg_cradle_io::pinMode` with `count` expander pins; `ack` says
      whether the expander acknowledges the write. */
  function PinModeStep(g: Gpio, count: int, pin: int, mode: Mode, ack: bool): (r: (Gpio, seq<Call>))
    requires count <= 8
    ensures r.0.output == g.output
    ensures pin < X0 ==> r == (g, [NativeMode(pin, mode)])
    ensures X0 <= pin && !Expander(count, pin) ==> r == (g, [])
    ensures Expander(count, pin) && mode.OtherMode? ==> r == (g, [Abort])
    ensures Expander(count, pin) && !mode.OtherMode? ==>
      SameExcept(g.dir, r.0.dir, pin - X0)
      && (ack ==> (BitSet(r.0.dir, pin - X0) <==> mode == Input))
      && (r.1 == [] <==> (BitSet(g.dir, pin - X0) <==> mode == Input))
    ensures r.0 != g ==> ack
    ensures r.1 != [] && Expander(count, pin) && !mode.OtherMode? ==>
      r.1 == [Send([ConfigPort0, WithBit(g.dir, pin - X0, mode == Input)])]
  {
    if pin < X0 then (g, [NativeMode(pin, mode)])
    else if pin >= X0 + count then (g, [])
    else if mode.OtherMode? then (g, [Abort])
    else
      var dir := WithBit(g.dir, pin - X0, mode == Input);
      if dir == g.dir then (g, [])
      else (if ack then g.(dir := dir) else g, [Send([ConfigPort0, dir])])
  }

  /** `pg_cradle_io::digitalWrite`: the output bit, then the pin made an
      output; `ackOutput` and `ackDir` answer the two possible writes. */
  function DigitalWriteStep(g: Gpio, count: int, pin: int, high: bool, ackOutput: bool, ackDir: bool): (r: (Gpio, seq<Call>))
    requires count <= 8
    ensures pin >= X0 + count ==> r == (g, [])
    ensures pin < X0 + count && pin < X0 ==> r == (g, [NativeWrite(pin, high)])
    ensures Expander(count, pin) ==>
      r.0.output == (if ackOutput then WithBit(g.output, pin - X0, high) else g.output)
      && r.0.dir == (if ackDir then WithBit(g.dir, pin - X0, false) else g.dir)
    ensures Expander(count, pin) ==>
      var output := WithBit(g.output, pin - X0, high);
      var dir := WithBit(g.dir, pin - X0, false);
      r.1 == (if output != g.output then [Send([OutputPort0, output])] else [])
        + (if dir != g.dir then [Send([ConfigPort0, dir])] else [])
  {
    if pin >= X0 + count then (g, [])
    else if pin < X0 then (g, [NativeWrite(pin, high)])
    else
      var output := WithBit(g.output, pin - X0, high);
      var g1 := if output != g.output && ackOutput then g.(output := output) else g;
      var c1 := if output != g.output then [Send([OutputPort0, output])] else [];
      var r2 := PinModeStep(g1, count, pin, Output, ackDir);
      (r2.0, c1 + r2.1)
  }

  /** Bit by bit: an expander write touches only the pin's bit of each
      port, and an acknowledged write leaves that bit as asked. */
  lemma DigitalWriteBits(g: Gpio, count: int, pin: int, high: bool, ackOutput: bool, ackDir: bool)
    requires count <= 8 && Expander(count, pin)
    ensures var r := DigitalWriteStep(g, count, pin, high, ackOutput, ackDir);
      SameExcept(g.output, r.0.output, pin - X0)
      && SameExcept(g.dir, r.0.dir, pin - X0)
      && (ackOutput ==> (BitSet(r.0.output, pin - X0) <==> high))
      && (ackDir ==> !BitSet(r.0.dir, pin - X0))
  {
  }

  /** `pg_cradle_io::digitalRead`: `native` is what a native pin reads,
      `input` what the expander's input port returns (None when the read
      fails). */
  function DigitalReadStep(count: int, pin: int, native: int, input: Option<byte>): (r: (int, seq<Call>))
    requires count <= 8
    ensures pin < X0 ==> r == (native, [NativeRead(pin)])
    ensures X0 <= pin && !Expander(count, pin) ==> r == (0, [])
    ensures Expander(count, pin) ==>
      r.1 == [Send([InputPort0]), Request]
      && (r.0 == 1 <==> input.Some? && BitSet(input.value, pin - X0))
      && (r.0 == 0 <==> !(input.Some? && BitSet(input.value, pin - X0)))
  {
    if pin < X0 then (native, [NativeRead(pin)])
    else if pin >= X0 + count then (0, [])
    else if input.None? then (0, [Send([InputPort0]), Request])
    else ((if (input.value >> (pin - X0)) & 1 == 1 then 1 else 0), [Send([InputPort0]), Request])
  }

  // ---------------------------------------------------------------------
  // Status LEDs and buttons

  /** C's `/`, which truncates toward zero. */
  function Quot(a: int, b: int): (q: int)
    requires b > 0
  {
    if a >= 0 then a / b else -((-a) / b)
  }

  /** The LED current for a percentage of the normal power: the percentage
      of the normal value rounded up, clamped to [0, MaxLedPower]. */
  function LedPower(which: int, percent: int): (p: int)
    requires 0 <= which < 4
    ensures 0 <= p <= MaxLedPower
    ensures var x := NormalLedPower[which] * percent;
      (x <= 0 ==> p == 0)
      && (x > 100 * MaxLedPower ==> p == MaxLedPower)
      && (0 < x <= 100 * MaxLedPower ==> (p - 1) * 100 < x <= p * 100)
  {
    var power := Quot(NormalLedPower[which] * percent + 99, 100);
    if power < 0 then 0 else if power > MaxLedPower then MaxLedPower else power
  }

  /** LED 0 is DIM11 (0x23) and LED 3 is DIM8 (0x20). */
  function LedRegister(which: int): (r: byte)
    requires 0 <= which < 4
    ensures r as int == 0x23 - which
  {
    ByteOfValue(0x23 - which);
    ByteOf(0x23 - which)
  }

  /** `pg_set_cradle_led` with `count` status LEDs: the cached powers and
      the write it makes. The cache changes whatever the expander
      answers. */
  function SetLedStep(power: seq<int>, count: int, which: int, percent: int): (r: (seq<int>, seq<Call>))
    requires |power| == 4 && count <= 4
    ensures |r.0| == 4
    ensures !(0 <= which < count) ==> r == (power, [])
    ensures 0 <= which < count ==>
      r.0[which] == LedPower(which, percent)
      && (forall k :: 0 <= k < 4 && k != which ==> r.0[k] == power[k])
      && (r.1 == [] <==> power[which] == LedPower(which, percent))
    ensures 0 <= which < count && r.1 != [] ==>
      r.1 == [Send([LedRegister(which), ByteOf(LedPower(which, percent))])]
  {
    if which < 0 || which >= count then (power, [])
    else
      var p := LedPower(which, percent);
      if p == power[which] then (power, [])
      else (power[which := p], [Send([LedRegister(which), ByteOf(p)])])
  }

  /** `pg_cradle_button` with `count` buttons: button `which` is the
      port-1 pin 6 - which, switched to GPIO mode for the read and back to
      LED mode afterwards; a failed read returns false and leaves the pin
      in GPIO mode. */
  function ButtonStep(count: int, which: int, input: Option<byte>): (r: (bool, seq<Call>))
    requires count <= 7
    ensures !(0 <= which < count) ==> r == (false, [])
    ensures 0 <= which < count ==>
      (r.0 <==> input.Some? && BitSet(input.value, 6 - which))
      && |r.1| == (if input.Some? then 4 else 3)
      && r.1[..3] == [Send([ModePort1, Bit(6 - which)]), Send([InputPort1]), Request]
      && (input.Some? ==> r.1[3] == Send([ModePort1, 0]))
  {
    if which < 0 || which >= count then (false, [])
    else
      var toggle := [Send([ModePort1, 0x40 >> which]), Send([InputPort1]), Request];
      if input.None? then (false, toggle)
      else (input.value & (0x40 >> which) != 0, toggle + [Send([ModePort1, 0])])
  }

  // ---------------------------------------------------------------------
  // Screen lines

  /** A line: its style (size plus the bold and inverse flags) and the
      text shown, at most LineChars characters. */
  datatype Line = Line(style: int, text: string)

  datatype Screen = Screen(lines: seq<Line>, firstPrint: bool)

  const Blank := Screen(seq(LineCount, _ => Line(0, "")), true)

  /** `line_height`: the style with bits 4-7 cleared, on two's-complement
      integers. */
  function Height(style: int): (h: int)
    ensures h % 16 == style % 16
    ensures (h / 16) % 16 == 0
    ensures h / 256 == style / 256
  {
    style - ((style / 16) % 16) * 16
  }

  /** A size from 0 to 15 plus flags has that size as its height. */
  lemma StyleHeight(size: int, bold: bool, inverse: bool)
    requires 0 <= size < 16
    ensures Height(size + (if bold then TextBold else 0) + (if inverse then TextInverse else 0)) == size
  {
    var style := size + (if bold then TextBold else 0) + (if inverse then TextInverse else 0);
    assert style / 256 == 0;
  }

  /** What `strncpy` keeps of a text in a line. */
  function Clip(text: string): string
  {
    if |text| <= LineChars then text else text[..LineChars]
  }

  /** What is kept is a prefix: the text is cut to the line's 16
      characters, and kept whole when it fits. */
  lemma ClipKeeps(text: string)
    ensures var r := Clip(text);
      |r| <= LineChars && |r| <= |text| && r == text[..|r|] && (|r| == LineChars || r == text)
  {
  }

  /** Where line `which` starts: the heights of the lines above it. */
  function Top(lines: seq<Line>, which: nat): int
    requires which <= |lines|
  {
    if which == 0 then 0 else Top(lines, which - 1) + Height(lines[which - 1].style)
  }

  /** Changing a line never moves the lines above it. */
  lemma {:induction false} TopAbove(lines: seq<Line>, which: nat, k: nat, l: Line)
    requires which <= k < |lines|
    ensures Top(lines[k := l], which) == Top(lines, which)
  {
    if which > 0 {
      TopAbove(lines, which - 1, k, l);
    }
  }

  /** `set_line`: nothing when the first LineChars characters and the
      style are unchanged; otherwise the line is replaced and the screen
      is no longer at its first print. */
  function SetLineStep(s: Screen, which: int, style: int, text: string): (r: Screen)
    requires 0 <= which < |s.lines|
    ensures |r.lines| == |s.lines|
    ensures r.lines[which] == Line(style, Clip(text))
    ensures forall k :: 0 <= k < |s.lines| && k != which ==> r.lines[k] == s.lines[k]
    ensures r.firstPrint == (s.firstPrint && s.lines[which] == Line(style, Clip(text)))
  {
    if Clip(text) == s.lines[which].text && style == s.lines[which].style then s
    else Screen(s.lines[which := Line(style, Clip(text))], false)
  }

  predicate Delim(c: char)
  {
    c == '\r' || c == '\n'
  }

  /** A piece `strtok_r` returns: not empty and without delimiters. */
  predicate Token(t: string)
  {
    t != [] && forall i :: 0 <= i < |t| ==> !Delim(t[i])
  }

  /** The number of characters before the first delimiter. */
  function RunLength(s: string): (k: nat)
    ensures k <= |s|
    ensures forall i :: 0 <= i < k ==> !Delim(s[i])
    ensures k < |s| ==> Delim(s[k])
  {
    if s == [] || Delim(s[0]) then 0 else 1 + RunLength(s[1..])
  }

  /** The successive `strtok_r(…, "\r\n", …)` results. */
  function Tokens(s: string): (ts: seq<string>)
    ensures forall i :: 0 <= i < |ts| ==> Token(ts[i])
    decreases |s|
  {
    if s == [] then []
    else if Delim(s[0]) then Tokens(s[1..])
    else
      var k := RunLength(s);
      [s[..k]] + Tokens(s[k..])
  }

  /** The characters of a text that are not delimiters. */
  function Kept(s: string): string
  {
    if s == [] then [] else (if Delim(s[0]) then [] else [s[0]]) + Kept(s[1..])
  }

  lemma {:induction false} KeptRun(s: string, k: nat)
    requires k <= |s| && forall i :: 0 <= i < k ==> !Delim(s[i])
    ensures Kept(s) == s[..k] + Kept(s[k..])
  {
    if k > 0 {
      KeptRun(s[1..], k - 1);
      assert s[1..][k - 1..] == s[k..];
      assert [s[0]] + s[1..][..k - 1] == s[..k];
    }
  }

  /** The tokens hold every character that is not a delimiter, in
      order. */
  lemma {:induction false} TokensKeep(s: string)
    ensures Concat(Tokens(s)) == Kept(s)
    decreases |s|
  {
    if s == [] {
    } else if Delim(s[0]) {
      TokensKeep(s[1..]);
    } else {
      var k := RunLength(s);
      TokensKeep(s[k..]);
      KeptRun(s, k);
      ConcatAppend([s[..k]], Tokens(s[k..]));
      assert [s[..k]][..0] == [];
    }
  }

  /** One `set_line` call: the line and the text. */
  datatype SetCall = SetCall(which: int, text: string)

  /** The lines the tokens go to: consecutive lines from `line`, as many
      as fit below LineCount. */
  function Assign(line: int, ts: seq<string>): (cs: seq<SetCall>)
    ensures |cs| == (if line >= LineCount then 0 else if |ts| <= LineCount - line then |ts| else LineCount - line)
    ensures forall k :: 0 <= k < |cs| ==> cs[k] == SetCall(line + k, ts[k])
  {
    var n := if line >= LineCount then 0 else if |ts| <= LineCount - line then |ts| else LineCount - line;
    seq(n, k requires 0 <= k < n => SetCall(line + k, ts[k]))
  }

  /** What `vsnprintf` leaves of the formatted text in the buffer. */
  function Buffer(formatted: string): string
  {
    if |formatted| <= BufferChars then formatted else formatted[..BufferChars]
  }

  /** What is kept is a prefix: the formatted text is cut to the
      buffer's 176 characters, and kept whole when it fits. */
  lemma BufferKeeps(formatted: string)
    ensures var r := Buffer(formatted);
      |r| <= BufferChars && |r| <= |formatted| && r == formatted[..|r|] && (|r| == BufferChars || r == formatted)
  {
  }

  /** The `set_line` calls of `pg_cradle_printf` as written: the whole
      buffer to `line` before the loop checks the line count. */
  function PrintCallsAsWritten(line: int, buf: string): (cs: seq<SetCall>)
    requires line >= 0
    ensures |cs| >= 1 && cs[0] == SetCall(line, buf)
    ensures forall k :: 1 <= k < |cs| ==> 0 <= cs[k].which < LineCount
  {
    [SetCall(line, buf)] + Assign(line, Tokens(buf))
  }

  /** A line at or past LineCount reaches `set_line` and so indexes past
      the end of the eleven lines. */
  lemma PrintfPastLastLine()
    ensures PrintCallsAsWritten(LineCount, "x")[0].which >= LineCount
  {
  }

  /** The calls with the whole-buffer call made only for an existing
      line. */
  function PrintCalls(line: int, buf: string): (cs: seq<SetCall>)
    requires line >= 0
    ensures forall k :: 0 <= k < |cs| ==> 0 <= cs[k].which < LineCount
  {
    (if line < LineCount then [SetCall(line, buf)] else []) + Assign(line, Tokens(buf))
  }

  function Apply(s: Screen, style: int, cs: seq<SetCall>): (r: Screen)
    requires |s.lines| == LineCount
    requires forall k :: 0 <= k < |cs| ==> 0 <= cs[k].which < LineCount
    ensures |r.lines| == LineCount
  {
    if cs == [] then s
    else
      var last := cs[|cs| - 1];
      SetLineStep(Apply(s, style, cs[..|cs| - 1]), last.which, style, last.text)
  }

  /** `pg_cradle_printf` on the screen lines. */
  function Printf(s: Screen, hasScreen: bool, line: int, style: int, formatted: string): (r: Screen)
    requires |s.lines| == LineCount
    ensures |r.lines| == LineCount
  {
    if !hasScreen || line < 0 then s else Apply(s, style, PrintCalls(line, Buffer(formatted)))
  }

  /** Applying the calls for the first `n` tokens fills lines `line` to
      `line + n - 1` with them and leaves the rest alone. */
  lemma {:induction false} AssignFills(s: Screen, style: int, line: int, ts: seq<string>, n: nat)
    requires |s.lines| == LineCount && 0 <= line
    requires n <= |Assign(line, ts)|
    ensures var r := Apply(s, style, Assign(line, ts)[..n]);
      (forall j :: line <= j < line + n ==> r.lines[j] == Line(style, Clip(ts[j - line])))
      && (forall j :: 0 <= j < LineCount && !(line <= j < line + n) ==> r.lines[j] == s.lines[j])
  {
    if n > 0 {
      var cs := Assign(line, ts)[..n];
      assert cs[..n - 1] == Assign(line, ts)[..n - 1];
      AssignFills(s, style, line, ts, n - 1);
    }
  }

  /** `pg_cradle_printf` puts the tokens of the formatted text on
      consecutive lines from `line`, as many as fit; with no token, the
      line gets the start of the buffer itself. No other line changes. */
  lemma PrintfLines(s: Screen, line: int, style: int, formatted: string)
    requires |s.lines| == LineCount && 0 <= line < LineCount
    ensures var buf := Buffer(formatted);
      var ts := Tokens(buf);
      var n := |Assign(line, ts)|;
      var r := Printf(s, true, line, style, formatted);
      (forall j :: line <= j < line + n ==> r.lines[j] == Line(style, Clip(ts[j - line])))
      && (n == 0 ==> r.lines[line] == Line(style, Clip(buf)))
      && (forall j :: 0 <= j < LineCount && j != line && !(line <= j < line + n) ==> r.lines[j] == s.lines[j])
  {
    var buf := Buffer(formatted);
    var ts := Tokens(buf);
    var cs := Assign(line, ts);
    var s1 := SetLineStep(s, line, style, buf);
    var all := [SetCall(line, buf)] + cs;
    assert PrintCalls(line, buf) == all;
    ApplyAppend(s, style, [SetCall(line, buf)], cs);
    assert Apply(s, style, [SetCall(line, buf)]) == s1 by {
      assert [SetCall(line, buf)][..0] == [];
    }
    assert cs[..|cs|] == cs;
    AssignFills(s1, style, line, ts, |cs|);
  }

  /** Applying two runs of calls one after the other. */
  lemma {:induction false} ApplyAppend(s: Screen, style: int, a: seq<SetCall>, b: seq<SetCall>)
    requires |s.lines| == LineCount
    requires forall k :: 0 <= k < |a| ==> 0 <= a[k].which < LineCount
    requires forall k :: 0 <= k < |b| ==> 0 <= b[k].which < LineCount
    ensures Apply(s, style, a + b) == Apply(Apply(s, style, a), style, b)
    decreases |b|
  {
    if b == [] {
      assert a + b == a;
    } else {
      assert (a + b)[..|a + b| - 1] == a + b[..|b| - 1];
      ApplyAppend(s, style, a, b[..|b| - 1]);
    }
  }
}

/** The cradle's static state and the functions that update it. The
    methods are the C++ code's in-place updates of the statics; each is
    proved to leave the state the step function of `PgCradle` describes,
    and the properties are stated about those functions. */
module PgCradleIo {
  import opened Common
  import opened PgCradle

  class Cradle {
    /** What detection found: expander pins, status LEDs, buttons and
        whether the screen answered (-1 for the counts before
        detection). */
    const extraGpioCount: int
    const statusLedCount: int
    const buttonCount: int
    const hasScreen: bool

    var xgpioDir: byte
    var xgpioOutput: byte
    var ledPower: seq<int>
    var lines: seq<Line>
    var firstPrint: bool
    /** The calls made on the hardware so far. */
    var calls: seq<Call>

    ghost predicate Valid()
      reads this
    {
      -1 <= extraGpioCount <= 8 && -1 <= statusLedCount <= 4 && -1 <= buttonCount <= 7
      && |ledPower| == 4 && |lines| == LineCount
    }

    function Gpio(): PgCradle.Gpio
      reads this
    {
      PgCradle.Gpio(xgpioDir, xgpioOutput)
    }

    function Screen(): PgCradle.Screen
      reads this
    {
      PgCradle.Screen(lines, firstPrint)
    }

    constructor (gpioCount: int, ledCount: int, buttons: int, screen: bool)
      requires -1 <= gpioCount <= 8 && -1 <= ledCount <= 4 && -1 <= buttons <= 7
      ensures Valid()
      ensures (extraGpioCount, statusLedCount, buttonCount, hasScreen) == (gpioCount, ledCount, buttons, screen)
      ensures Gpio() == PowerOn && ledPower == [0, 0, 0, 0] && Screen() == Blank && calls == []
    {
      extraGpioCount, statusLedCount, buttonCount, hasScreen := gpioCount, ledCount, buttons, screen;
      xgpioDir, xgpioOutput := 0xFF, 0x00;
      ledPower := [0, 0, 0, 0];
      lines := Blank.lines;
      firstPrint := true;
      calls := [];
    }

    /** `pg_cradle_io::pinMode`. */
    method PinMode(pin: int, mode: Mode, ack: bool)
      requires Valid()
      modifies this
      ensures Valid() && ledPower == old(ledPower) && Screen() == old(Screen())
      ensures (Gpio(), calls) == (PinModeStep(old(Gpio()), extraGpioCount, pin, mode, ack).0,
                                  old(calls) + PinModeStep(old(Gpio()), extraGpioCount, pin, mode, ack).1)
    {
      if pin < X0 {
        calls := calls + [NativeMode(pin, mode)];
        return;
      }
      if pin >= X0 + extraGpioCount {
        assert calls + [] == calls;
        return;
      }
      var newDir;
      if mode == Input {
        newDir := WithBit(xgpioDir, pin - X0, true);
      } else if mode == Output {
        newDir := WithBit(xgpioDir, pin - X0, false);
      } else {
        calls := calls + [Abort];
        return;
      }
      if newDir != xgpioDir {
        calls := calls + [Send([ConfigPort0, newDir])];
        if ack {
          xgpioDir := newDir;
        }
      }
    }

    /** `pg_cradle_io::digitalWrite`. */
    method DigitalWrite(pin: int, high: bool, ackOutput: bool, ackDir: bool)
      requires Valid()
      modifies this
      ensures Valid() && ledPower == old(ledPower) && Screen() == old(Screen())
      ensures (Gpio(), calls) == (DigitalWriteStep(old(Gpio()), extraGpioCount, pin, high, ackOutput, ackDir).0,
                                  old(calls) + DigitalWriteStep(old(Gpio()), extraGpioCount, pin, high, ackOutput, ackDir).1)
    {
      if pin >= X0 + extraGpioCount {
        assert calls + [] == calls;
        return;
      }
      if pin < X0 {
        calls := calls + [NativeWrite(pin, high)];
        return;
      }
      var newOutput := WithBit(xgpioOutput, pin - X0, high);
      if newOutput != xgpioOutput {
        calls := calls + [Send([OutputPort0, newOutput])];
        if ackOutput {
          xgpioOutput := newOutput;
        }
      }
      ghost var written := calls;
      PinMode(pin, Output, ackDir);
      assert calls == old(calls) + (written[|old(calls)|..] + calls[|written|..]);
    }

    /** `pg_cradle_io::digitalRead`. */
    method DigitalRead(pin: int, native: int, input: Option<byte>) returns (level: int)
      requires Valid()
      modifies this
      ensures Valid() && Gpio() == old(Gpio()) && ledPower == old(ledPower) && Screen() == old(Screen())
      ensures (level, calls) == (DigitalReadStep(extraGpioCount, pin, native, input).0,
                                 old(calls) + DigitalReadStep(extraGpioCount, pin, native, input).1)
    {
      if pin < X0 {
        calls := calls + [NativeRead(pin)];
        return native;
      }
      if pin >= X0 + extraGpioCount {
        assert calls + [] == calls;
        return 0;
      }
      calls := calls + [Send([InputPort0]), Request];
      if input.None? {
        return 0;
      }
      level := if (input.value >> (pin - X0)) & 1 == 1 then 1 else 0;
    }

    /** `pg_set_cradle_led`. */
    method SetLed(which: int, percent: int)
      requires Valid()
      modifies this
      ensures Valid() && Gpio() == old(Gpio()) && Screen() == old(Screen())
      ensures (ledPower, calls) == (SetLedStep(old(ledPower), statusLedCount, which, percent).0,
                                    old(calls) + SetLedStep(old(ledPower), statusLedCount, which, percent).1)
    {
      if which < 0 || which >= statusLedCount {
        assert calls + [] == calls;
        return;
      }
      var power := Quot(NormalLedPower[which] * percent + 99, 100);
      var clamped := if power < 0 then 0 else if power > MaxLedPower then MaxLedPower else power;
      if clamped != ledPower[which] {
        ledPower := ledPower[which := clamped];
        calls := calls + [Send([LedRegister(which), ByteOf(clamped)])];
      }
    }

    /** `pg_cradle_button`. */
    method Button(which: int, input: Option<byte>) returns (pressed: bool)
      requires Valid()
      modifies this
      ensures Valid() && Gpio() == old(Gpio()) && ledPower == old(ledPower) && Screen() == old(Screen())
      ensures (pressed, calls) == (ButtonStep(buttonCount, which, input).0,
                                   old(calls) + ButtonStep(buttonCount, which, input).1)
    {
      if which < 0 || which >= buttonCount {
        assert calls + [] == calls;
        return false;
      }
      calls := calls + [Send([ModePort1, 0x40 >> which]), Send([InputPort1]), Request];
      if input.None? {
        return false;
      }
      calls := calls + [Send([ModePort1, 0])];
      assert calls == old(calls) + ([Send([ModePort1, 0x40 >> which]), Send([InputPort1]), Request] + [Send([ModePort1, 0])]);
      pressed := input.value & (0x40 >> which) != 0;
    }

    /** `set_line`; when the line changes, `top` is where it starts. */
    method SetLine(which: int, style: int, text: string) returns (top: Option<int>)
      requires Valid() && 0 <= which < LineCount
      modifies this
      ensures Valid() && Gpio() == old(Gpio()) && ledPower == old(ledPower) && calls == old(calls)
      ensures Screen() == SetLineStep(old(Screen()), which, style, text)
      ensures top.Some? <==> Screen() != old(Screen())
      ensures top.Some? ==> top.value == Top(old(lines), which)
    {
      if Clip(text) == lines[which].text && style == lines[which].style {
        return None;
      }
      var y := 0;
      var li := 0;
      while li < which
        invariant 0 <= li <= which
        invariant y == Top(lines, li)
      {
        y := y + Height(lines[li].style);
        li := li + 1;
      }
      lines := lines[which := Line(style, Clip(text))];
      firstPrint := false;
      return Some(y);
    }

    /** The `strtok_r` loop of `pg_cradle_printf`. */
    method SetTokens(line: int, style: int, ts: seq<string>)
      requires Valid() && 0 <= line
      modifies this
      ensures Valid() && Gpio() == old(Gpio()) && ledPower == old(ledPower) && calls == old(calls)
      ensures Screen() == Apply(old(Screen()), style, Assign(line, ts))
    {
      ghost var start := Screen();
      ghost var cs := Assign(line, ts);
      var next := line;
      var i := 0;
      while i < |ts|
        invariant 0 <= i <= |cs| && next == line + i && Valid()
        invariant Gpio() == old(Gpio()) && ledPower == old(ledPower) && calls == old(calls)
        invariant Screen() == Apply(start, style, cs[..i])
        decreases |ts| - i
      {
        if next >= LineCount {
          break;
        }
        var _ := SetLine(next, style, ts[i]);
        assert cs[..i + 1][..i] == cs[..i];
        next := next + 1;
        i := i + 1;
      }
      assert cs[..i] == cs;
    }

    /** `pg_cradle_printf`, with the formatted text as input and the
        whole-buffer call made only for an existing line. */
    method Printf(line: int, style: int, formatted: string)
      requires Valid()
      modifies this
      ensures Valid() && Gpio() == old(Gpio()) && ledPower == old(ledPower) && calls == old(calls)
      ensures Screen() == PgCradle.Printf(old(Screen()), hasScreen, line, style, formatted)
    {
      if !hasScreen || line < 0 {
        return;
      }
      var buf := Buffer(formatted);
      ghost var start := Screen();
      ghost var first: seq<SetCall> := [];
      if line < LineCount {
        var _ := SetLine(line, style, buf);
        first := [SetCall(line, buf)];
        assert Screen() == Apply(start, style, first) by {
          assert first[..0] == [];
        }
      }
      var ts := Tokens(buf);
      SetTokens(line, style, ts);
      ApplyAppend(start, style, first, Assign(line, ts));
      assert PrintCalls(line, buf) == first + Assign(line, ts);
    }
  }
}
