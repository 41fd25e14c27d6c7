/** The pin-test program: one character at a time from the serial port
    selects a pin, sets its mode or level, drives an LED strip on it or
    toggles a cradle status LED. The serial output is reduced to the
    replies the program prints, and the cradle and strip calls are
    recorded as `Effect`s. */
module PinTest {
  import opened Common
  import PgCradle

  const Esp32Pins: seq<int> := [39, 36, 15, 14, 12, 35, 4, 2, 100, 101, 102, 103, 104, 105, 106, 17, 5, 33, 32]
  const Esp32C3Pins: seq<int> := [0, 1, 2, 3, 4, 5, 6, 7, 8, 9, 10]
  const Rp2040Pins: seq<int> := seq(30, i => i)

  /** The number of pixels of a strip. */
  const StripPixels := 768

  datatype PinMode = Input | InputPullup | InputPulldown | Output

  /** How a strip is painted: the rainbow, the stripes, or one colour
      (0xRRGGBB). */
  datatype Paint = Rainbow | Stripes | Solid(rgb: int)

  datatype Effect =
    | SetLed(which: int, percent: int)
    | SetMode(pin: int, mode: PinMode)
    | Write(pin: int, high: bool)
    | StartStrip(pin: int)
    | EndStrip
    | Show(paint: Paint)

  /** The error and help messages. */
  datatype Reply =
    | Newline
    | UnknownChar(ch: int)
    | UnknownLed(ch: int)
    | NoSuchExtraPin(n: int)
    | NoSuchPin(n: int)
    | Help
    | NoPinForStrip(ch: int)
    | ExtraPinStrip(ch: int)
    | UnknownKey(ch: int)
    | NoPinSelected(ch: int)

  /** The program's statics: the pending first character of a two-key
      command (0 when none), the selected pin's index (-1 when none), the
      mode character per pin, the status LEDs, the pin index of the strip
      (-1 when there is none) and whether the strip keeps rotating. */
  datatype State = State(pending: int, pinIndex: int, modes: seq<int>, leds: seq<bool>,
                         stripIndex: int, spam: bool)

  predicate Wf(s: State, pins: seq<int>)
  {
    |s.modes| == |pins| && |s.leds| == 4 && -1 <= s.pinIndex < |pins| && -1 <= s.stripIndex < |pins|
  }

  /** After `setup`: every pin in input mode. */
  function Start(pins: seq<int>): (s: State)
    ensures Wf(s, pins)
  {
    State(0, -1, seq(|pins|, _ => 'i' as int), [false, false, false, false], -1, false)
  }

  /** What handling one character did: the new state, the calls on the
      cradle and the strip, the messages printed, and whether the status
      line is redrawn (`break`) rather than the next character read
      (`continue`). */
  datatype Out = Out(s: State, effects: seq<Effect>, replies: seq<Reply>, redraw: bool)

  predicate IsDigit(c: int)
  {
    '0' as int <= c <= '9' as int
  }

  /** `ch | 0x20`, which lower-cases a letter. */
  function Fold(ch: int): (c: int)
    requires 0 <= ch < 256
    ensures 'A' as int <= ch <= 'Z' as int ==> c == ch + 32
    ensures 'a' as int <= ch <= 'z' as int || IsDigit(ch) ==> c == ch
  {
    if (ch / 32) % 2 == 1 then ch else ch + 32
  }

  /** The status LED a key names after 's', or -1. */
  function LedOf(c: int): (led: int)
    ensures -1 <= led < 4
  {
    if c == 'o' as int || c == '0' as int then 0
    else if c == 'g' as int || c == '1' as int then 1
    else if c == 'b' as int || c == '2' as int then 2
    else if c == 'w' as int || c == '3' as int then 3
    else -1
  }

  /** The strip colour keys (after `| 0x20`) and their colours. */
  function StripColour(c: int): (rgb: int)
  {
    if c == 'r' as int then 0xFF0000 else if c == 'g' as int then 0x00FF00
    else if c == 'b' as int then 0x0000FF else if c == 'w' as int then 0xFFFFFF
    else if c == 'c' as int then 0x00FFFF else if c == 'm' as int then 0xFF00FF
    else if c == 'y' as int then 0xFFFF00
    else if c == 'k' as int || c == 'a' as int || c == 'z' as int then 0x000000
    else -1
  }

  /** The mode keys (after `| 0x20`). */
  function ModeOf(c: int): (m: Option<PinMode>)
  {
    if c == 'i' as int then Some(Input) else if c == 'u' as int then Some(InputPullup)
    else if c == 'd' as int then Some(InputPulldown)
    else if c == 'h' as int || c == 'l' as int then Some(Output)
    else None
  }

  /** The first index of `pin` in `pins`, or -1 (`std::find`). */
  function Find(pins: seq<int>, pin: int): (k: int)
    ensures -1 <= k < |pins|
    ensures k == -1 <==> pin !in pins
    ensures k >= 0 ==> pins[k] == pin && forall j :: 0 <= j < k ==> pins[j] != pin
  {
    if pins == [] then -1
    else if pins[0] == pin then 0
    else var k := Find(pins[1..], pin); if k < 0 then -1 else k + 1
  }

  /** The pin index an entered pin number selects with `count` extra
      pins, and the message when there is none. */
  function Selection(pins: seq<int>, count: int, pin: int): (r: (int, seq<Reply>))
    ensures -1 <= r.0 < |pins|
    ensures r.0 >= 0 <==> pin < PgCradle.X0 + count && pin in pins
    ensures r.0 >= 0 ==> r.0 == Find(pins, pin) && r.1 == []
  {
    if pin >= PgCradle.X0 + count then (-1, [NoSuchExtraPin(pin - PgCradle.X0)])
    else if Find(pins, pin) < 0 then (-1, [NoSuchPin(pin)])
    else (Find(pins, pin), [])
  }

  /** One character from the serial port. */
  function Step(s: State, pins: seq<int>, count: int, ch: int): (o: Out)
    requires Wf(s, pins) && 0 <= ch < 256
    ensures Wf(o.s, pins)
  {
    if ch == '\n' as int && !IsDigit(s.pending) then Out(s, [], [Newline], false)
    else if ch == '\r' as int then Out(s, [], [], false)
    else if ch != '\n' as int && (ch < 32 || ch >= 127) then Out(s.(pending := 0), [], [UnknownChar(ch)], false)
    else if s.pending == 's' as int then LedKey(s.(pending := 0), ch)
    else Entry(s, pins, count, ch)
  }

  /** The key after 's'. */
  function LedKey(s: State, ch: int): (o: Out)
    requires |s.leds| == 4 && 0 <= ch < 256
    ensures o.s.(leds := s.leds) == s && |o.s.leds| == 4
  {
    var led := LedOf(Fold(ch));
    if led < 0 then Out(s, [], [UnknownLed(ch)], false)
    else
      var on := !s.leds[led];
      Out(s.(leds := s.leds[led := on]), [SetLed(led, if on then 100 else 0)], [], true)
  }

  /** Pin-number entry: digits collect in `pending`. */
  function Entry(s: State, pins: seq<int>, count: int, ch: int): (o: Out)
    requires Wf(s, pins) && 0 <= ch < 256
    ensures Wf(o.s, pins)
  {
    if IsDigit(ch) && s.pending == 'x' as int then
      Select(s.(pending := 0), pins, count, PgCradle.X0 + (ch - '0' as int), ch)
    else if IsDigit(ch) && IsDigit(s.pending) then
      Select(s.(pending := 0), pins, count, 10 * (s.pending - '0' as int) + (ch - '0' as int), ch)
    else if IsDigit(ch) then Out(s.(pending := ch), [], [], false)
    else if IsDigit(s.pending) then Select(s.(pending := 0), pins, count, s.pending - '0' as int, ch)
    else Command(s, pins, ch, [])
  }

  /** An entered pin; a digit or newline ends the key, any other key is
      also a command ("3i"). */
  function Select(s: State, pins: seq<int>, count: int, pin: int, ch: int): (o: Out)
    requires Wf(s, pins) && 0 <= ch < 256
    ensures Wf(o.s, pins)
  {
    var sel := Selection(pins, count, pin);
    var s1 := s.(pinIndex := sel.0);
    if IsDigit(ch) || ch == '\n' as int then Out(s1, [], sel.1, true)
    else Command(s1, pins, ch, sel.1)
  }

  /** The one-key commands, after the messages `replies` of a pin entry. */
  function Command(s: State, pins: seq<int>, ch: int, replies: seq<Reply>): (o: Out)
    requires Wf(s, pins) && 0 <= ch < 256
    ensures Wf(o.s, pins)
  {
    var c := Fold(ch);
    if c == 'x' as int then Out(s.(pending := 'x' as int), [], replies, true)
    else if c == 's' as int then Out(s.(pending := 's' as int), [], replies, true)
    else if ch == '?' as int || ch == '/' as int then Out(s.(pending := 0), [], replies + [Help], true)
    else if StripColour(c) >= 0 then StripKey(s.(pending := 0), pins, ch, replies)
    else ModeKey(s.(pending := 0), pins, ch, replies)
  }

  /** How a strip key paints. */
  function PaintOf(ch: int): Paint
    requires 0 <= ch < 256
  {
    if ch == 'a' as int || ch == 'A' as int then Rainbow
    else if ch == 'z' as int || ch == 'Z' as int then Stripes
    else Solid(StripColour(Fold(ch)))
  }

  /** A strip key: the strip moves to the selected pin if it is elsewhere
      (the old pin goes back to input), is painted and shown, and keeps
      rotating for an upper-case key. */
  function StripKey(s: State, pins: seq<int>, ch: int, replies: seq<Reply>): (o: Out)
    requires Wf(s, pins) && 0 <= ch < 256
    ensures Wf(o.s, pins)
  {
    if s.pinIndex < 0 then Out(s, [], replies + [NoPinForStrip(ch)], false)
    else if pins[s.pinIndex] >= PgCradle.X0 then Out(s, [], replies + [ExtraPinStrip(ch)], false)
    else
      var moved := if s.stripIndex == s.pinIndex then (s, [])
        else if s.stripIndex >= 0 then
          (s.(modes := s.modes[s.stripIndex := 'i' as int], stripIndex := s.pinIndex),
           [EndStrip, SetMode(pins[s.stripIndex], Input), StartStrip(pins[s.pinIndex])])
        else (s.(stripIndex := s.pinIndex), [StartStrip(pins[s.pinIndex])]);
      Out(moved.0.(spam := ch < 'a' as int, modes := moved.0.modes[s.pinIndex := ch]),
          moved.1 + [Show(PaintOf(ch))], replies, true)
  }

  /** A mode key: the selected pin leaves the strip, takes the mode and,
      for 'h' and 'l', is driven high or low. */
  function ModeKey(s: State, pins: seq<int>, ch: int, replies: seq<Reply>): (o: Out)
    requires Wf(s, pins) && 0 <= ch < 256
    ensures Wf(o.s, pins)
  {
    var c := Fold(ch);
    var m := ModeOf(c);
    if m.None? then Out(s, [], replies + [UnknownKey(ch)], false)
    else if s.pinIndex < 0 then Out(s, [], replies + [NoPinSelected(ch)], false)
    else
      var freed := if s.stripIndex == s.pinIndex then (s.(stripIndex := -1, spam := false), [EndStrip]) else (s, []);
      var pin := pins[s.pinIndex];
      Out(freed.0.(modes := freed.0.modes[s.pinIndex := c]),
          freed.1 + [SetMode(pin, m.value)] + (if m.value == Output then [Write(pin, c == 'h' as int)] else []),
          replies, true)
  }

  // ---------------------------------------------------------------------
  // Properties of the key handling

  /** A carriage return changes nothing and reads on. */
  lemma CarriageReturnIgnored(s: State, pins: seq<int>, count: int)
    requires Wf(s, pins)
    ensures Step(s, pins, count, '\r' as int) == Out(s, [], [], false)
  {
  }

  /** Other control characters and non-ASCII bytes are reported and
      cancel a pending key. */
  lemma ControlCharacterRejected(s: State, pins: seq<int>, count: int, ch: int)
    requires Wf(s, pins) && 0 <= ch < 256
    requires (ch < 32 || ch >= 127) && ch != '\n' as int && ch != '\r' as int
    ensures Step(s, pins, count, ch) == Out(s.(pending := 0), [], [UnknownChar(ch)], false)
  {
  }

  /** After 's', a printable key toggles the LED it names and sets its
      power to 100 or 0 percent, or is reported; the pending 's' is
      cleared either way. */
  lemma StatusLedKey(s: State, pins: seq<int>, count: int, ch: int)
    requires Wf(s, pins) && 32 <= ch < 127 && s.pending == 's' as int
    ensures var o := Step(s, pins, count, ch);
      var led := LedOf(Fold(ch));
      o.s.pending == 0 && o.s.(leds := s.leds, pending := s.pending) == s
      && (led < 0 ==> o == Out(s.(pending := 0), [], [UnknownLed(ch)], false))
      && (led >= 0 ==> o.s.leds == s.leds[led := !s.leds[led]]
                       && o.effects == [SetLed(led, if s.leds[led] then 0 else 100)] && o.redraw)
  {
  }

  /** The LED keys: o or 0 orange, g or 1 green, b or 2 blue, w or 3
      white, in either case. */
  lemma {:induction false} LedKeys(ch: int)
    requires 32 <= ch < 127
    ensures LedOf(Fold(ch)) == 0 <==> ch in {'o' as int, 'O' as int, '0' as int}
    ensures LedOf(Fold(ch)) == 1 <==> ch in {'g' as int, 'G' as int, '1' as int}
    ensures LedOf(Fold(ch)) == 2 <==> ch in {'b' as int, 'B' as int, '2' as int}
    ensures LedOf(Fold(ch)) == 3 <==> ch in {'w' as int, 'W' as int, '3' as int}
  {
    if (ch / 32) % 2 == 1 {
      assert Fold(ch) == ch;
    } else {
      assert Fold(ch) == ch + 32;
      assert ch < 64 ==> ch + 32 >= 64 && ch + 32 < 96;
    }
  }

  /** No pending key: neither a digit nor one of the two-key starters. */
  predicate Idle(s: State)
  {
    !IsDigit(s.pending) && s.pending != 's' as int && s.pending != 'x' as int
  }

  /** Two digits select pin 10a + b. */
  lemma TwoDigits(s: State, pins: seq<int>, count: int, a: int, b: int)
    requires Wf(s, pins) && Idle(s) && 0 <= a <= 9 && 0 <= b <= 9
    ensures var o1 := Step(s, pins, count, '0' as int + a);
      var o2 := Step(o1.s, pins, count, '0' as int + b);
      o1.s.pending == '0' as int + a && !o1.redraw
      && o2.s.pending == 0 && o2.s.pinIndex == Selection(pins, count, 10 * a + b).0 && o2.redraw
  {
  }

  /** 'x' and a digit select extra pin X0 + digit. */
  lemma ExtraPinDigit(s: State, pins: seq<int>, count: int, d: int)
    requires Wf(s, pins) && s.pending == 'x' as int && 0 <= d <= 9
    ensures var o := Step(s, pins, count, '0' as int + d);
      o.s.pending == 0 && o.s.pinIndex == Selection(pins, count, PgCradle.X0 + d).0 && o.redraw
  {
  }

  /** A single digit ended by a newline or any other printable non-digit
      selects that digit's pin; the other key then goes on as a command. */
  lemma OneDigit(s: State, pins: seq<int>, count: int, d: int, ch: int)
    requires Wf(s, pins) && s.pending == '0' as int + d && 0 <= d <= 9
    requires ch == '\n' as int || (32 <= ch < 127 && !IsDigit(ch))
    ensures var o := Step(s, pins, count, ch);
      var sel := Selection(pins, count, d);
      ch == '\n' as int ==> o == Out(s.(pending := 0, pinIndex := sel.0), [], sel.1, true)
    ensures ch != '\n' as int ==>
      Step(s, pins, count, ch) == Command(s.(pending := 0, pinIndex := Selection(pins, count, d).0), pins, ch, Selection(pins, count, d).1)
  {
  }

  /** The mode keys need a selected pin; they record the lower-case key
      as the pin's mode and set the mode, and h and l also drive the pin
      high or low. */
  lemma ModeKeys(s: State, pins: seq<int>, count: int, ch: int)
    requires Wf(s, pins) && Idle(s) && 0 <= ch < 256
    requires Fold(ch) in {'i' as int, 'u' as int, 'd' as int, 'h' as int, 'l' as int}
    ensures var o := Step(s, pins, count, ch);
      var c := Fold(ch);
      (s.pinIndex < 0 ==> o == Out(s.(pending := 0), [], [NoPinSelected(ch)], false))
      && (s.pinIndex >= 0 ==>
            o.s.modes == s.modes[s.pinIndex := c] && o.s.pinIndex == s.pinIndex && o.redraw
            && SetMode(pins[s.pinIndex], ModeOf(c).value) in o.effects
            && (c == 'h' as int ==> Write(pins[s.pinIndex], true) in o.effects)
            && (c == 'l' as int ==> Write(pins[s.pinIndex], false) in o.effects)
            && (c != 'h' as int && c != 'l' as int ==> forall e :: e in o.effects ==> !e.Write?))
  {
    var c := Fold(ch);
    assert 'A' as int <= ch <= 'Z' as int || 'a' as int <= ch <= 'z' as int by {
      if (ch / 32) % 2 != 1 {
        assert c == ch + 32;
      }
    }
    assert StripColour(c) < 0;
  }

  /** The strip keys need a selected pin on the board itself. The strip
      then moves to that pin if it is elsewhere (the old strip pin goes
      back to input), is painted and shown; the pin records the raw key as
      its mode, and the strip keeps rotating exactly for an upper-case key
      ("lower=once, UPPER=repeat"). The status LEDs never change. */
  lemma StripKeys(s: State, pins: seq<int>, count: int, ch: int)
    requires Wf(s, pins) && Idle(s) && 0 <= ch < 256 && StripColour(Fold(ch)) >= 0
    ensures var o := Step(s, pins, count, ch);
      (s.pinIndex < 0 ==> o == Out(s.(pending := 0), [], [NoPinForStrip(ch)], false))
      && (s.pinIndex >= 0 && pins[s.pinIndex] >= PgCradle.X0 ==>
            o == Out(s.(pending := 0), [], [ExtraPinStrip(ch)], false))
    ensures var o := Step(s, pins, count, ch);
      s.pinIndex >= 0 && pins[s.pinIndex] < PgCradle.X0 ==>
        o.s.pinIndex == s.pinIndex && o.s.stripIndex == s.pinIndex && o.s.leds == s.leds
        && o.s.pending == 0 && o.replies == [] && o.redraw
        && (o.s.spam <==> 'A' as int <= ch <= 'Z' as int)
        && (s.stripIndex == s.pinIndex ==>
              o.s.modes == s.modes[s.pinIndex := ch] && o.effects == [Show(PaintOf(ch))])
        && (s.stripIndex < 0 ==>
              o.s.modes == s.modes[s.pinIndex := ch]
              && o.effects == [StartStrip(pins[s.pinIndex]), Show(PaintOf(ch))])
        && (0 <= s.stripIndex && s.stripIndex != s.pinIndex ==>
              o.s.modes == s.modes[s.stripIndex := 'i' as int][s.pinIndex := ch]
              && o.effects == [EndStrip, SetMode(pins[s.stripIndex], Input), StartStrip(pins[s.pinIndex]), Show(PaintOf(ch))])
  {
    var c := Fold(ch);
    assert 'A' as int <= ch <= 'Z' as int || 'a' as int <= ch <= 'z' as int by {
      if (ch / 32) % 2 != 1 {
        assert c == ch + 32;
      }
    }
  }

  // ---------------------------------------------------------------------
  // Strip colours

  datatype Rgb = Rgb(r: int, g: int, b: int)

  /** The rainbow: pixel `p` sits at `(10p) % 768` around a colour wheel
      of red to green to blue and back. */
  function RainbowAt(p: nat): (c: Rgb)
    ensures 0 <= c.r <= 255 && 0 <= c.g <= 255 && 0 <= c.b <= 255
    ensures c.r + c.g + c.b == 255
  {
    var w := (p * 10) % 768;
    if w < 256 then Rgb(w, 255 - w, 0)
    else if w < 512 then Rgb(0, w - 256, 511 - w)
    else Rgb(767 - w, 0, w - 512)
  }

  /** The stripes: sixteen white pixels, then sixteen black. */
  function StripeAt(p: nat): (c: Rgb)
    ensures c == Rgb(255, 255, 255) <==> p % 32 < 16
    ensures c != Rgb(255, 255, 255) ==> c == Rgb(0, 0, 0)
  {
    if p % 32 < 16 then Rgb(255, 255, 255) else Rgb(0, 0, 0)
  }

  /** The stripes repeat every 32 pixels. */
  lemma {:induction false} StripePeriod(p: nat)
    ensures StripeAt(p + 32) == StripeAt(p)
  {
    assert (p + 32) % 32 == p % 32;
  }

  /** The colour keys and the rainbow come back round after 384 pixels
      (10 * 384 is a multiple of 768). */
  lemma {:induction false} RainbowPeriod(p: nat)
    ensures RainbowAt(p + 384) == RainbowAt(p)
  {
    var w := p * 10;
    assert (p + 384) * 10 == w + 5 * 768;
    assert (w + 5 * 768) % 768 == w % 768;
  }

  /** A 0xRRGGBB colour. */
  function HtmlRgb(rgb: int): (c: Rgb)
    requires 0 <= rgb <= 0xFFFFFF
    ensures 0 <= c.r <= 255 && 0 <= c.g <= 255 && 0 <= c.b <= 255
    ensures c.r * 0x10000 + c.g * 0x100 + c.b == rgb
  {
    Rgb(rgb / 0x10000, (rgb / 0x100) % 0x100, rgb % 0x100)
  }

  function PaintAt(paint: Paint, p: nat): (c: Rgb)
    requires paint.Solid? ==> 0 <= paint.rgb <= 0xFFFFFF
    ensures 0 <= c.r <= 255 && 0 <= c.g <= 255 && 0 <= c.b <= 255
  {
    match paint
    case Rainbow => RainbowAt(p)
    case Stripes => StripeAt(p)
    case Solid(rgb) => HtmlRgb(rgb)
  }

  /** A strip key paints with a proper colour. */
  lemma {:induction false} StripKeyColours(ch: int)
    requires 0 <= ch < 256 && StripColour(Fold(ch)) >= 0
    ensures PaintOf(ch).Solid? ==> 0 <= PaintOf(ch).rgb <= 0xFFFFFF
  {
  }

  /** The strip buffer turned right by one three-byte pixel. */
  function RotatedRight<T>(s: seq<T>): (r: seq<T>)
    requires |s| >= 3
    ensures |r| == |s|
    ensures forall i :: 3 <= i < |s| ==> r[i] == s[i - 3]
    ensures forall j :: 0 <= j < 3 ==> r[j] == s[|s| - 3 + j]
  {
    s[|s| - 3..] + s[..|s| - 3]
  }

  /** The buffer after `n` turns. */
  function Turns<T>(s: seq<T>, n: nat): (r: seq<T>)
    requires |s| >= 3
    ensures |r| == |s|
  {
    if n == 0 then s else RotatedRight(Turns(s, n - 1))
  }

  lemma {:induction false} TurnsShift<T>(s: seq<T>, n: nat)
    requires |s| >= 3 && |s| % 3 == 0 && n <= |s| / 3
    ensures Turns(s, n) == s[|s| - 3 * n..] + s[..|s| - 3 * n]
  {
    if n > 0 {
      TurnsShift(s, n - 1);
      var t := Turns(s, n - 1);
      var m := |s| - 3 * (n - 1);
      assert t == s[m..] + s[..m];
      assert t[|t| - 3..] == s[m - 3..m];
      assert t[..|t| - 3] == s[m..] + s[..m - 3];
    }
  }

  /** As many turns as there are pixels bring the buffer back to where
      it started. */
  lemma TurnsCycle<T>(s: seq<T>)
    requires |s| >= 3 && |s| % 3 == 0
    ensures Turns(s, |s| / 3) == s
  {
    TurnsShift(s, |s| / 3);
    assert s[..0] == [];
  }
}

/** The pin-test program's statics and its character handler, and the
    strip's pixel buffer. The sketch's `loop` assigns its statics step by
    step; each method here is that code, proved to end in the state the
    function of the same name in `PinTest` gives, and the properties are
    stated about those functions. */
module PinTestLoop {
  import opened Common
  import opened PinTest

  class Sketch {
    const pins: seq<int>
    /** `pg_cradle.extra_gpio_count`. */
    const count: int

    var pending: int
    var pinIndex: int
    var modes: seq<int>
    var leds: seq<bool>
    var stripIndex: int
    var spam: bool
    /** The calls made and the messages printed so far. */
    var effects: seq<Effect>
    var replies: seq<Reply>

    function State(): PinTest.State
      reads this
    {
      PinTest.State(pending, pinIndex, modes, leds, stripIndex, spam)
    }

    ghost predicate Valid()
      reads this
    {
      Wf(State(), pins)
    }

    /** `setup`, after the cradle is detected with `gpioCount` extra
        pins. */
    constructor (board: seq<int>, gpioCount: int)
      ensures Valid() && pins == board && count == gpioCount
      ensures State() == Start(board) && effects == [] && replies == []
    {
      pins, count := board, gpioCount;
      pending, pinIndex, stripIndex, spam := 0, -1, -1, false;
      modes := seq(|board|, _ => 'i' as int);
      leds := [false, false, false, false];
      effects, replies := [], [];
    }

    /** One character read from the serial port; `redraw` is true where
        the program breaks out to redraw the status line. */
    method Key(ch: int) returns (redraw: bool)
      requires Valid() && 0 <= ch < 256
      modifies this
      ensures Valid()
      ensures var o := Step(old(State()), pins, count, ch);
        State() == o.s && effects == old(effects) + o.effects && replies == old(replies) + o.replies
        && redraw == o.redraw
    {
      if ch == '\n' as int {
        if !IsDigit(pending) {
          replies := replies + [Newline];
          return false;
        }
      } else if ch == '\r' as int {
        assert effects + [] == effects && replies + [] == replies;
        return false;
      } else if ch < 32 || ch >= 127 {
        replies := replies + [UnknownChar(ch)];
        pending := 0;
        assert effects + [] == effects;
        return false;
      }
      if pending == 's' as int {
        pending := 0;
        redraw := StatusLed(ch);
        return;
      }
      redraw := Entry(ch);
    }

    /** The key after 's'. */
    method StatusLed(ch: int) returns (redraw: bool)
      requires Valid() && 0 <= ch < 256
      modifies this
      ensures Valid()
      ensures var o := LedKey(old(State()), ch);
        State() == o.s && effects == old(effects) + o.effects && replies == old(replies) + o.replies
        && redraw == o.redraw
    {
      var led := LedOf(Fold(ch));
      if led < 0 {
        replies := replies + [UnknownLed(ch)];
        assert effects + [] == effects;
        return false;
      }
      leds := leds[led := !leds[led]];
      effects := effects + [SetLed(led, if leds[led] then 100 else 0)];
      assert replies + [] == replies;
      return true;
    }

    method Entry(ch: int) returns (redraw: bool)
      requires Valid() && 0 <= ch < 256
      modifies this
      ensures Valid()
      ensures var o := PinTest.Entry(old(State()), pins, count, ch);
        State() == o.s && effects == old(effects) + o.effects && replies == old(replies) + o.replies
        && redraw == o.redraw
    {
      var inputPin := -1;
      if IsDigit(ch) {
        if pending == 'x' as int {
          inputPin := PgCradle.X0 + (ch - '0' as int);
          pending := 0;
        } else if IsDigit(pending) {
          inputPin := 10 * (pending - '0' as int) + (ch - '0' as int);
          pending := 0;
        } else {
          pending := ch;
          assert effects + [] == effects && replies + [] == replies;
          return false;
        }
      } else if IsDigit(pending) {
        inputPin := pending - '0' as int;
        pending := 0;
      }
      if inputPin >= 0 {
        redraw := SelectPin(inputPin, ch);
      } else {
        redraw := CommandKey(ch, []);
      }
    }

    method SelectPin(pin: int, ch: int) returns (redraw: bool)
      requires Valid() && 0 <= ch < 256
      modifies this
      ensures Valid()
      ensures var o := Select(old(State()), pins, count, pin, ch);
        State() == o.s && effects == old(effects) + o.effects && replies == old(replies) + o.replies
        && redraw == o.redraw
    {
      var found := Find(pins, pin);
      var printed: seq<Reply> := [];
      if pin >= PgCradle.X0 + count {
        printed := [NoSuchExtraPin(pin - PgCradle.X0)];
        pinIndex := -1;
      } else if found < 0 {
        printed := [NoSuchPin(pin)];
        pinIndex := -1;
      } else {
        pinIndex := found;
      }
      if IsDigit(ch) || ch == '\n' as int {
        replies := replies + printed;
        assert effects + [] == effects;
        return true;
      }
      redraw := CommandKey(ch, printed);
    }

    /** The one-key commands; `printed` are the messages of a pin entry
        before them. */
    method CommandKey(ch: int, printed: seq<Reply>) returns (redraw: bool)
      requires Valid() && 0 <= ch < 256
      modifies this
      ensures Valid()
      ensures var o := Command(old(State()), pins, ch, printed);
        State() == o.s && effects == old(effects) + o.effects && replies == old(replies) + o.replies
        && redraw == o.redraw
    {
      var c := Fold(ch);
      if c == 'x' as int {
        pending := 'x' as int;
        replies := replies + printed;
        assert effects + [] == effects;
        return true;
      }
      if c == 's' as int {
        pending := 's' as int;
        replies := replies + printed;
        assert effects + [] == effects;
        return true;
      }
      pending := 0;
      if ch == '?' as int || ch == '/' as int {
        replies := replies + (printed + [Help]);
        assert effects + [] == effects;
        return true;
      }
      if StripColour(c) >= 0 {
        redraw := DriveStrip(ch, printed);
      } else {
        redraw := SetPinMode(ch, printed);
      }
    }

    method DriveStrip(ch: int, printed: seq<Reply>) returns (redraw: bool)
      requires Valid() && 0 <= ch < 256
      modifies this
      ensures Valid()
      ensures var o := StripKey(old(State()), pins, ch, printed);
        State() == o.s && effects == old(effects) + o.effects && replies == old(replies) + o.replies
        && redraw == o.redraw
    {
      if pinIndex < 0 {
        replies := replies + (printed + [NoPinForStrip(ch)]);
        assert effects + [] == effects;
        return false;
      }
      if pins[pinIndex] >= PgCradle.X0 {
        replies := replies + (printed + [ExtraPinStrip(ch)]);
        assert effects + [] == effects;
        return false;
      }
      var calls: seq<Effect> := [];
      if stripIndex != pinIndex {
        if stripIndex >= 0 {
          calls := [EndStrip, SetMode(pins[stripIndex], Input)];
          modes := modes[stripIndex := 'i' as int];
        }
        stripIndex := pinIndex;
        calls := calls + [StartStrip(pins[pinIndex])];
      }
      effects := effects + (calls + [Show(PaintOf(ch))]);
      spam := ch < 'a' as int;
      modes := modes[pinIndex := ch];
      replies := replies + printed;
      return true;
    }

    method SetPinMode(ch: int, printed: seq<Reply>) returns (redraw: bool)
      requires Valid() && 0 <= ch < 256
      modifies this
      ensures Valid()
      ensures var o := ModeKey(old(State()), pins, ch, printed);
        State() == o.s && effects == old(effects) + o.effects && replies == old(replies) + o.replies
        && redraw == o.redraw
    {
      var c := Fold(ch);
      var mode := ModeOf(c);
      if mode.None? {
        replies := replies + (printed + [UnknownKey(ch)]);
        assert effects + [] == effects;
        return false;
      }
      if pinIndex < 0 {
        replies := replies + (printed + [NoPinSelected(ch)]);
        assert effects + [] == effects;
        return false;
      }
      var calls: seq<Effect> := [];
      if stripIndex == pinIndex {
        calls := [EndStrip];
        stripIndex := -1;
        spam := false;
      }
      modes := modes[pinIndex := c];
      calls := calls + [SetMode(pins[pinIndex], mode.value)];
      if mode.value == Output {
        calls := calls + [Write(pins[pinIndex], c == 'h' as int)];
      }
      effects := effects + calls;
      replies := replies + printed;
      return true;
    }
  }

  /** The strip's pixel buffer, three bytes per pixel in the strip's
      green, red, blue order. */
  class Strip {
    const pixels: array<byte>

    constructor ()
      ensures pixels.Length == 3 * StripPixels && fresh(pixels)
    {
      pixels := new byte[3 * StripPixels];
    }

    /** The pixel loops of the 'a' and 'z' keys, and `ClearTo` for the
        other colours. */
    method Paint(paint: Paint)
      requires pixels.Length == 3 * StripPixels
      requires paint.Solid? ==> 0 <= paint.rgb <= 0xFFFFFF
      modifies pixels
      ensures forall p :: 0 <= p < StripPixels ==>
        pixels[3 * p] == ByteOf(PaintAt(paint, p).g) && pixels[3 * p + 1] == ByteOf(PaintAt(paint, p).r)
        && pixels[3 * p + 2] == ByteOf(PaintAt(paint, p).b)
    {
      var p := 0;
      while p < StripPixels
        invariant 0 <= p <= StripPixels
        invariant forall q :: 0 <= q < p ==>
          pixels[3 * q] == ByteOf(PaintAt(paint, q).g) && pixels[3 * q + 1] == ByteOf(PaintAt(paint, q).r)
          && pixels[3 * q + 2] == ByteOf(PaintAt(paint, q).b)
      {
        var c := PaintAt(paint, p);
        pixels[3 * p] := ByteOf(c.g);
        pixels[3 * p + 1] := ByteOf(c.r);
        pixels[3 * p + 2] := ByteOf(c.b);
        p := p + 1;
      }
    }

    /** The rotation of a repeating strip: the last pixel to a buffer,
        the rest moved up one pixel, the saved pixel first. */
    method Rotate()
      requires pixels.Length >= 3
      modifies pixels
      ensures pixels[..] == RotatedRight(old(pixels[..]))
    {
      var size := pixels.Length;
      var t0, t1, t2 := pixels[size - 3], pixels[size - 2], pixels[size - 1];
      forall k | 3 <= k < size {
        pixels[k] := pixels[k - 3];
      }
      pixels[0], pixels[1], pixels[2] := t0, t1, t2;
    }
  }
}
