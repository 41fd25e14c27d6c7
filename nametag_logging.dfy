/** The nametag tools' log-line formatter: the message keeps its own leading
    and trailing whitespace around a core that gets the logger name, a level
    marker and any exception or stack text. */
module NametagLogging {
  import opened Common

  const Debug := 10
  const Info := 20
  const Warning := 30
  const Error := 40
  const Critical := 50

  /** The parts of a `logging.LogRecord` the formatter reads; `excText` is
      the formatted exception text (`formatException` is a library call and
      its result an input). */
  datatype LogRecord = LogRecord(name: string, levelno: int, message: string,
                                 excText: Option<string>, stackInfo: Option<string>)

  /** Python truthiness of an optional string. */
  predicate Present(s: Option<string>)
  {
    s.Some? && s.value != ""
  }

  /** The level marker with its trailing spaces. */
  function Marker(levelno: int): (r: string)
    ensures |r| >= 2 && !IsPySpace(r[0]) && r[|r| - 1] == ' '
  {
    if levelno < Info then "\U{1F578}  "
    else if levelno >= Critical then "\U{1F4A5} "
    else if levelno >= Error then "\U{1F525} "
    else if levelno >= Warning then "\U{26A0}\U{FE0F} "
    else "\U{2139}\U{FE0F} "
  }

  /** What goes between the marker and the stripped message: the logger's
      name and ": ", except for the root logger. */
  function NamePrefix(name: string): (r: string)
  {
    if name != "root" then name + ": " else ""
  }

  /** Exception or stack text, when present, goes after the stripped line
      and a newline. */
  function WithExtra(line: string, extra: Option<string>): (r: string)
  {
    if Present(extra) then Strip(line) + "\n" + extra.value else line
  }

  /** The line the formatter builds before its final strip. */
  function Line(r: LogRecord): (line: string)
  {
    WithExtra(WithExtra(Marker(r.levelno) + (NamePrefix(r.name) + Strip(r.message)), r.excText), r.stackInfo)
  }

  /** The message's leading whitespace, the part the formatter builds on. */
  function Leading(m: string): (r: string)
  {
    m[..|m| - |StripLeft(m)|]
  }

  /** The message's trailing whitespace. */
  function Trailing(m: string): (r: string)
  {
    StripLeft(m)[|Strip(m)|..]
  }

  /** `_LogFormatter.format`: the message's own leading whitespace, the
      stripped line, the message's own trailing whitespace. */
  function Format(r: LogRecord): (out: string)
  {
    Leading(r.message) + Strip(Line(r)) + Trailing(r.message)
  }

  /** A message is its leading whitespace, its stripped core and its
      trailing whitespace, and the two ends are whitespace only. */
  lemma MessageParts(m: string)
    ensures m == Leading(m) + Strip(m) + Trailing(m)
    ensures forall i :: 0 <= i < |Leading(m)| ==> IsPySpace(Leading(m)[i])
    ensures forall i :: 0 <= i < |Trailing(m)| ==> IsPySpace(Trailing(m)[i])
  {
    var ml := StripLeft(m);
    var core := StripRight(ml);
    StripLeftDrops(m);
    StripRightDrops(ml);
    assert m == m[..|m| - |ml|] + ml;
    assert ml == core + ml[|core|..];
  }

  /** Exactly one marker, chosen by the thresholds in order: below INFO,
      at least CRITICAL, at least ERROR, at least WARNING, otherwise INFO. */
  lemma MarkerChoice(levelno: int)
    ensures levelno < Info ==> Marker(levelno) == "\U{1F578}  "
    ensures levelno >= Critical ==> Marker(levelno) == "\U{1F4A5} "
    ensures Error <= levelno < Critical ==> Marker(levelno) == "\U{1F525} "
    ensures Warning <= levelno < Error ==> Marker(levelno) == "\U{26A0}\U{FE0F} "
    ensures Info <= levelno < Warning ==> Marker(levelno) == "\U{2139}\U{FE0F} "
  {
  }

  /** Stripping a string that starts and ends with non-whitespace changes
      nothing. */
  lemma StripSolid(s: string)
    requires s != [] && !IsPySpace(s[0]) && !IsPySpace(s[|s| - 1])
    ensures Strip(s) == s
  {
    assert StripLeft(s) == s;
  }

  /** A marker in front of a line that ends in non-whitespace survives
      stripping whole. */
  lemma StripMarked(marker: string, rest: string)
    requires marker != [] && !IsPySpace(marker[0]) && rest != [] && !IsPySpace(rest[|rest| - 1])
    ensures Strip(marker + rest) == marker + rest
  {
    var s := marker + rest;
    assert s[0] == marker[0] && s[|s| - 1] == rest[|rest| - 1];
    StripSolid(s);
  }

  /** Concatenation regrouped, kept apart from the string facts. */
  lemma Regroup(a: string, b: string, c: string, d: string, e: string)
    ensures a + (b + (c + d)) + e == a + b + c + d + e
  {
  }

  /** Without exception or stack text, a message with a non-blank core is
      the marker, then "name: " for a non-root logger, then the core,
      between the message's own outer whitespace. */
  lemma PlainRecord(r: LogRecord)
    requires !Present(r.excText) && !Present(r.stackInfo) && Strip(r.message) != []
    ensures Format(r) == Leading(r.message) + Marker(r.levelno) + NamePrefix(r.name)
                         + Strip(r.message) + Trailing(r.message)
  {
    var core := Strip(r.message);
    var named := NamePrefix(r.name) + core;
    assert named[|named| - 1] == core[|core| - 1];
    StripMarked(Marker(r.levelno), named);
    Regroup(Leading(r.message), Marker(r.levelno), NamePrefix(r.name), core, Trailing(r.message));
  }

  /** A blank message is all leading whitespace. */
  lemma BlankParts(m: string)
    requires Strip(m) == []
    ensures Leading(m) == m && Trailing(m) == []
  {
    if StripLeft(m) != [] {
      StripRightKeepsSolid(StripLeft(m));
    }
  }

  /** The INFO marker loses its trailing space to a strip. */
  lemma InfoMarkerStripped()
    ensures Strip(Marker(Info)) == "\U{2139}\U{FE0F}"
  {
    var marked := "\U{2139}\U{FE0F} ";
    assert StripLeft(marked) == marked;
    assert marked[..|marked| - 1] == "\U{2139}\U{FE0F}";
  }

  /** A blank message from the root logger at INFO becomes the bare marker
      after the message's whitespace: the final strip also removes the
      marker's own trailing space. */
  lemma BlankRecord(m: string)
    requires Strip(m) == []
    ensures Format(LogRecord("root", Info, m, None, None)) == m + "\U{2139}\U{FE0F}"
  {
    var r := LogRecord("root", Info, m, None, None);
    var bare := "\U{2139}\U{FE0F}";
    assert Strip(Line(r)) == bare by {
      assert Line(r) == Marker(Info);
      InfoMarkerStripped();
    }
    assert Leading(m) == m && Trailing(m) == [] by {
      BlankParts(m);
    }
    calc {
      Format(r);
      Leading(m) + Strip(Line(r)) + Trailing(m);
      m + bare + [];
      { assert m + bare + [] == m + bare; }
      m + bare;
    }
  }

  /** Stripping a string that starts with non-whitespace keeps that first
      character. */
  lemma StripKeepsHead(s: string)
    requires s != [] && !IsPySpace(s[0])
    ensures Strip(s) != [] && Strip(s)[0] == s[0]
  {
    assert StripLeft(s) == s;
    StripRightKeepsSolid(s);
    StripRightDrops(s);
  }

  /** Two texts appended to a line that starts with non-whitespace, each
      ending in non-whitespace, come out whole after the final strip. */
  lemma TwoExtras(line: string, x: Option<string>, y: Option<string>)
    requires line != [] && !IsPySpace(line[0])
    requires Present(x) && !IsPySpace(x.value[|x.value| - 1])
    requires Present(y) && !IsPySpace(y.value[|y.value| - 1])
    ensures Strip(WithExtra(WithExtra(line, x), y)) == Strip(line) + "\n" + x.value + "\n" + y.value
  {
    var head := Strip(line);
    var exc := "\n" + x.value;
    var stack := "\n" + y.value;
    assert head != [] && !IsPySpace(head[0]) by {
      StripKeepsHead(line);
    }
    assert Strip(head + exc) == head + exc by {
      assert exc[|exc| - 1] == x.value[|x.value| - 1];
      StripMarked(head, exc);
    }
    assert Strip((head + exc) + stack) == (head + exc) + stack by {
      assert stack[|stack| - 1] == y.value[|y.value| - 1];
      assert (head + exc)[0] == head[0];
      StripMarked(head + exc, stack);
    }
  }

  /** Concatenation regrouped for two appended texts. */
  lemma RegroupExtra(a: string, h: string, x: string, y: string, e: string)
    ensures a + (h + "\n" + x + "\n" + y) + e == a + h + "\n" + x + "\n" + y + e
  {
  }

  /** Exception and stack text, when present, follow the stripped line
      after a newline each, exception first. */
  lemma ExtraText(r: LogRecord)
    requires Present(r.excText) && Present(r.stackInfo)
    requires !IsPySpace(r.stackInfo.value[|r.stackInfo.value| - 1])
    requires !IsPySpace(r.excText.value[|r.excText.value| - 1])
    ensures Format(r) == Leading(r.message) + Strip(Marker(r.levelno) + (NamePrefix(r.name) + Strip(r.message)))
                         + "\n" + r.excText.value + "\n" + r.stackInfo.value + Trailing(r.message)
  {
    var marked := Marker(r.levelno) + (NamePrefix(r.name) + Strip(r.message));
    assert marked[0] == Marker(r.levelno)[0];
    TwoExtras(marked, r.excText, r.stackInfo);
    RegroupExtra(Leading(r.message), Strip(marked), r.excText.value, r.stackInfo.value, Trailing(r.message));
  }

  /** One text appended to a line that starts with non-whitespace, ending
      in non-whitespace itself, comes out whole after the final strip. */
  lemma OneExtra(line: string, x: Option<string>)
    requires line != [] && !IsPySpace(line[0])
    requires Present(x) && !IsPySpace(x.value[|x.value| - 1])
    ensures Strip(WithExtra(line, x)) == Strip(line) + "\n" + x.value
  {
    var head := Strip(line);
    var exc := "\n" + x.value;
    assert head != [] && !IsPySpace(head[0]) by {
      StripKeepsHead(line);
    }
    assert exc[|exc| - 1] == x.value[|x.value| - 1];
    StripMarked(head, exc);
  }

  /** Concatenation regrouped for one appended text. */
  lemma RegroupOne(a: string, h: string, x: string, e: string)
    ensures a + (h + "\n" + x) + e == a + h + "\n" + x + e
  {
  }

  /** Exception text without stack text follows the stripped line after a
      newline. */
  lemma ExceptionOnly(r: LogRecord)
    requires Present(r.excText) && !Present(r.stackInfo)
    requires !IsPySpace(r.excText.value[|r.excText.value| - 1])
    ensures Format(r) == Leading(r.message) + Strip(Marker(r.levelno) + (NamePrefix(r.name) + Strip(r.message)))
                         + "\n" + r.excText.value + Trailing(r.message)
  {
    var marked := Marker(r.levelno) + (NamePrefix(r.name) + Strip(r.message));
    assert marked[0] == Marker(r.levelno)[0];
    assert Line(r) == WithExtra(marked, r.excText);
    OneExtra(marked, r.excText);
    RegroupOne(Leading(r.message), Strip(marked), r.excText.value, Trailing(r.message));
  }

  /** Stack text without exception text follows the stripped line after a
      newline. */
  lemma StackOnly(r: LogRecord)
    requires !Present(r.excText) && Present(r.stackInfo)
    requires !IsPySpace(r.stackInfo.value[|r.stackInfo.value| - 1])
    ensures Format(r) == Leading(r.message) + Strip(Marker(r.levelno) + (NamePrefix(r.name) + Strip(r.message)))
                         + "\n" + r.stackInfo.value + Trailing(r.message)
  {
    var marked := Marker(r.levelno) + (NamePrefix(r.name) + Strip(r.message));
    assert marked[0] == Marker(r.levelno)[0];
    assert Line(r) == WithExtra(marked, r.stackInfo);
    OneExtra(marked, r.stackInfo);
    RegroupOne(Leading(r.message), Strip(marked), r.stackInfo.value, Trailing(r.message));
  }

  /** Right-stripping a string that starts with non-whitespace keeps that
      first character. */
  lemma {:induction false} StripRightKeepsSolid(s: string)
    requires s != [] && !IsPySpace(s[0])
    ensures StripRight(s) != []
  {
    if IsPySpace(s[|s| - 1]) {
      StripRightKeepsSolid(s[..|s| - 1]);
    }
  }
}
