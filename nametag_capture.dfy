/** The capture-side validator for nametag traffic: the attribute writes of a
    Bluetooth capture are decoded from colon-separated hex, grouped by
    target address, reassembled into messages by their 20-byte packet
    boundaries and each message is validated (start bytes, end byte, XOR
    check byte). The capture decoder itself is out of scope: its packets
    are the input. */
module NametagCapture {
  import opened Common

  // ---------------------------------------------------------------------
  // Colon-separated hex

  /** `s.split(":")`: the fields between colons, at least one. */
  function Fields(s: string): (r: seq<string>)
    ensures |r| >= 1
    ensures forall i :: 0 <= i < |r| ==> ':' !in r[i]
  {
    if s == [] then [""] else AddChar(Fields(s[..|s| - 1]), s[|s| - 1])
  }

  /** One more character after the fields: a colon opens a new field, any
      other character extends the last one. */
  function AddChar(fs: seq<string>, c: char): (r: seq<string>)
    requires |fs| >= 1
    requires forall i :: 0 <= i < |fs| ==> ':' !in fs[i]
    ensures |r| >= 1
    ensures forall i :: 0 <= i < |r| ==> ':' !in r[i]
  {
    if c == ':' then fs + [""] else fs[..|fs| - 1] + [fs[|fs| - 1] + [c]]
  }

  lemma AddCharAppend(a: seq<string>, b: seq<string>, c: char)
    requires |a| >= 1 && |b| >= 1
    requires forall i :: 0 <= i < |a| ==> ':' !in a[i]
    requires forall i :: 0 <= i < |b| ==> ':' !in b[i]
    ensures AddChar(a + b, c) == a + AddChar(b, c)
  {
    if c != ':' {
      assert (a + b)[..|a + b| - 1] == a + b[..|b| - 1];
    }
  }

  /** The fields joined again with colons. */
  function Join(fs: seq<string>): (s: string)
    requires |fs| >= 1
  {
    if |fs| == 1 then fs[0] else Join(fs[..|fs| - 1]) + [':'] + fs[|fs| - 1]
  }

  lemma JoinAddChar(fs: seq<string>, c: char)
    requires |fs| >= 1
    requires forall i :: 0 <= i < |fs| ==> ':' !in fs[i]
    ensures Join(AddChar(fs, c)) == Join(fs) + [c]
  {
    var r := AddChar(fs, c);
    if c == ':' {
      assert r[..|r| - 1] == fs;
    } else if |fs| == 1 {
      assert r == [fs[0] + [c]];
    } else {
      assert r[..|r| - 1] == fs[..|fs| - 1];
    }
  }

  /** Splitting on colons loses nothing. */
  lemma {:induction false} FieldsJoin(s: string)
    ensures Join(Fields(s)) == s
  {
    if s != [] {
      FieldsJoin(s[..|s| - 1]);
      JoinAddChar(Fields(s[..|s| - 1]), s[|s| - 1]);
      assert s == s[..|s| - 1] + [s[|s| - 1]];
    }
  }

  /** Splitting at a colon splits the fields there too. */
  lemma {:induction false} FieldsAppend(a: string, b: string)
    ensures Fields(a + [':'] + b) == Fields(a) + Fields(b)
    decreases |b|
  {
    var s := a + [':'] + b;
    if b == [] {
      assert s[..|s| - 1] == a;
    } else {
      var b' := b[..|b| - 1];
      assert s[..|s| - 1] == a + [':'] + b';
      FieldsAppend(a, b');
      AddCharAppend(Fields(a), Fields(b'), b[|b| - 1]);
    }
  }

  /** Text without a colon is a single field. */
  lemma {:induction false} FieldsNoColon(s: string)
    requires ':' !in s
    ensures Fields(s) == [s]
  {
    if s != [] {
      assert s[..|s| - 1] + [s[|s| - 1]] == s;
      FieldsNoColon(s[..|s| - 1]);
    }
  }

  /** `int(h, 16)` for a field of hexadecimal digits. */
  function HexValue(h: string): (r: Option<nat>)
    ensures r.Some? ==> r.value < Pow16(|h|)
  {
    if h == [] then None
    else if |h| == 1 then HexDigit(h[0])
    else
      var hi := HexValue(h[..|h| - 1]);
      var lo := HexDigit(h[|h| - 1]);
      if hi.Some? && lo.Some? then Some(hi.value * 16 + lo.value) else None
  }

  function Pow16(n: nat): (r: nat)
    ensures r > 0
  {
    if n == 0 then 1 else 16 * Pow16(n - 1)
  }

  /** One field as a byte: `bytes()` rejects values of 256 and up. */
  function FieldByte(h: string): (r: Option<byte>)
    ensures r.Some? ==> HexValue(h).Some? && r.value as int == HexValue(h).value
  {
    match HexValue(h)
    case Some(v) =>
      if v < 256 then ByteOfValue(v); Some(ByteOf(v)) else None
    case None => None
  }

  /** `bytes(int(h, 16) for h in fields if h)`; `None` where Python raises. */
  function ParseFields(fs: seq<string>): (r: Option<Bytes>)
  {
    if fs == [] then Some([])
    else match ParseFields(fs[..|fs| - 1])
      case None => None
      case Some(init) =>
        var h := fs[|fs| - 1];
        if h == [] then Some(init)
        else match FieldByte(h)
          case Some(b) => Some(init + [b])
          case None => None
  }

  function ParseHex(s: string): Option<Bytes>
  {
    ParseFields(Fields(s))
  }

  function Both(a: Option<Bytes>, b: Option<Bytes>): Option<Bytes>
  {
    if a.Some? && b.Some? then Some(a.value + b.value) else None
  }

  lemma {:induction false} ParseFieldsAppend(a: seq<string>, b: seq<string>)
    ensures ParseFields(a + b) == Both(ParseFields(a), ParseFields(b))
    decreases |b|
  {
    if b == [] {
      assert a + b == a;
      if ParseFields(a).Some? {
        assert ParseFields(a).value + [] == ParseFields(a).value;
      }
    } else {
      var b' := b[..|b| - 1];
      assert (a + b)[..|a + b| - 1] == a + b';
      ParseFieldsAppend(a, b');
      var h := b[|b| - 1];
      assert (a + b)[|a + b| - 1] == h;
      var pa, pb' := ParseFields(a), ParseFields(b');
      if pa.Some? && pb'.Some? && h != [] && FieldByte(h).Some? {
        assert pa.value + (pb'.value + [FieldByte(h).value]) == (pa.value + pb'.value) + [FieldByte(h).value];
      }
    }
  }

  /** Text on both sides of a colon parses independently, so empty fields
      (doubled, leading or trailing colons) contribute nothing. */
  lemma ParseHexAppend(a: string, b: string)
    ensures ParseHex(a + [':'] + b) == Both(ParseHex(a), ParseHex(b))
  {
    FieldsAppend(a, b);
    ParseFieldsAppend(Fields(a), Fields(b));
  }

  lemma EmptyFieldsSkipped()
    ensures ParseHex("") == Some([])
    ensures ParseHex(":") == Some([])
  {
    ParseHexAppend("", "");
    assert "" + [':'] + "" == ":";
  }

  /** `bytes.hex(":")`: two lower-case digits per byte, colon-separated. */
  function FormatHex(b: Bytes): (s: string)
  {
    if b == [] then ""
    else if |b| == 1 then Hex2(b[0])
    else FormatHex(b[..|b| - 1]) + [':'] + Hex2(b[|b| - 1])
  }

  function Hex2(x: byte): (s: string)
    ensures |s| == 2
  {
    [HexChar(x as int / 16), HexChar(x as int % 16)]
  }

  lemma HexValueTwo(c1: char, c2: char)
    ensures HexValue([c1, c2]) ==
      if HexDigit(c1).Some? && HexDigit(c2).Some? then Some(HexDigit(c1).value * 16 + HexDigit(c2).value) else None
  {
    assert [c1, c2][..1] == [c1];
  }

  /** Text without colons that reads as one byte parses to that byte. */
  lemma SingleField(s: string, b: byte)
    requires ':' !in s && s != [] && FieldByte(s) == Some(b)
    ensures ParseHex(s) == Some([b])
  {
    FieldsNoColon(s);
    var fs := [s];
    assert fs[..|fs| - 1] == [];
    assert ParseFields(fs[..|fs| - 1]) == Some([]);
    assert fs[|fs| - 1] == s;
    assert [] + [b] == [b];
  }

  lemma Hex2Parses(x: byte)
    ensures ParseHex(Hex2(x)) == Some([x])
  {
    var v := x as int;
    var s := Hex2(x);
    HexValueTwo(s[0], s[1]);
    assert s == [s[0], s[1]];
    assert HexValue(s) == Some(v / 16 * 16 + v % 16) == Some(v);
    ByteOfInverse(x);
    assert FieldByte(s) == Some(x);
    assert HexDigit(':').None?;
    SingleField(s, x);
  }

  /** The parser reads back what `bytes.hex(":")` writes. */
  lemma {:induction false} FormatParses(b: Bytes)
    ensures ParseHex(FormatHex(b)) == Some(b)
  {
    if b == [] {
      EmptyFieldsSkipped();
    } else if |b| == 1 {
      Hex2Parses(b[0]);
      assert [b[0]] == b;
    } else {
      FormatParses(b[..|b| - 1]);
      Hex2Parses(b[|b| - 1]);
      ParseHexAppend(FormatHex(b[..|b| - 1]), Hex2(b[|b| - 1]));
      assert b[..|b| - 1] + [b[|b| - 1]] == b;
    }
  }

  // ---------------------------------------------------------------------
  // Grouping by target

  /** One attribute write as the capture decoder reports it. */
  datatype CapturedWrite = CapturedWrite(malformed: bool, target: string, when: int, hex: string)

  /** A write's time stamp and payload. */
  datatype Packet = Packet(when: int, data: Bytes)

  /** The writes of every target in capture order, and the targets in the
      order they first appear (the iteration order of a Python dict). */
  datatype Groups = Groups(targets: seq<string>, packets: map<string, seq<Packet>>)

  /** The loop filling `target_when_data`; `Err(i)` when the hex of write
      `i` does not parse, where the script would stop with an exception. */
  function Grouped(ws: seq<CapturedWrite>): (r: Result<Groups, nat>)
    ensures r.Err? ==> r.error < |ws|
  {
    if ws == [] then Ok(Groups([], map[]))
    else match Grouped(ws[..|ws| - 1])
      case Err(i) => Err(i)
      case Ok(g) =>
        var w := ws[|ws| - 1];
        if w.malformed then Ok(g)
        else match ParseHex(w.hex)
          case None => Err(|ws| - 1)
          case Some(data) => Ok(Append(g, w.target, Packet(w.when, data)))
  }

  /** `target_when_data.setdefault(target, []).append((when, data))`. */
  function Append(g: Groups, target: string, p: Packet): Groups
  {
    if target in g.packets then Groups(g.targets, g.packets[target := g.packets[target] + [p]])
    else Groups(g.targets + [target], g.packets[target := [p]])
  }

  /** The well-formed writes to one target, decoded, in capture order. */
  function WritesTo(ws: seq<CapturedWrite>, target: string): seq<Packet>
    requires forall i :: 0 <= i < |ws| ==> ws[i].malformed || ParseHex(ws[i].hex).Some?
  {
    if ws == [] then []
    else
      var w := ws[|ws| - 1];
      WritesTo(ws[..|ws| - 1], target)
        + (if !w.malformed && w.target == target then [Packet(w.when, ParseHex(w.hex).value)] else [])
  }

  /** Only the write that fails to parse stops the grouping: it is well
      formed, its hex does not parse, and every earlier write parses or is
      skipped as malformed. */
  lemma {:induction false} GroupedErr(ws: seq<CapturedWrite>)
    ensures Grouped(ws).Err? ==>
      var i := Grouped(ws).error;
      !ws[i].malformed && ParseHex(ws[i].hex).None?
      && forall j :: 0 <= j < i ==> ws[j].malformed || ParseHex(ws[j].hex).Some?
    ensures Grouped(ws).Ok? ==> forall i :: 0 <= i < |ws| ==> ws[i].malformed || ParseHex(ws[i].hex).Some?
  {
    if ws != [] {
      var init := ws[..|ws| - 1];
      GroupedErr(init);
      assert forall i :: 0 <= i < |init| ==> init[i] == ws[i];
    }
  }

  /** Each target is listed once, in order of its first write, and the
      listed targets are exactly those with a list of writes. */
  lemma {:induction false} GroupedTargets(ws: seq<CapturedWrite>)
    requires Grouped(ws).Ok?
    ensures var g := Grouped(ws).value;
      && (forall t :: t in g.packets <==> t in g.targets)
      && (forall i, j :: 0 <= i < j < |g.targets| ==> g.targets[i] != g.targets[j])
  {
    if ws != [] {
      GroupedTargets(ws[..|ws| - 1]);
    }
  }

  /** The targets listed are exactly those some well-formed write went to. */
  lemma {:induction false} GroupedTargetsWritten(ws: seq<CapturedWrite>)
    requires Grouped(ws).Ok?
    ensures forall t :: t in Grouped(ws).value.targets <==>
              exists i :: 0 <= i < |ws| && !ws[i].malformed && ws[i].target == t
  {
    if ws != [] {
      var init := ws[..|ws| - 1];
      GroupedTargetsWritten(init);
      GroupedTargets(init);
      var w := ws[|ws| - 1];
      var g := Grouped(ws).value;
      forall t ensures t in g.targets <==> exists i :: 0 <= i < |ws| && !ws[i].malformed && ws[i].target == t {
        if t in g.targets && !(!w.malformed && w.target == t) {
          var i :| 0 <= i < |init| && !init[i].malformed && init[i].target == t;
          assert ws[i] == init[i];
        }
        if exists i :: 0 <= i < |ws| && !ws[i].malformed && ws[i].target == t {
          var i :| 0 <= i < |ws| && !ws[i].malformed && ws[i].target == t;
          if i < |init| {
            assert init[i] == ws[i];
          }
        }
      }
    }
  }

  /** Every target's list holds exactly its well-formed writes, decoded,
      in capture order. */
  lemma {:induction false} GroupedPackets(ws: seq<CapturedWrite>)
    requires Grouped(ws).Ok?
    requires forall i :: 0 <= i < |ws| ==> ws[i].malformed || ParseHex(ws[i].hex).Some?
    ensures forall t :: t in Grouped(ws).value.packets ==> Grouped(ws).value.packets[t] == WritesTo(ws, t)
  {
    if ws != [] {
      var init := ws[..|ws| - 1];
      assert forall i :: 0 <= i < |init| ==> init[i] == ws[i];
      GroupedPackets(init);
      WritesToAbsent(init);
    }
  }

  /** A target with no list yet has had no writes. */
  lemma {:induction false} WritesToAbsent(ws: seq<CapturedWrite>)
    requires Grouped(ws).Ok?
    requires forall i :: 0 <= i < |ws| ==> ws[i].malformed || ParseHex(ws[i].hex).Some?
    ensures forall t :: t !in Grouped(ws).value.packets ==> WritesTo(ws, t) == []
  {
    if ws != [] {
      var init := ws[..|ws| - 1];
      assert forall i :: 0 <= i < |init| ==> init[i] == ws[i];
      WritesToAbsent(init);
    }
  }

  // ---------------------------------------------------------------------
  // One message's validation

  /** Python `m[i:j]` for `j` possibly negative, counted from the end. */
  function PySlice(m: Bytes, i: int, j: int): (r: Bytes)
  {
    var n := |m|;
    var lo := if i < 0 then (if n + i < 0 then 0 else n + i) else (if i > n then n else i);
    var hi := if j < 0 then (if n + j < 0 then 0 else n + j) else (if j > n then n else j);
    if lo < hi then m[lo..hi] else []
  }

  datatype Verdict =
    | BadStart(head: Bytes)
    | BadEnd(tail: Bytes)
    | BadCheck(length: nat, xor: byte, check: byte)
    | Found(length: nat, xor: byte)

  /** A message must start 01 00 ?? 02, end in 03, and its byte before the
      end must be the XOR of the bytes from index 4 up to it. */
  function Classify(m: Bytes): (v: Verdict)
  {
    if PySlice(m, 0, 2) != [0x01, 0x00] || PySlice(m, 3, 4) != [0x02] then BadStart(PySlice(m, 0, 4))
    else if PySlice(m, -1, |m| + 1) != [0x03] then BadEnd(PySlice(m, -1, |m| + 1))
    else
      var x := XorFold(PySlice(m, 4, -2));
      var check := m[|m| - 2];
      if x != check then BadCheck(|m|, x, check) else Found(|m|, x)
  }

  /** The validation in terms of positions: accepted exactly when the
      message has at least six bytes (five would put the type byte where
      the check byte goes), starts 01 00 ?? 02, ends in 03 and
      its next-to-last byte is the XOR of the bytes from index 4 to it. */
  lemma ClassifyFound(m: Bytes)
    ensures Classify(m).Found? <==>
      |m| >= 6 && m[0] == 0x01 && m[1] == 0x00 && m[3] == 0x02 && m[|m| - 1] == 0x03
      && XorFold(m[4..|m| - 2]) == m[|m| - 2]
    ensures Classify(m).BadStart? <==> !(|m| >= 4 && m[0] == 0x01 && m[1] == 0x00 && m[3] == 0x02)
  {
    if |m| >= 4 && m[0] == 0x01 && m[1] == 0x00 && m[3] == 0x02 {
      assert PySlice(m, 0, 2) == [m[0], m[1]];
      assert PySlice(m, 3, 4) == [m[3]];
      assert PySlice(m, -1, |m| + 1) == [m[|m| - 1]];
      if |m| >= 6 {
        assert PySlice(m, 4, -2) == m[4..|m| - 2];
      } else if |m| == 5 {
        assert PySlice(m, 4, -2) == [];
        assert m[|m| - 2] == 0x02;
      }
    } else if |m| >= 4 {
      assert PySlice(m, 0, 2) == [m[0], m[1]];
      assert PySlice(m, 3, 4) == [m[3]];
    } else if |m| >= 2 {
      assert PySlice(m, 0, 2) == [m[0], m[1]];
      assert |PySlice(m, 3, 4)| == 0;
    } else {
      assert |PySlice(m, 0, 2)| < 2;
    }
  }

  // ---------------------------------------------------------------------
  // Reassembly

  datatype Report =
    | Message(start: int, when: int, message: Bytes, verdict: Verdict)
    | Partial(start: int, length: nat)

  /** The loop state: the first packet time and the bytes of the message
      being collected, and the reports so far. */
  datatype Assembly = Assembly(start: int, buf: Bytes, reports: seq<Report>)

  /** One packet: a 20-byte packet continues the message, any other length
      closes it. */
  function Feed(a: Assembly, p: Packet): Assembly
  {
    var start := if a.buf != [] then a.start else p.when;
    var buf := if a.buf != [] then a.buf + p.data else p.data;
    if |p.data| == 20 then Assembly(start, buf, a.reports)
    else Assembly(start, [], a.reports + [Message(start, p.when, buf, Classify(buf))])
  }

  function FeedAll(ps: seq<Packet>): Assembly
  {
    if ps == [] then Assembly(0, [], []) else Feed(FeedAll(ps[..|ps| - 1]), ps[|ps| - 1])
  }

  /** What the script reports for one target. */
  function TargetReports(ps: seq<Packet>): seq<Report>
  {
    var a := FeedAll(ps);
    a.reports + (if a.buf != [] then [Partial(a.start, |a.buf|)] else [])
  }

  /** The inner loop of the script for one target. */
  method ReassembleTarget(ps: seq<Packet>) returns (reports: seq<Report>)
    ensures reports == TargetReports(ps)
  {
    var start := 0;
    var buf: Bytes := [];
    reports := [];
    for i := 0 to |ps|
      invariant FeedAll(ps[..i]) == Assembly(start, buf, reports)
    {
      assert ps[..i + 1][..i] == ps[..i];
      var p := ps[i];
      if buf != [] {
        buf := buf + p.data;
      } else {
        start, buf := p.when, p.data;
      }
      if |p.data| == 20 {
        continue;
      }
      var message := buf;
      buf := [];
      reports := reports + [Message(start, p.when, message, Classify(message))];
    }
    assert ps[..|ps|] == ps;
    if buf != [] {
      reports := reports + [Partial(start, |buf|)];
    }
  }

  /** The whole report: the targets in first-write order, each with its
      reports. */
  method Extract(ws: seq<CapturedWrite>) returns (r: Result<seq<(string, seq<Report>)>, nat>)
    ensures Grouped(ws).Err? ==> r == Err(Grouped(ws).error)
    ensures Grouped(ws).Ok? ==> r.Ok? && |r.value| == |Grouped(ws).value.targets|
    ensures Grouped(ws).Ok? ==> forall k :: 0 <= k < |r.value| ==>
              var t := Grouped(ws).value.targets[k];
              t in Grouped(ws).value.packets && r.value[k] == (t, TargetReports(Grouped(ws).value.packets[t]))
  {
    var g := Groups([], map[]);
    for i := 0 to |ws|
      invariant Grouped(ws[..i]) == Ok(g)
    {
      assert ws[..i + 1][..i] == ws[..i];
      var w := ws[i];
      if w.malformed {
        continue;
      }
      var data := ParseHex(w.hex);
      if data.None? {
        assert Grouped(ws[..i + 1]) == Err(i);
        GroupedPrefixErr(ws, i + 1);
        return Err(i);
      }
      g := Append(g, w.target, Packet(w.when, data.value));
    }
    assert ws[..|ws|] == ws;
    GroupedTargets(ws);
    var out: seq<(string, seq<Report>)> := [];
    for k := 0 to |g.targets|
      invariant |out| == k
      invariant forall j :: 0 <= j < k ==> out[j] == (g.targets[j], TargetReports(g.packets[g.targets[j]]))
    {
      var t := g.targets[k];
      var reports := ReassembleTarget(g.packets[t]);
      out := out + [(t, reports)];
    }
    return Ok(out);
  }

  /** A failure in a prefix is the failure of the whole. */
  lemma {:induction false} GroupedPrefixErr(ws: seq<CapturedWrite>, n: nat)
    requires n <= |ws| && Grouped(ws[..n]).Err?
    ensures Grouped(ws) == Grouped(ws[..n])
    decreases |ws| - n
  {
    if n < |ws| {
      assert ws[..n + 1][..n] == ws[..n];
      GroupedPrefixErr(ws, n + 1);
    } else {
      assert ws[..n] == ws;
    }
  }

  // ---------------------------------------------------------------------
  // The reference: messages as runs of packets

  /** The packets cut after every packet that is not 20 bytes long: the
      closed runs and the open run at the end. */
  datatype Runs = Runs(closed: seq<seq<Packet>>, open: seq<Packet>)

  function Cut(ps: seq<Packet>): Runs
  {
    if ps == [] then Runs([], [])
    else
      var r := Cut(ps[..|ps| - 1]);
      var p := ps[|ps| - 1];
      if |p.data| == 20 then Runs(r.closed, r.open + [p]) else Runs(r.closed + [r.open + [p]], [])
  }

  function DataOf(ps: seq<Packet>): Bytes
  {
    if ps == [] then [] else DataOf(ps[..|ps| - 1]) + ps[|ps| - 1].data
  }

  lemma {:induction false} DataOfAppend(a: seq<Packet>, b: seq<Packet>)
    ensures DataOf(a + b) == DataOf(a) + DataOf(b)
    decreases |b|
  {
    if b == [] {
      assert a + b == a;
    } else {
      assert (a + b)[..|a + b| - 1] == a + b[..|b| - 1];
      DataOfAppend(a, b[..|b| - 1]);
    }
  }

  ghost predicate Continues(run: seq<Packet>)
  {
    forall i :: 0 <= i < |run| ==> |run[i].data| == 20
  }

  /** A closed run: 20-byte packets ended by one that is not. */
  ghost predicate ClosedRun(run: seq<Packet>)
  {
    |run| > 0 && Continues(run[..|run| - 1]) && |run[|run| - 1].data| != 20
  }

  /** Every closed run is 20-byte packets ended by one that is not. */
  lemma {:induction false} CutClosed(ps: seq<Packet>)
    ensures forall k :: 0 <= k < |Cut(ps).closed| ==> ClosedRun(Cut(ps).closed[k])
  {
    if ps != [] {
      var init := ps[..|ps| - 1];
      CutClosed(init);
      CutOpen(init);
      var run := Cut(init).open + [ps[|ps| - 1]];
      assert run[..|run| - 1] == Cut(init).open;
    }
  }

  /** The open run has only 20-byte packets. */
  lemma {:induction false} CutOpen(ps: seq<Packet>)
    ensures Continues(Cut(ps).open)
  {
    if ps != [] {
      CutOpen(ps[..|ps| - 1]);
    }
  }

  /** The runs laid end to end are the packets. */
  lemma {:induction false} CutConcat(ps: seq<Packet>)
    ensures Concat(Cut(ps).closed) + Cut(ps).open == ps
  {
    if ps != [] {
      var init := ps[..|ps| - 1];
      CutConcat(init);
      var r := Cut(init);
      var p := ps[|ps| - 1];
      if |p.data| == 20 {
        assert Concat(r.closed) + (r.open + [p]) == (Concat(r.closed) + r.open) + [p];
      } else {
        ConcatOne(r.closed, r.open + [p]);
        assert Concat(r.closed + [r.open + [p]]) + [] == (Concat(r.closed) + r.open) + [p];
      }
      assert init + [p] == ps;
    }
  }

  /** The report for a closed run. */
  function RunReport(run: seq<Packet>): Report
    requires |run| > 0
  {
    Message(run[0].when, run[|run| - 1].when, DataOf(run), Classify(DataOf(run)))
  }

  /** The bytes being collected are the open run's, started at that run's
      first packet. */
  lemma {:induction false} FeedAllOpen(ps: seq<Packet>)
    ensures var a := FeedAll(ps); var r := Cut(ps);
      && a.buf == DataOf(r.open)
      && |a.buf| == 20 * |r.open|
      && (r.open != [] ==> a.start == r.open[0].when)
  {
    if ps != [] {
      var init := ps[..|ps| - 1];
      FeedAllOpen(init);
      var r := Cut(init);
      var p := ps[|ps| - 1];
      var run := r.open + [p];
      assert run[..|run| - 1] == r.open;
      if r.open == [] {
        assert run == [p];
        assert [] + p.data == p.data;
      }
    }
  }

  /** The reassembly loop reports exactly one message per closed run: its
      bytes are the run's payloads in order, its start time the run's
      first packet's and its time the run's last packet's. */
  lemma {:induction false} FeedAllReports(ps: seq<Packet>)
    ensures var a := FeedAll(ps); var r := Cut(ps);
      && |a.reports| == |r.closed|
      && (forall k :: 0 <= k < |r.closed| ==> |r.closed[k]| > 0 && a.reports[k] == RunReport(r.closed[k]))
  {
    if ps != [] {
      var init := ps[..|ps| - 1];
      FeedAllReports(init);
      FeedAllOpen(init);
      var a := FeedAll(init);
      var r := Cut(init);
      var p := ps[|ps| - 1];
      if |p.data| != 20 {
        var run := r.open + [p];
        assert run[..|run| - 1] == r.open;
        assert DataOf(run) == a.buf + p.data;
        if r.open == [] {
          assert run == [p];
          assert [] + p.data == p.data;
        }
        assert RunReport(run) == Message(if a.buf != [] then a.start else p.when, p.when,
                                          if a.buf != [] then a.buf + p.data else p.data,
                                          Classify(DataOf(run)));
      }
    }
  }

  /** The target's reports, laid end to end, account for every byte it was
      sent: the closed messages and then the partial message, if any. */
  lemma ReportsCoverData(ps: seq<Packet>)
    ensures var a := FeedAll(ps);
      Concat(MessagesOf(a.reports)) + a.buf == DataOf(ps)
  {
    FeedAllReports(ps);
    FeedAllOpen(ps);
    CutConcat(ps);
    var a := FeedAll(ps);
    var r := Cut(ps);
    assert MessagesOf(a.reports) == DataOfRuns(r.closed) by {
      MessagesOfRuns(a.reports, r.closed);
    }
    DataOfConcat(r.closed);
    DataOfAppend(Concat(r.closed), r.open);
  }

  function MessagesOf(rs: seq<Report>): (ms: seq<Bytes>)
    ensures |ms| == |rs|
  {
    if rs == [] then [] else MessagesOf(rs[..|rs| - 1]) + [if rs[|rs| - 1].Message? then rs[|rs| - 1].message else []]
  }

  function DataOfRuns(runs: seq<seq<Packet>>): (ms: seq<Bytes>)
    ensures |ms| == |runs|
  {
    if runs == [] then [] else DataOfRuns(runs[..|runs| - 1]) + [DataOf(runs[|runs| - 1])]
  }

  lemma {:induction false} MessagesOfRuns(rs: seq<Report>, runs: seq<seq<Packet>>)
    requires |rs| == |runs|
    requires forall k :: 0 <= k < |rs| ==> rs[k].Message? && rs[k].message == DataOf(runs[k])
    ensures MessagesOf(rs) == DataOfRuns(runs)
  {
    if rs != [] {
      MessagesOfRuns(rs[..|rs| - 1], runs[..|runs| - 1]);
    }
  }

  lemma {:induction false} DataOfConcat(runs: seq<seq<Packet>>)
    ensures DataOf(Concat(runs)) == Concat(DataOfRuns(runs))
  {
    if runs != [] {
      var init := runs[..|runs| - 1];
      DataOfConcat(init);
      DataOfAppend(Concat(init), runs[|runs| - 1]);
      ConcatOne(DataOfRuns(init), DataOf(runs[|runs| - 1]));
    }
  }
}
