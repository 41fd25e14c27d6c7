/** The two input formats of the nametag sender: a file of hex packets,
    where a blank line ends a packet and long lines are cut into 20-byte
    packets, and a file of hex glyphs, one per line, turned into packets by
    the glyph-set encoder. The file is given as its lines. */
module NametagSend {
  import opened Common
  import NametagProtocol

  // ---------------------------------------------------------------------
  // Line cleaning and hex decoding

  /** The characters `bytes.fromhex` skips between byte pairs. */
  predicate IsHexSpace(c: char)
  {
    c == ' ' || c == '\t' || c == '\n' || c == '\r' || c == '\U{000B}' || c == '\U{000C}'
  }

  /** `line.strip().replace(":", " ")`. */
  function Clean(line: string): (r: string)
    ensures |r| <= |line|
    ensures ':' !in r
  {
    ColonsToSpaces(Strip(line))
  }

  function ColonsToSpaces(s: string): (r: string)
    ensures |r| == |s| && forall i :: 0 <= i < |s| ==> r[i] == (if s[i] == ':' then ' ' else s[i])
  {
    if s == [] then [] else [if s[0] == ':' then ' ' else s[0]] + ColonsToSpaces(s[1..])
  }

  /** `bytes.fromhex(s)`: pairs of hex digits, with whitespace allowed
      before each pair; `None` where Python raises `ValueError`. */
  function FromHex(s: string): (r: Option<Bytes>)
    ensures r.Some? ==> 2 * |r.value| <= |s|
  {
    if s == [] then Some([])
    else if IsHexSpace(s[0]) then FromHex(s[1..])
    else if |s| >= 2 && HexDigit(s[0]).Some? && HexDigit(s[1]).Some? then
      match FromHex(s[2..])
      case Some(rest) => Some([ByteOf(HexDigit(s[0]).value * 16 + HexDigit(s[1]).value)] + rest)
      case None => None
    else None
  }

  /** How the packet loader treats one line. */
  datatype LineKind = Blank | Comment | Data(bytes: Bytes) | BadHex

  function Kind(line: string): LineKind
  {
    var l := Clean(line);
    if l == [] then Blank
    else if l[0] == '#' then Comment
    else match FromHex(l)
      case Some(b) => Data(b)
      case None => BadHex
  }

  // ---------------------------------------------------------------------
  // The packet file

  /** The 20-byte cut of one growing packet: `while len(p) > 20:` replace
      it by its first 20 bytes and the rest. */
  function Cut20(p: Bytes): (r: seq<Bytes>)
    ensures |r| >= 1
    decreases |p|
  {
    if |p| <= 20 then [p] else [p[..20]] + Cut20(p[20..])
  }

  /** One line of the loader applied to the packet list. */
  function LoadStep(packets: seq<Bytes>, k: LineKind): (r: seq<Bytes>)
    requires |packets| >= 1 && !k.BadHex?
    ensures |r| >= 1
  {
    var n := |packets|;
    match k
    case Blank => if packets[n - 1] != [] then packets + [[]] else packets
    case Comment => packets
    case Data(b) => packets[..n - 1] + Cut20(packets[n - 1] + b)
  }

  /** The loader over a whole file: `Err(i)` when line `i` is not hex. */
  function LoadAll(lines: seq<string>): (r: Result<seq<Bytes>, nat>)
    ensures r.Ok? ==> |r.value| >= 1
    ensures r.Err? ==> r.error < |lines|
  {
    if lines == [] then Ok([[]])
    else match LoadAll(lines[..|lines| - 1])
      case Err(i) => Err(i)
      case Ok(ps) =>
        var k := Kind(lines[|lines| - 1]);
        if k.BadHex? then Err(|lines| - 1) else Ok(LoadStep(ps, k))
  }

  /** The `--packets` loader. */
  method LoadPackets(lines: seq<string>) returns (r: Result<seq<Bytes>, nat>)
    ensures r == LoadAll(lines)
  {
    var packets: seq<Bytes> := [[]];
    for i := 0 to |lines|
      invariant LoadAll(lines[..i]) == Ok(packets)
    {
      LoadAllStep(lines, i);
      var line := Clean(lines[i]);
      if line == [] {
        assert Kind(lines[i]) == Blank;
        if packets[|packets| - 1] != [] {
          packets := packets + [[]];
        }
      } else if line[0] != '#' {
        var data := FromHex(line);
        if data.None? {
          assert Kind(lines[i]) == BadHex;
          LoadErrPrefix(lines, i + 1);
          return Err(i);
        }
        assert Kind(lines[i]) == Data(data.value);
        packets := packets[..|packets| - 1] + [packets[|packets| - 1] + data.value];
        packets := CutLast(packets);
      } else {
        assert Kind(lines[i]) == Comment;
      }
    }
    assert lines[..|lines|] == lines;
    return Ok(packets);
  }

  lemma LoadAllStep(lines: seq<string>, i: nat)
    requires i < |lines| && LoadAll(lines[..i]).Ok?
    ensures var k := Kind(lines[i]);
      LoadAll(lines[..i + 1]) == if k.BadHex? then Err(i) else Ok(LoadStep(LoadAll(lines[..i]).value, k))
  {
    assert lines[..i + 1][..i] == lines[..i];
  }

  /** `while len(packets[-1]) > 20: packets[-1:] = [packets[-1][:20], packets[-1][20:]]`. */
  method CutLast(packets: seq<Bytes>) returns (r: seq<Bytes>)
    requires |packets| >= 1
    ensures r == packets[..|packets| - 1] + Cut20(packets[|packets| - 1])
  {
    r := packets;
    while |r[|r| - 1]| > 20
      invariant |r| >= 1
      invariant r[..|r| - 1] + Cut20(r[|r| - 1]) == packets[..|packets| - 1] + Cut20(packets[|packets| - 1])
      decreases |r[|r| - 1]|
    {
      var prefix := r[..|r| - 1];
      var last := r[|r| - 1];
      assert Cut20(last) == [last[..20]] + Cut20(last[20..]);
      r := prefix + [last[..20], last[20..]];
      assert r[..|r| - 1] == prefix + [last[..20]];
      assert (prefix + [last[..20]]) + Cut20(last[20..]) == prefix + Cut20(last);
    }
    assert Cut20(r[|r| - 1]) == [r[|r| - 1]];
    assert r[..|r| - 1] + [r[|r| - 1]] == r;
  }

  /** A failure in a prefix is the failure of the whole file. */
  lemma {:induction false} LoadErrPrefix(lines: seq<string>, n: nat)
    requires n <= |lines| && LoadAll(lines[..n]).Err?
    ensures LoadAll(lines) == LoadAll(lines[..n])
    decreases |lines| - n
  {
    if n < |lines| {
      assert lines[..n + 1][..n] == lines[..n];
      LoadErrPrefix(lines, n + 1);
    } else {
      assert lines[..n] == lines;
    }
  }

  // ---------------------------------------------------------------------
  // The reference: blank-line-separated paragraphs

  /** Cutting a packet that already holds `a` and then gets `b` appended is
      cutting `a`, and then its last piece with `b` appended. */
  lemma {:induction false} Cut20Append(a: Bytes, b: Bytes)
    ensures var c := Cut20(a);
      Cut20(a + b) == c[..|c| - 1] + Cut20(c[|c| - 1] + b)
    decreases |a|
  {
    if |a| > 20 {
      Cut20Append(a[20..], b);
      assert (a + b)[..20] == a[..20];
      assert (a + b)[20..] == a[20..] + b;
      var c := Cut20(a[20..]);
      assert Cut20(a)[..|Cut20(a)| - 1] == [a[..20]] + c[..|c| - 1];
    } else {
      assert Cut20(a)[..0] == [];
    }
  }

  /** The pieces are at most 20 bytes, all but the last exactly 20, they
      concatenate to the input, and the last is empty only for empty input. */
  lemma {:induction false} Cut20Facts(p: Bytes)
    ensures var c := Cut20(p);
      && (forall i :: 0 <= i < |c| ==> |c[i]| <= 20)
      && (forall i :: 0 <= i < |c| - 1 ==> |c[i]| == 20)
      && Concat(c) == p
      && (c[|c| - 1] == [] <==> p == [])
    decreases |p|
  {
    if |p| > 20 {
      Cut20Facts(p[20..]);
      var c := Cut20(p[20..]);
      assert Cut20(p) == [p[..20]] + c;
      ConcatAppend([p[..20]], c);
      assert Concat([p[..20]]) == p[..20] by {
        assert [p[..20]][..0] == [];
      }
      assert p[..20] + p[20..] == p;
    } else {
      assert [p][..0] == [];
      assert Concat([p]) == [] + p;
    }
  }

  /** The messages of the file: the data of the paragraphs closed so far
      (each non-empty), and the data of the current one. */
  datatype Paragraphs = Paragraphs(done: seq<Bytes>, current: Bytes)

  function ParagraphsOf(lines: seq<string>): (r: Result<Paragraphs, nat>)
    ensures r.Ok? ==> forall j :: 0 <= j < |r.value.done| ==> r.value.done[j] != []
  {
    if lines == [] then Ok(Paragraphs([], []))
    else match ParagraphsOf(lines[..|lines| - 1])
      case Err(i) => Err(i)
      case Ok(p) =>
        var k := Kind(lines[|lines| - 1]);
        if k.BadHex? then Err(|lines| - 1) else Ok(Gather(p, k))
  }

  /** One well-formed line taken into the paragraphs: a blank line closes
      a paragraph that has data, data extends the open one. */
  function Gather(p: Paragraphs, k: LineKind): (q: Paragraphs)
    requires !k.BadHex?
    ensures (forall j :: 0 <= j < |p.done| ==> p.done[j] != []) ==> forall j :: 0 <= j < |q.done| ==> q.done[j] != []
  {
    match k
    case Blank => if p.current != [] then Paragraphs(p.done + [p.current], []) else p
    case Comment => p
    case Data(b) => Paragraphs(p.done, p.current + b)
  }

  /** The bytes a line contributes: its data, or none. */
  function DataOf(k: LineKind): Bytes
  {
    match k case Data(b) => b case _ => []
  }

  /** Taking a line appends its data to the paragraphs laid end to end. */
  lemma GatherData(p: Paragraphs, k: LineKind)
    requires !k.BadHex?
    ensures Concat(Gather(p, k).done) + Gather(p, k).current == Concat(p.done) + p.current + DataOf(k)
  {
    match k
    case Blank =>
      if p.current != [] {
        ConcatOne(p.done, p.current);
      }
    case Comment =>
    case Data(b) =>
  }

  /** Each paragraph cut into 20-byte packets, in order. */
  function Pieces(ds: seq<Bytes>): seq<Bytes>
  {
    if ds == [] then [] else Pieces(ds[..|ds| - 1]) + Cut20(ds[|ds| - 1])
  }

  function Render(p: Paragraphs): (r: seq<Bytes>)
  {
    Pieces(p.done) + Cut20(p.current)
  }

  /** The loader's packet list is every paragraph cut into 20-byte packets:
      a blank line opens a new packet only after data, and data keeps
      filling the last packet of its paragraph. */
  lemma {:induction false} LoadIsParagraphs(lines: seq<string>)
    ensures LoadAll(lines).Err? <==> ParagraphsOf(lines).Err?
    ensures LoadAll(lines).Err? ==> LoadAll(lines).error == ParagraphsOf(lines).error
    ensures LoadAll(lines).Ok? ==> LoadAll(lines).value == Render(ParagraphsOf(lines).value)
  {
    if lines == [] {
      assert Render(Paragraphs([], [])) == [] + [[]];
    } else {
      var init := lines[..|lines| - 1];
      LoadIsParagraphs(init);
      if LoadAll(init).Ok? {
        var k := Kind(lines[|lines| - 1]);
        if !k.BadHex? {
          RenderStep(ParagraphsOf(init).value, k);
        }
      }
    }
  }

  /** One line taken by the paragraph reference, rendered, is the loader's
      step on the rendered packets. */
  lemma RenderStep(p: Paragraphs, k: LineKind)
    requires !k.BadHex?
    ensures |Render(p)| >= 1
    ensures LoadStep(Render(p), k) == Render(Gather(p, k))
  {
    match k
    case Blank => RenderBlank(p);
    case Comment =>
    case Data(b) => RenderData(p, b);
  }

  /** The rendered packets end with the current paragraph's pieces. */
  lemma RenderSplit(p: Paragraphs)
    ensures var ps := Render(p); var c := Cut20(p.current);
      && |ps| >= 1
      && ps[..|ps| - 1] == Pieces(p.done) + c[..|c| - 1]
      && ps[|ps| - 1] == c[|c| - 1]
  {
  }

  lemma RenderBlank(p: Paragraphs)
    ensures var ps := Render(p);
      |ps| >= 1
      && (if ps[|ps| - 1] != [] then ps + [[]] else ps)
         == Render(if p.current != [] then Paragraphs(p.done + [p.current], []) else p)
  {
    RenderSplit(p);
    Cut20Facts(p.current);
    if p.current != [] {
      assert Cut20([]) == [[]];
      assert Pieces(p.done + [p.current]) == Pieces(p.done) + Cut20(p.current);
    }
  }

  lemma RenderData(p: Paragraphs, b: Bytes)
    ensures var ps := Render(p);
      |ps| >= 1
      && ps[..|ps| - 1] + Cut20(ps[|ps| - 1] + b) == Render(Paragraphs(p.done, p.current + b))
  {
    RenderSplit(p);
    Cut20Append(p.current, b);
  }

  function LineData(lines: seq<string>): Bytes
  {
    if lines == [] then []
    else LineData(lines[..|lines| - 1]) + DataOf(Kind(lines[|lines| - 1]))
  }

  /** The paragraphs hold the decoded data lines in file order. */
  lemma {:induction false} ParagraphsData(lines: seq<string>)
    requires ParagraphsOf(lines).Ok?
    ensures Concat(ParagraphsOf(lines).value.done) + ParagraphsOf(lines).value.current == LineData(lines)
  {
    if lines != [] {
      var init := lines[..|lines| - 1];
      ParagraphsData(init);
      GatherData(ParagraphsOf(init).value, Kind(lines[|lines| - 1]));
    }
  }

  lemma {:induction false} PiecesFacts(ds: seq<Bytes>)
    requires forall j :: 0 <= j < |ds| ==> ds[j] != []
    ensures var r := Pieces(ds);
      && (forall i :: 0 <= i < |r| ==> 0 < |r[i]| <= 20)
      && Concat(r) == Concat(ds)
  {
    if ds != [] {
      var init := ds[..|ds| - 1];
      PiecesFacts(init);
      var c := Cut20(ds[|ds| - 1]);
      Cut20Facts(ds[|ds| - 1]);
      ConcatAppend(Pieces(init), c);
      forall i | 0 <= i < |c| ensures 0 < |c[i]| {
        if i < |c| - 1 {
          assert |c[i]| == 20;
        }
      }
    }
  }

  /** What the loaded packets promise: every packet has at most 20 bytes,
      only the last one can be empty, and laid end to end they are the
      decoded data lines in file order. */
  lemma LoadedPackets(lines: seq<string>)
    requires LoadAll(lines).Ok?
    ensures var ps := LoadAll(lines).value;
      && (forall i :: 0 <= i < |ps| ==> |ps[i]| <= 20)
      && (forall i :: 0 <= i < |ps| - 1 ==> ps[i] != [])
      && Concat(ps) == LineData(lines)
  {
    LoadIsParagraphs(lines);
    ParagraphsData(lines);
    var p := ParagraphsOf(lines).value;
    PiecesFacts(p.done);
    Cut20Facts(p.current);
    var ps := LoadAll(lines).value;
    var a := Pieces(p.done);
    var c := Cut20(p.current);
    ConcatAppend(a, c);
    forall i | 0 <= i < |ps| - 1 ensures ps[i] != [] {
      if i >= |a| {
        assert ps[i] == c[i - |a|];
        assert |c[i - |a|]| == 20;
      }
    }
  }

  /** A bad line is the first line whose hex does not decode. */
  lemma {:induction false} LoadErr(lines: seq<string>)
    ensures LoadAll(lines).Err? ==>
      Kind(lines[LoadAll(lines).error]).BadHex?
      && forall j :: 0 <= j < LoadAll(lines).error ==> !Kind(lines[j]).BadHex?
    ensures LoadAll(lines).Ok? ==> forall j :: 0 <= j < |lines| ==> !Kind(lines[j]).BadHex?
  {
    if lines != [] {
      LoadErr(lines[..|lines| - 1]);
      assert forall j :: 0 <= j < |lines| - 1 ==> lines[..|lines| - 1][j] == lines[j];
    }
  }

  // ---------------------------------------------------------------------
  // The glyph file

  /** The cleaned lines that are not blank: one glyph each. */
  function GlyphLines(lines: seq<string>): (r: seq<string>)
    ensures forall k :: 0 <= k < |r| ==> r[k] != []
  {
    if lines == [] then []
    else GlyphLines(lines[..|lines| - 1])
         + (if Clean(lines[|lines| - 1]) != [] then [Clean(lines[|lines| - 1])] else [])
  }

  /** The `--glyphs` loader: every non-blank line is one glyph, and a
      comment line is not skipped (its '#' is not hex). */
  method LoadGlyphs(lines: seq<string>) returns (r: Result<seq<Bytes>, nat>)
    ensures r.Ok? ==>
      |r.value| == |GlyphLines(lines)|
      && forall k :: 0 <= k < |r.value| ==> FromHex(GlyphLines(lines)[k]) == Some(r.value[k])
    ensures r.Err? ==> r.error < |lines| && Clean(lines[r.error]) != [] && FromHex(Clean(lines[r.error])).None?
  {
    var glyphs: seq<Bytes> := [];
    for i := 0 to |lines|
      invariant |glyphs| == |GlyphLines(lines[..i])|
      invariant forall k :: 0 <= k < |glyphs| ==> FromHex(GlyphLines(lines[..i])[k]) == Some(glyphs[k])
    {
      assert lines[..i + 1][..i] == lines[..i];
      var line := Clean(lines[i]);
      if line != [] {
        var g := FromHex(line);
        if g.None? {
          return Err(i);
        }
        glyphs := glyphs + [g.value];
      }
    }
    assert lines[..|lines|] == lines;
    return Ok(glyphs);
  }

  datatype LoadError = BadLine(line: nat) | Pack(error: NametagProtocol.PackError)

  /** The glyph file loaded and encoded as one glyph-set message. */
  method GlyphPackets(lines: seq<string>) returns (r: Result<seq<Bytes>, LoadError>)
    ensures r.Err? && r.error.BadLine? ==>
      r.error.line < |lines| && Clean(lines[r.error.line]) != [] && FromHex(Clean(lines[r.error.line])).None?
    ensures r.Ok? || r.error.Pack? ==>
      exists gs: seq<Bytes> :: |gs| == |GlyphLines(lines)|
        && (forall k :: 0 <= k < |gs| ==> FromHex(GlyphLines(lines)[k]) == Some(gs[k]))
        && (r.Ok? ==> NametagProtocol.PacketsFromGlyphs(gs) == Ok(r.value))
        && (r.Err? ==> NametagProtocol.PacketsFromGlyphs(gs) == Err(r.error.error))
  {
    var glyphs := LoadGlyphs(lines);
    if glyphs.Err? {
      return Err(BadLine(glyphs.error));
    }
    var packets := NametagProtocol.PacketsFromGlyphs(glyphs.value);
    if packets.Err? {
      return Err(Pack(packets.error));
    }
    return Ok(packets.value);
  }
}
