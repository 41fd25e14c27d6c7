/** The pixel-font proof sheet tool: glyphs are cut out of font sheet
    images, text is wrapped greedily to a pixel width, laid out into a
    bitmap block, and the block is zoomed for saving. */
module FontProof {
  import opened Common

  /** A glyph bitmap of `h` rows of `w` pixels, `true` for ink. */
  datatype Glyph = Glyph(h: nat, w: nat, px: seq<seq<bool>>)

  /** The bitmap has the glyph's shape. */
  predicate Shaped(g: Glyph)
  {
    |g.px| == g.h && forall i :: 0 <= i < g.h ==> |g.px[i]| == g.w
  }

  /** A font's glyphs by character. */
  type Glyphs = map<char, Glyph>

  /** The gap between glyphs, and between rows of text. */
  const GapW := 1
  const GapH := 1

  // ----- splitting the text into lines -----

  /** The first '\n' at or after `p`, or the end. */
  function NewlineFrom(s: string, p: nat): (k: nat)
    requires p <= |s|
    ensures p <= k <= |s| && (k < |s| ==> s[k] == '\n')
    ensures forall i :: p <= i < k ==> s[i] != '\n'
    decreases |s| - p
  {
    if p == |s| || s[p] == '\n' then p else NewlineFrom(s, p + 1)
  }

  /** `text.split("\n")`. */
  function SplitLines(s: string): (lines: seq<string>)
    ensures |lines| >= 1
    ensures forall i :: 0 <= i < |lines| ==> '\n' !in lines[i]
    decreases |s|
  {
    var k := NewlineFrom(s, 0);
    assert '\n' !in s[..k] by {
      forall i | 0 <= i < k ensures s[..k][i] != '\n' { }
    }
    if k == |s| then [s] else [s[..k]] + SplitLines(s[k + 1..])
  }

  /** `"\n".join(lines)`. */
  function JoinLines(lines: seq<string>): (s: string)
    requires |lines| >= 1
  {
    if |lines| == 1 then lines[0] else lines[0] + "\n" + JoinLines(lines[1..])
  }

  /** Splitting and joining again gives the text back. */
  lemma {:induction false} SplitJoin(s: string)
    ensures JoinLines(SplitLines(s)) == s
    decreases |s|
  {
    var k := NewlineFrom(s, 0);
    if k < |s| {
      SplitJoin(s[k + 1..]);
      assert s == s[..k] + "\n" + s[k + 1..];
    }
  }

  // ----- greedy word wrap -----

  /** All characters of `s` have glyphs. */
  predicate Known(glyphs: Glyphs, s: string)
  {
    forall i :: 0 <= i < |s| ==> s[i] in glyphs
  }

  /** The pixels a row takes: each glyph's width plus the gap. */
  function RowWidth(glyphs: Glyphs, s: string): (n: nat)
    requires Known(glyphs, s)
  {
    if s == [] then 0 else RowWidth(glyphs, s[..|s| - 1]) + glyphs[s[|s| - 1]].w + GapW
  }

  /** A longer prefix of a row is at least as wide. */
  lemma {:induction false} RowWidthMonotone(glyphs: Glyphs, s: string, m: nat, n: nat)
    requires m <= n <= |s| && Known(glyphs, s)
    ensures Known(glyphs, s[..m]) && Known(glyphs, s[..n])
    ensures RowWidth(glyphs, s[..m]) <= RowWidth(glyphs, s[..n])
    decreases n - m
  {
    if m < n {
      RowWidthMonotone(glyphs, s, m, n - 1);
      assert s[..n][..n - 1] == s[..n - 1];
    }
  }

  /** The position of the latest whitespace before `n`, or 0 when there
      is none; whitespace at position 0 counts as none, as the source's
      `break_i or next_i` treats 0 as unset. */
  function LastSpace(s: string, n: nat): (k: nat)
    requires n <= |s|
    ensures k < n || k == 0
  {
    if n == 0 then 0 else if IsPySpace(s[n - 1]) then n - 1 else LastSpace(s, n - 1)
  }

  /** Where the scan of one row ends: the rest of the line fits, or it
      breaks at `at` because the glyph at `over` does not fit, or a
      character has no glyph. */
  datatype Scan = Fits | BreakAt(at: nat, over: nat) | Missing(ch: char)

  /** The scan of the inner `while` of `text_block`, from character `next`
      with break candidate `brk` and row width `rowW`. */
  function ScanRow(glyphs: Glyphs, width: int, s: string, next: nat, brk: nat, rowW: int): (r: Scan)
    requires next <= |s| && brk <= next
    ensures r.BreakAt? ==> 1 <= r.at <= r.over < |s|
    decreases |s| - next
  {
    if next == |s| then Fits
    else
      var brk' := if IsPySpace(s[next]) then next else brk;
      if s[next] !in glyphs then Missing(s[next])
      else
        var cw := glyphs[s[next]].w + GapW;
        if rowW + cw > width && (brk' != 0 || next != 0) then
          BreakAt(if brk' != 0 then brk' else next, next)
        else ScanRow(glyphs, width, s, next + 1, brk', rowW + cw)
  }

  /** The rows one input line wraps into, or None when a character has no
      glyph (the source's `KeyError`). */
  function WrapLine(glyphs: Glyphs, width: int, s: string): (rows: Option<seq<string>>)
    ensures rows.Some? ==> |rows.value| >= 1
    decreases |s|
  {
    RestOfLine(glyphs, width, s, ScanRow(glyphs, width, s, 0, 0, 0))
  }

  /** The rows of a line, given how the scan of its first row ended. */
  function RestOfLine(glyphs: Glyphs, width: int, s: string, scan: Scan): (rows: Option<seq<string>>)
    requires scan.BreakAt? ==> 1 <= scan.at < |s|
    ensures rows.Some? ==> |rows.value| >= 1
    decreases |s|, 0
  {
    match scan
    case Fits => Some([s])
    case Missing(_) => None
    case BreakAt(k, _) =>
      var rest := WrapLine(glyphs, width, StripLeft(s[k..]));
      if rest.None? then None else Some([s[..k]] + rest.value)
  }

  /** What the scan state promises: the row so far is `s[..next]`, its
      width is `rowW`, `brk` is its latest whitespace, and it fits unless
      it is a single glyph. */
  predicate ScanState(glyphs: Glyphs, width: int, s: string, next: nat, brk: nat, rowW: int)
  {
    && next <= |s| && Known(glyphs, s[..next]) && rowW == RowWidth(glyphs, s[..next])
    && brk == LastSpace(s, next) && (next <= 1 || rowW <= width)
  }

  /** The break rule: a row breaks at its latest whitespace after position
      0, otherwise before the glyph that does not fit; the row before the
      break fits unless it is a single glyph; and a line that fits is
      within the width unless it is a single glyph. */
  lemma ScanRule(glyphs: Glyphs, width: int, s: string, next: nat, brk: nat, rowW: int)
    requires ScanState(glyphs, width, s, next, brk, rowW)
    ensures var r := ScanRow(glyphs, width, s, next, brk, rowW);
            && (r.Fits? ==> Known(glyphs, s) && (|s| <= 1 || RowWidth(glyphs, s) <= width))
            && (r.Missing? ==> r.ch !in glyphs && r.ch in s)
            && (r.BreakAt? ==>
                  && Known(glyphs, s[..r.over + 1])
                  && RowWidth(glyphs, s[..r.over + 1]) > width
                  && (r.over <= 1 || RowWidth(glyphs, s[..r.over]) <= width)
                  && r.at == (if LastSpace(s, r.over + 1) != 0 then LastSpace(s, r.over + 1) else r.over))
  {
    ScanFits(glyphs, width, s, next, brk, rowW);
    ScanMissing(glyphs, width, s, next, brk, rowW);
    ScanBreaks(glyphs, width, s, next, brk, rowW);
  }

  /** A line whose scan fits is within the width unless it is a single glyph. */
  lemma {:induction false} ScanFits(glyphs: Glyphs, width: int, s: string, next: nat, brk: nat, rowW: int)
    requires ScanState(glyphs, width, s, next, brk, rowW)
    ensures ScanRow(glyphs, width, s, next, brk, rowW).Fits? ==>
              Known(glyphs, s) && (|s| <= 1 || RowWidth(glyphs, s) <= width)
    decreases |s| - next
  {
    if next < |s| && s[next] in glyphs {
      PrefixStep(glyphs, s, next);
      if !(rowW + glyphs[s[next]].w + GapW > width && ((if IsPySpace(s[next]) then next else brk) != 0 || next != 0)) {
        ScanFits(glyphs, width, s, next + 1, if IsPySpace(s[next]) then next else brk, rowW + glyphs[s[next]].w + GapW);
      }
    } else if next == |s| {
      assert s[..next] == s;
    }
  }

  /** A scan stops at a missing glyph only for a character of the line
      that has none. */
  lemma {:induction false} ScanMissing(glyphs: Glyphs, width: int, s: string, next: nat, brk: nat, rowW: int)
    requires ScanState(glyphs, width, s, next, brk, rowW)
    ensures ScanRow(glyphs, width, s, next, brk, rowW).Missing? ==>
              ScanRow(glyphs, width, s, next, brk, rowW).ch !in glyphs && ScanRow(glyphs, width, s, next, brk, rowW).ch in s
    decreases |s| - next
  {
    if next < |s| && s[next] in glyphs {
      PrefixStep(glyphs, s, next);
      if !(rowW + glyphs[s[next]].w + GapW > width && ((if IsPySpace(s[next]) then next else brk) != 0 || next != 0)) {
        ScanMissing(glyphs, width, s, next + 1, if IsPySpace(s[next]) then next else brk, rowW + glyphs[s[next]].w + GapW);
      }
    }
  }

  /** A break is at the latest whitespace, or before the glyph that does
      not fit, and the row before it fits unless it is a single glyph. */
  lemma {:induction false} ScanBreaks(glyphs: Glyphs, width: int, s: string, next: nat, brk: nat, rowW: int)
    requires ScanState(glyphs, width, s, next, brk, rowW)
    ensures var r := ScanRow(glyphs, width, s, next, brk, rowW);
            r.BreakAt? ==>
              && Known(glyphs, s[..r.over + 1])
              && RowWidth(glyphs, s[..r.over + 1]) > width
              && (r.over <= 1 || RowWidth(glyphs, s[..r.over]) <= width)
              && r.at == (if LastSpace(s, r.over + 1) != 0 then LastSpace(s, r.over + 1) else r.over)
    decreases |s| - next
  {
    if next < |s| && s[next] in glyphs {
      PrefixStep(glyphs, s, next);
      if !(rowW + glyphs[s[next]].w + GapW > width && ((if IsPySpace(s[next]) then next else brk) != 0 || next != 0)) {
        ScanBreaks(glyphs, width, s, next + 1, if IsPySpace(s[next]) then next else brk, rowW + glyphs[s[next]].w + GapW);
      }
    }
  }

  /** One more character of a row: its glyph's width and the gap are added,
      and it is the latest whitespace when it is one. */
  lemma PrefixStep(glyphs: Glyphs, s: string, n: nat)
    requires n < |s| && Known(glyphs, s[..n]) && s[n] in glyphs
    ensures Known(glyphs, s[..n + 1])
    ensures RowWidth(glyphs, s[..n + 1]) == RowWidth(glyphs, s[..n]) + glyphs[s[n]].w + GapW
    ensures LastSpace(s, n + 1) == if IsPySpace(s[n]) then n else LastSpace(s, n)
  {
    assert s[..n + 1][..n] == s[..n];
  }

  /** The rows of a line fit the width, except rows of a single glyph. */
  lemma {:induction false} RowsFit(glyphs: Glyphs, width: int, s: string)
    requires WrapLine(glyphs, width, s).Some?
    ensures forall r :: r in WrapLine(glyphs, width, s).value ==>
              Known(glyphs, r) && (|r| <= 1 || RowWidth(glyphs, r) <= width)
    decreases |s|
  {
    ScanRule(glyphs, width, s, 0, 0, 0);
    if ScanRow(glyphs, width, s, 0, 0, 0).BreakAt? {
      RowsFit(glyphs, width, StripLeft(s[ScanRow(glyphs, width, s, 0, 0, 0).at..]));
      FirstRowFits(glyphs, width, s);
      WrapBreaks(glyphs, width, s);
    }
  }

  /** The first row of a line that breaks fits, unless it is a single
      glyph. */
  lemma FirstRowFits(glyphs: Glyphs, width: int, s: string)
    requires ScanRow(glyphs, width, s, 0, 0, 0).BreakAt?
    ensures Known(glyphs, s[..ScanRow(glyphs, width, s, 0, 0, 0).at])
    ensures ScanRow(glyphs, width, s, 0, 0, 0).at <= 1
            || RowWidth(glyphs, s[..ScanRow(glyphs, width, s, 0, 0, 0).at]) <= width
  {
    var scan := ScanRow(glyphs, width, s, 0, 0, 0);
    ScanRule(glyphs, width, s, 0, 0, 0);
    RowWidthMonotone(glyphs, s[..scan.over + 1], scan.at, scan.over);
    assert s[..scan.over + 1][..scan.at] == s[..scan.at];
    assert s[..scan.over + 1][..scan.over] == s[..scan.over];
  }

  /** A line that breaks wraps into its first row and the rows of the rest
      after the whitespace. */
  lemma WrapBreaks(glyphs: Glyphs, width: int, s: string)
    requires ScanRow(glyphs, width, s, 0, 0, 0).BreakAt?
    requires WrapLine(glyphs, width, s).Some?
    ensures WrapLine(glyphs, width, StripLeft(s[ScanRow(glyphs, width, s, 0, 0, 0).at..])).Some?
    ensures WrapLine(glyphs, width, s).value
            == [s[..ScanRow(glyphs, width, s, 0, 0, 0).at]]
               + WrapLine(glyphs, width, StripLeft(s[ScanRow(glyphs, width, s, 0, 0, 0).at..])).value
  {
  }

  /** The text without its whitespace. */
  function Visible(s: string): (v: string)
  {
    if s == [] then [] else (if IsPySpace(s[0]) then [] else [s[0]]) + Visible(s[1..])
  }

  lemma {:induction false} VisibleAppend(a: string, b: string)
    ensures Visible(a + b) == Visible(a) + Visible(b)
  {
    if a == [] {
      assert a + b == b;
    } else {
      assert (a + b)[0] == a[0];
      assert (a + b)[1..] == a[1..] + b;
      VisibleAppend(a[1..], b);
    }
  }

  /** Left-stripping removes only whitespace. */
  lemma {:induction false} VisibleStripLeft(s: string)
    ensures Visible(StripLeft(s)) == Visible(s)
  {
    if s != [] && IsPySpace(s[0]) {
      VisibleStripLeft(s[1..]);
    }
  }

  /** Wrapping loses no visible character and keeps their order: only the
      whitespace at a break disappears. */
  lemma {:induction false} WrapKeepsText(glyphs: Glyphs, width: int, s: string)
    requires WrapLine(glyphs, width, s).Some?
    ensures Visible(Concat(WrapLine(glyphs, width, s).value)) == Visible(s)
    decreases |s|
  {
    var rows := WrapLine(glyphs, width, s).value;
    var scan := ScanRow(glyphs, width, s, 0, 0, 0);
    if scan.Fits? {
      assert rows == [] + [s];
      ConcatOne([], s);
      assert Concat(rows) == s;
    } else {
      var k := scan.at;
      var tail := StripLeft(s[k..]);
      var rest := WrapLine(glyphs, width, tail).value;
      WrapKeepsText(glyphs, width, tail);
      assert rows == [s[..k]] + rest;
      ConcatAppend([s[..k]], rest);
      assert [s[..k]] == [] + [s[..k]];
      ConcatOne([], s[..k]);
      assert Concat(rows) == s[..k] + Concat(rest);
      VisibleAppend(s[..k], Concat(rest));
      VisibleStripLeft(s[k..]);
      assert s == s[..k] + s[k..];
      VisibleAppend(s[..k], s[k..]);
    }
  }

  /** The rows of all the lines, in order. */
  function WrapLines(glyphs: Glyphs, width: int, lines: seq<string>): (rows: Option<seq<string>>)
    ensures rows.Some? ==> |rows.value| >= |lines|
  {
    if lines == [] then Some([])
    else
      var before := WrapLines(glyphs, width, lines[..|lines| - 1]);
      var last := WrapLine(glyphs, width, lines[|lines| - 1]);
      if before.None? || last.None? then None else Some(before.value + last.value)
  }

  /** The wrapping loops of `text_block`: each line of the text is wrapped
      in turn, the rows appended in order. */
  method WrapText(glyphs: Glyphs, width: int, text: string) returns (rows: Option<seq<string>>)
    ensures rows == WrapLines(glyphs, width, SplitLines(text))
  {
    var lines := SplitLines(text);
    var done: seq<string> := [];
    for i := 0 to |lines|
      invariant WrapLines(glyphs, width, lines[..i]) == Some(done)
    {
      assert lines[..i + 1][..i] == lines[..i];
      var r := WrapOne(glyphs, width, lines[i]);
      if r.None? {
        WrapLinesNone(glyphs, width, lines, i);
        return None;
      }
      done := done + r.value;
    }
    assert lines[..|lines|] == lines;
    return Some(done);
  }

  /** One line without glyphs spoils the whole text. */
  lemma {:induction false} WrapLinesNone(glyphs: Glyphs, width: int, lines: seq<string>, i: nat)
    requires i < |lines| && WrapLine(glyphs, width, lines[i]).None?
    ensures WrapLines(glyphs, width, lines).None?
  {
    if i < |lines| - 1 {
      WrapLinesNone(glyphs, width, lines[..|lines| - 1], i);
    }
  }

  /** The rows a line gives once `rows` are done and the scan of the
      current row stands at `next`, `brk`, `rowW`. */
  function Pending(glyphs: Glyphs, width: int, rows: seq<string>, s: string, next: nat, brk: nat, rowW: int)
    : (r: Option<seq<string>>)
    requires next <= |s| && brk <= next
  {
    var rest := RestOfLine(glyphs, width, s, ScanRow(glyphs, width, s, next, brk, rowW));
    if rest.None? then None else Some(rows + rest.value)
  }

  /** The inner `while` of `text_block` for one line. */
  method WrapOne(glyphs: Glyphs, width: int, line: string) returns (rows: Option<seq<string>>)
    ensures rows == WrapLine(glyphs, width, line)
  {
    var input := line;
    var done: seq<string> := [];
    var brk, next, rowW := 0, 0, 0;
    assert Pending(glyphs, width, [], line, 0, 0, 0) == WrapLine(glyphs, width, line) by {
      var w := WrapLine(glyphs, width, line);
      if w.Some? {
        assert [] + w.value == w.value;
      }
    }
    while next < |input|
      invariant brk <= next <= |input|
      invariant Pending(glyphs, width, done, input, next, brk, rowW) == WrapLine(glyphs, width, line)
      decreases |input|, |input| - next
    {
      var ch := input[next];
      ghost var old_brk := brk;
      if IsPySpace(ch) {
        brk := next;
      }
      if ch !in glyphs {
        return None;
      }
      var cw := glyphs[ch].w + GapW;
      if rowW + cw > width && (brk != 0 || next != 0) {
        brk := if brk != 0 then brk else next;
        var tail := StripLeft(input[brk..]);
        assert ScanRow(glyphs, width, input, next, old_brk, rowW) == BreakAt(brk, next);
        ghost var w := WrapLine(glyphs, width, tail);
        if w.Some? {
          assert done + ([input[..brk]] + w.value) == (done + [input[..brk]]) + w.value;
        }
        done := done + [input[..brk]];
        input := tail;
        brk, next, rowW := 0, 0, 0;
      } else {
        assert ScanRow(glyphs, width, input, next, old_brk, rowW)
            == ScanRow(glyphs, width, input, next + 1, brk, rowW + cw);
        rowW := rowW + cw;
        next := next + 1;
      }
    }
    rows := Some(done + [input]);
  }

  // ----- laying the rows out -----

  /** Every glyph of the font has its shape. */
  predicate AllShaped(glyphs: Glyphs)
  {
    forall c :: c in glyphs ==> Shaped(glyphs[c])
  }

  /** The columns the slice `block[:, x:x + w]` of a `width`-wide block has. */
  function Cols(x: nat, w: nat, width: nat): (n: nat)
    ensures n <= w && x + n <= width + (if x > width then x - width else 0)
    ensures x + w <= width ==> n == w
    ensures n == w || x + n == width || x >= width
  {
    if x >= width then 0 else if x + w <= width then w else width - x
  }

  /** numpy can OR a `w`-wide glyph into that slice: the shapes agree, or
      the glyph is one column wide and broadcasts. */
  predicate Placeable(x: nat, w: nat, width: nat)
  {
    Cols(x, w, width) == w || w == 1
  }

  /** The glyph `k` of a row puts ink at height `yy` within the row and at
      column `j`: it stands at the row's width so far. */
  predicate GlyphInk(glyphs: Glyphs, row: string, k: nat, yy: int, j: int)
    requires Known(glyphs, row) && AllShaped(glyphs) && k < |row|
  {
    assert Known(glyphs, row[..k]);
    var g := glyphs[row[k]];
    var x := RowWidth(glyphs, row[..k]);
    0 <= yy < g.h && x <= j < x + g.w && g.px[yy][j - x]
  }

  /** One of the first `n` glyphs of a row puts ink there. */
  predicate RowInk(glyphs: Glyphs, row: string, n: nat, yy: int, j: int)
    requires Known(glyphs, row) && AllShaped(glyphs) && n <= |row|
  {
    n > 0 && (RowInk(glyphs, row, n - 1, yy, j) || GlyphInk(glyphs, row, n - 1, yy, j))
  }

  /** Ink in a row is ink from one of its glyphs. */
  lemma {:induction false} RowInkSome(glyphs: Glyphs, row: string, n: nat, yy: int, j: int)
    requires Known(glyphs, row) && AllShaped(glyphs) && n <= |row|
    ensures RowInk(glyphs, row, n, yy, j) <==> exists k :: 0 <= k < n && GlyphInk(glyphs, row, k, yy, j)
  {
    if n > 0 {
      RowInkSome(glyphs, row, n - 1, yy, j);
    }
  }

  /** One of the first `n` rows, each `rowH` pixels high, puts ink at
      pixel `(i, j)` of the block. */
  predicate BlockInk(glyphs: Glyphs, rows: seq<string>, n: nat, rowH: nat, i: int, j: int)
    requires n <= |rows| && AllShaped(glyphs) && forall r :: 0 <= r < |rows| ==> Known(glyphs, rows[r])
  {
    n > 0 && (BlockInk(glyphs, rows, n - 1, rowH, i, j)
              || ((n - 1) * rowH <= i && RowInk(glyphs, rows[n - 1], |rows[n - 1]|, i - (n - 1) * rowH, j)))
  }

  /** Glyph `k` of a row, standing at column `x`, inks exactly its own pixels. */
  lemma GlyphInkAt(glyphs: Glyphs, row: string, k: nat, x: nat, yy: int, j: int)
    requires Known(glyphs, row) && AllShaped(glyphs) && k < |row|
    requires Known(glyphs, row[..k]) && x == RowWidth(glyphs, row[..k])
    ensures GlyphInk(glyphs, row, k, yy, j) <==>
              (0 <= yy < glyphs[row[k]].h && x <= j < x + glyphs[row[k]].w && glyphs[row[k]].px[yy][j - x])
  {
  }

  /** Each glyph of a row can be ORed into a `width`-wide block. */
  predicate RowPlaceable(glyphs: Glyphs, row: string, n: nat, width: nat)
    requires Known(glyphs, row) && n <= |row|
  {
    forall k :: 0 <= k < n ==> Known(glyphs, row[..k]) && Placeable(RowWidth(glyphs, row[..k]), glyphs[row[k]].w, width)
  }

  /** `block[y:y + h, x:x + w] |= glyph`, or false where numpy refuses
      the shapes (before it changes anything). */
  method PlaceGlyph(block: array2<bool>, y: nat, x: nat, g: Glyph) returns (ok: bool)
    requires Shaped(g) && y + g.h <= block.Length0
    modifies block
    ensures ok == Placeable(x, g.w, block.Length1)
    ensures ok ==> forall i, j :: 0 <= i < block.Length0 && 0 <= j < block.Length1 ==>
              block[i, j] == (old(block[i, j]) || (y <= i < y + g.h && x <= j < x + g.w && g.px[i - y][j - x]))
  {
    ok := Placeable(x, g.w, block.Length1);
    if !ok {
      return;
    }
    var cols := Cols(x, g.w, block.Length1);
    for gy := 0 to g.h
      invariant forall i, j :: 0 <= i < block.Length0 && 0 <= j < block.Length1 ==>
                  block[i, j] == (old(block[i, j]) || (y <= i < y + gy && x <= j < x + g.w && g.px[i - y][j - x]))
    {
      for gx := 0 to cols
        invariant forall i, j :: 0 <= i < block.Length0 && 0 <= j < block.Length1 ==>
                    block[i, j] == (old(block[i, j]) || (y <= i < y + gy && x <= j < x + g.w && g.px[i - y][j - x])
                                    || (i == y + gy && x <= j < x + gx && g.px[gy][j - x]))
      {
        block[y + gy, x + gx] := block[y + gy, x + gx] || g.px[gy][gx];
      }
    }
  }

  /** The inner `for` of the layout: the glyphs of one row, left to right,
      a gap apart, on top of the block at height `y`. */
  method DrawRow(block: array2<bool>, glyphs: Glyphs, row: string, y: nat, maxH: nat) returns (ok: bool)
    requires Known(glyphs, row) && AllShaped(glyphs) && y + maxH <= block.Length0
    requires forall c :: c in glyphs ==> glyphs[c].h <= maxH
    modifies block
    ensures ok == RowPlaceable(glyphs, row, |row|, block.Length1)
    ensures ok ==> forall i, j :: 0 <= i < block.Length0 && 0 <= j < block.Length1 ==>
              block[i, j] == (old(block[i, j]) || (y <= i && RowInk(glyphs, row, |row|, i - y, j)))
  {
    var x := 0;
    for k := 0 to |row|
      invariant Known(glyphs, row[..k]) && x == RowWidth(glyphs, row[..k])
      invariant RowPlaceable(glyphs, row, k, block.Length1)
      invariant forall i, j :: 0 <= i < block.Length0 && 0 <= j < block.Length1 ==>
                  block[i, j] == (old(block[i, j]) || (y <= i && RowInk(glyphs, row, k, i - y, j)))
    {
      var g := glyphs[row[k]];
      label before:
      ok := PlaceGlyph(block, y, x, g);
      if !ok {
        return;
      }
      forall i, j | 0 <= i < block.Length0 && 0 <= j < block.Length1
        ensures block[i, j] == (old(block[i, j]) || (y <= i && RowInk(glyphs, row, k + 1, i - y, j)))
      {
        assert block[i, j] == (old@before(block[i, j]) || (y <= i < y + g.h && x <= j < x + g.w && g.px[i - y][j - x]));
        GlyphInkAt(glyphs, row, k, x, i - y, j);
      }
      assert row[..k + 1][..k] == row[..k];
      x := x + g.w + GapW;
    }
    ok := true;
  }

  /** A band `rowH` high below row `r` still lies inside `n` such rows. */
  lemma BandInside(r: nat, n: nat, rowH: nat)
    requires r < n
    ensures r * rowH + rowH <= n * rowH
  {
    assert n * rowH == (r + 1) * rowH + (n - r - 1) * rowH;
  }

  /** Every row's glyphs are in the font. */
  predicate AllKnown(glyphs: Glyphs, rows: seq<string>)
  {
    forall r :: 0 <= r < |rows| ==> Known(glyphs, rows[r])
  }

  /** One pass of the layout loop: row `r` drawn into its band, on top of
      the rows before it. */
  method DrawBand(block: array2<bool>, glyphs: Glyphs, rows: seq<string>, r: nat, rowH: nat, maxH: nat) returns (ok: bool)
    requires AllKnown(glyphs, rows) && AllShaped(glyphs) && r < |rows|
    requires forall c :: c in glyphs ==> glyphs[c].h <= maxH
    requires rowH >= maxH && block.Length0 == |rows| * rowH
    requires forall i, j :: 0 <= i < block.Length0 && 0 <= j < block.Length1 ==>
               block[i, j] == BlockInk(glyphs, rows, r, rowH, i, j)
    modifies block
    ensures ok == RowPlaceable(glyphs, rows[r], |rows[r]|, block.Length1)
    ensures ok ==> forall i, j :: 0 <= i < block.Length0 && 0 <= j < block.Length1 ==>
              block[i, j] == BlockInk(glyphs, rows, r + 1, rowH, i, j)
  {
    BandInside(r, |rows|, rowH);
    var y := r * rowH;
    ok := DrawRow(block, glyphs, rows[r], y, maxH);
    if ok {
      forall i, j | 0 <= i < block.Length0 && 0 <= j < block.Length1
        ensures block[i, j] == BlockInk(glyphs, rows, r + 1, rowH, i, j)
      {
        assert block[i, j] == (old(block[i, j]) || (y <= i && RowInk(glyphs, rows[r], |rows[r]|, i - y, j)));
      }
    }
  }

  /** The layout loop of `text_block`: a block `|rows|` rows of `rowH`
      pixels high and `width` wide, each row's glyphs ORed in below the
      previous row's band; false where numpy refuses a glyph. */
  method Render(glyphs: Glyphs, rows: seq<string>, width: nat, maxH: nat) returns (ok: bool, block: array2<bool>)
    requires AllKnown(glyphs, rows) && AllShaped(glyphs)
    requires forall c :: c in glyphs ==> glyphs[c].h <= maxH
    ensures block.Length0 == |rows| * (maxH + GapH) && block.Length1 == width
    ensures ok == forall r :: 0 <= r < |rows| ==> RowPlaceable(glyphs, rows[r], |rows[r]|, width)
    ensures ok ==> forall i, j :: 0 <= i < block.Length0 && 0 <= j < block.Length1 ==>
              block[i, j] == BlockInk(glyphs, rows, |rows|, maxH + GapH, i, j)
  {
    var rowH := maxH + GapH;
    block := new bool[|rows| * rowH, width]((i, j) => false);
    for r := 0 to |rows|
      invariant forall r' :: 0 <= r' < r ==> RowPlaceable(glyphs, rows[r'], |rows[r']|, width)
      invariant forall i, j :: 0 <= i < block.Length0 && 0 <= j < block.Length1 ==>
                  block[i, j] == BlockInk(glyphs, rows, r, rowH, i, j)
    {
      var drawn := DrawBand(block, glyphs, rows, r, rowH, maxH);
      if !drawn {
        return false, block;
      }
    }
    ok := true;
  }

  /** `maxH` is the height of the tallest glyph. */
  predicate Tallest(glyphs: Glyphs, maxH: nat)
  {
    (forall c :: c in glyphs ==> glyphs[c].h <= maxH) && exists c :: c in glyphs && glyphs[c].h == maxH
  }

  /** The largest glyph height (or width, when `wide`) of a font. */
  method Largest(glyphs: Glyphs, wide: bool) returns (m: nat)
    requires glyphs != map[]
    ensures forall c :: c in glyphs ==> Dim(glyphs[c], wide) <= m
    ensures exists c :: c in glyphs && Dim(glyphs[c], wide) == m
  {
    var left := glyphs.Keys;
    var c0 :| c0 in left;
    m := Dim(glyphs[c0], wide);
    while left != {}
      invariant left <= glyphs.Keys
      invariant forall c :: c in glyphs && c !in left ==> Dim(glyphs[c], wide) <= m
      invariant exists c :: c in glyphs && Dim(glyphs[c], wide) == m
      decreases left
    {
      var c :| c in left;
      var d := Dim(glyphs[c], wide);
      if d > m {
        m := d;
      }
      left := left - {c};
    }
  }

  /** `text_block`: the text wrapped to `width` and laid out; false when
      the font has no "n", a character has no glyph, the width is
      negative, or numpy refuses a glyph's shape. */
  method TextBlock(glyphs: Glyphs, width: int, text: string) returns (ok: bool, block: array2<bool>)
    requires AllShaped(glyphs)
    ensures ok <==> && 'n' in glyphs && width >= 0
                    && WrapLines(glyphs, width, SplitLines(text)).Some?
                    && var rows := WrapLines(glyphs, width, SplitLines(text)).value;
                       AllKnown(glyphs, rows)
                       && forall r :: 0 <= r < |rows| ==> RowPlaceable(glyphs, rows[r], |rows[r]|, width)
    ensures ok ==> var rows := WrapLines(glyphs, width, SplitLines(text)).value;
                   && block.Length1 == width
                   && exists maxH: nat :: Tallest(glyphs, maxH)
                        && block.Length0 == |rows| * (maxH + GapH)
                        && forall i, j :: 0 <= i < block.Length0 && 0 <= j < block.Length1 ==>
                             block[i, j] == BlockInk(glyphs, rows, |rows|, maxH + GapH, i, j)
  {
    block := new bool[0, 0];
    if 'n' !in glyphs {
      return false, block;
    }
    var maxH := Largest(glyphs, false);
    var rows := WrapText(glyphs, width, text);
    if rows.None? || width < 0 {
      return false, block;
    }
    WrapLinesKnown(glyphs, width, SplitLines(text));
    ok, block := Render(glyphs, rows.value, width, maxH);
    assert Tallest(glyphs, maxH);
  }

  /** Every wrapped row has glyphs for all its characters. */
  lemma {:induction false} WrapLinesKnown(glyphs: Glyphs, width: int, lines: seq<string>)
    requires WrapLines(glyphs, width, lines).Some?
    ensures AllKnown(glyphs, WrapLines(glyphs, width, lines).value)
  {
    if lines != [] {
      var last := lines[|lines| - 1];
      WrapLinesKnown(glyphs, width, lines[..|lines| - 1]);
      RowsFit(glyphs, width, last);
      var a := WrapLines(glyphs, width, lines[..|lines| - 1]).value;
      var b := WrapLine(glyphs, width, last).value;
      forall r | 0 <= r < |a + b|
        ensures Known(glyphs, (a + b)[r])
      {
        if r >= |a| {
          assert (a + b)[r] == b[r - |a|];
          assert b[r - |a|] in b;
        }
      }
    }
  }

  // ----- zooming -----

  /** `a * b` as repeated addition, which keeps the index arithmetic of
      zooming and sampling linear. */
  function Times(a: nat, b: nat): (r: nat)
  {
    if a == 0 then 0 else b + Times(a - 1, b)
  }

  /** Repeated addition is multiplication. */
  lemma {:induction false} TimesIsProduct(a: nat, b: nat)
    ensures Times(a, b) == a * b
  {
    if a > 0 {
      TimesIsProduct(a - 1, b);
      assert a * b == b + (a - 1) * b;
    }
  }

  /** `numpy.repeat` along one axis: each element `z` times in a row. */
  function RepeatEach<T>(s: seq<T>, z: nat): (r: seq<T>)
    ensures |r| == Times(|s|, z)
  {
    if s == [] then [] else seq(z, _ => s[0]) + RepeatEach(s[1..], z)
  }

  /** Element `k` of the repeated sequence, in the `q`th run of `z`, is
      element `q` of the original. */
  lemma {:induction false} RepeatEachAt<T>(s: seq<T>, z: nat, q: nat, k: nat)
    requires q < |s| && Times(q, z) <= k < Times(q, z) + z
    ensures k < |RepeatEach(s, z)| && RepeatEach(s, z)[k] == s[q]
  {
    if q > 0 {
      RepeatEachAt(s[1..], z, q - 1, k - z);
    }
  }

  /** `zoom_pixels`: every pixel becomes a `z`-by-`z` square. */
  function Zoom(im: seq<seq<bool>>, z: nat): (out: seq<seq<bool>>)
    ensures |out| == Times(|im|, z)
  {
    RepeatEach(seq(|im|, i requires 0 <= i < |im| => RepeatEach(im[i], z)), z)
  }

  /** Every pixel `(qy, qx)` of the original fills the square of pixels
      `(y, x)` with `qy * z <= y < qy * z + z` and `qx * z <= x < qx * z + z`. */
  lemma ZoomAt(im: seq<seq<bool>>, z: nat, qy: nat, qx: nat, y: nat, x: nat)
    requires qy < |im| && qx < |im[qy]|
    requires Times(qy, z) <= y < Times(qy, z) + z && Times(qx, z) <= x < Times(qx, z) + z
    ensures y < |Zoom(im, z)| && |Zoom(im, z)[y]| == Times(|im[qy]|, z)
    ensures x < |Zoom(im, z)[y]| && Zoom(im, z)[y][x] == im[qy][qx]
  {
    var rows := seq(|im|, i requires 0 <= i < |im| => RepeatEach(im[i], z));
    RepeatEachAt(rows, z, qy, y);
    RepeatEachAt(im[qy], z, qx, x);
  }

  // ----- cutting glyphs out of a sheet -----

  /** `s[a:b]` for non-negative bounds, clipped to the sequence. */
  function Clip<T>(s: seq<T>, a: nat, b: nat): (r: seq<T>)
    ensures |r| <= |s|
    ensures forall i :: 0 <= i < |r| ==> a + i < b && a + i < |s| && r[i] == s[a + i]
    ensures |r| == (if a >= |s| || b <= a then 0 else (if b <= |s| then b else |s|) - a)
  {
    if a >= |s| || b <= a then [] else s[a..if b <= |s| then b else |s|]
  }

  /** `s[::z]`: every `z`th element, from the first. */
  function EveryNth<T>(s: seq<T>, z: nat): (r: seq<T>)
    requires z > 0
    ensures |r| <= |s| && (s != [] ==> r != [])
    decreases |s|
  {
    if s == [] then [] else [s[0]] + EveryNth(s[if z <= |s| then z else |s|..], z)
  }

  /** Element `i` of `s[::z]` is element `i * z` of `s`. */
  lemma {:induction false} EveryNthAt<T>(s: seq<T>, z: nat, i: nat)
    requires z > 0 && i < |EveryNth(s, z)|
    ensures Times(i, z) < |s| && EveryNth(s, z)[i] == s[Times(i, z)]
    decreases |s|
  {
    if i > 0 {
      var rest := s[if z <= |s| then z else |s|..];
      EveryNthAt(rest, z, i - 1);
    }
  }

  /** Rows of the same width. */
  predicate Rect(im: seq<seq<bool>>, w: nat)
  {
    forall i :: 0 <= i < |im| ==> |im[i]| == w
  }

  /** `im[y:y + ch, x:x + cw][::z, ::z]`: the cell of a sheet, sampled at
      every `z`th pixel to undo the sheet's zoom. */
  function Cell(im: seq<seq<bool>>, x: nat, y: nat, cw: nat, ch: nat, z: nat): (cell: seq<seq<bool>>)
    requires z > 0
  {
    Columns(EveryNth(Clip(im, y, y + ch), z), x, cw, z)
  }

  /** `rs[:, x:x + cw][:, ::z]`: the same columns sampled from each row. */
  function Columns(rs: seq<seq<bool>>, x: nat, cw: nat, z: nat): (cs: seq<seq<bool>>)
    requires z > 0
    ensures |cs| == |rs|
    ensures forall i :: 0 <= i < |rs| ==> cs[i] == EveryNth(Clip(rs[i], x, x + cw), z)
  {
    if rs == [] then [] else [EveryNth(Clip(rs[0], x, x + cw), z)] + Columns(rs[1..], x, cw, z)
  }

  /** Element `k` of `s[a:a + n][::z]` is element `a + k*z` of `s`. */
  lemma {:induction false} SampleAt<T>(s: seq<T>, a: nat, n: nat, z: nat, k: nat)
    requires z > 0 && k < |EveryNth(Clip(s, a, a + n), z)|
    ensures Times(k, z) < n && a + Times(k, z) < |s|
    ensures EveryNth(Clip(s, a, a + n), z)[k] == s[a + Times(k, z)]
  {
    var part := Clip(s, a, a + n);
    EveryNthAt(part, z, k);
    assert part[Times(k, z)] == s[a + Times(k, z)];
  }

  /** Row `i` of a cell samples the clipped sheet row `y + i*z`. */
  lemma {:induction false} CellRow(im: seq<seq<bool>>, x: nat, y: nat, cw: nat, ch: nat, z: nat, i: nat)
    requires z > 0
    requires i < |Cell(im, x, y, cw, ch, z)|
    ensures Times(i, z) < ch && y + Times(i, z) < |im|
    ensures Cell(im, x, y, cw, ch, z)[i] == EveryNth(Clip(im[y + Times(i, z)], x, x + cw), z)
  {
    SampleAt(im, y, ch, z, i);
  }

  /** How many elements `s[::z]` keeps of `n`. */
  function Sampled(n: nat, z: nat): (k: nat)
    requires z > 0
  {
    if n == 0 then 0 else 1 + Sampled(n - (if z <= n then z else n), z)
  }

  /** Sampling keeps `Sampled` elements. */
  lemma {:induction false} EveryNthLength<T>(s: seq<T>, z: nat)
    requires z > 0
    ensures |EveryNth(s, z)| == Sampled(|s|, z)
    decreases |s|
  {
    if s != [] {
      EveryNthLength(s[if z <= |s| then z else |s|..], z);
    }
  }

  /** The width of the cells at column `x` of a `w`-wide sheet. */
  function CellWidth(w: nat, x: nat, cw: nat, z: nat): nat
    requires z > 0
  {
    Sampled(if x >= w || x + cw <= x then 0 else (if x + cw <= w then x + cw else w) - x, z)
  }

  /** All cells of a rectangular sheet are rectangular. */
  lemma {:induction false} CellRect(im: seq<seq<bool>>, w: nat, x: nat, y: nat, cw: nat, ch: nat, z: nat)
    requires z > 0 && Rect(im, w)
    ensures Rect(Cell(im, x, y, cw, ch, z), CellWidth(w, x, cw, z))
  {
    forall i | 0 <= i < |Cell(im, x, y, cw, ch, z)|
      ensures |Cell(im, x, y, cw, ch, z)[i]| == CellWidth(w, x, cw, z)
    {
      CellRow(im, x, y, cw, ch, z, i);
      RowSampleWidth(im[y + Times(i, z)], w, x, cw, z);
    }
  }

  /** A `w`-wide row sampled like a cell at column `x` is `CellWidth` wide. */
  lemma {:induction false} RowSampleWidth(row: seq<bool>, w: nat, x: nat, cw: nat, z: nat)
    requires z > 0 && |row| == w
    ensures |EveryNth(Clip(row, x, x + cw), z)| == CellWidth(w, x, cw, z)
  {
    EveryNthLength(Clip(row, x, x + cw), z);
  }

  /** The last position of a row holding ink, or -1. */
  function LastInk(row: seq<bool>): (c: int)
    ensures -1 <= c < |row| && (c >= 0 ==> row[c])
    ensures forall j :: c < j < |row| ==> !row[j]
  {
    if row == [] then -1 else if row[|row| - 1] then |row| - 1 else LastInk(row[..|row| - 1])
  }

  /** The last row of a cell holding ink, or -1: `nzy.max()`. */
  function LastInkRow(cell: seq<seq<bool>>): (r: int)
    ensures -1 <= r < |cell| && (r >= 0 ==> LastInk(cell[r]) >= 0)
    ensures forall i :: r < i < |cell| ==> LastInk(cell[i]) == -1
  {
    if cell == [] then -1
    else if LastInk(cell[|cell| - 1]) >= 0 then |cell| - 1
    else LastInkRow(cell[..|cell| - 1])
  }

  /** The last column of a cell holding ink in any row, or -1: `nzx.max()`. */
  function LastInkCol(cell: seq<seq<bool>>): (c: int)
    ensures -1 <= c
    ensures forall i :: 0 <= i < |cell| ==> LastInk(cell[i]) <= c
    ensures c >= 0 ==> exists i :: 0 <= i < |cell| && LastInk(cell[i]) == c
  {
    if cell == [] then -1
    else
      var a := LastInkCol(cell[..|cell| - 1]);
      var b := LastInk(cell[|cell| - 1]);
      assert forall i :: 0 <= i < |cell| - 1 ==> cell[..|cell| - 1][i] == cell[i];
      if a >= b then a else b
  }

  /** Pixel `(i, j)` of a cell exists and is inked. */
  predicate Inked(cell: seq<seq<bool>>, i: int, j: int)
  {
    0 <= i < |cell| && 0 <= j < |cell[i]| && cell[i][j]
  }

  /** The glyph in a cell: the box from the cell's top left corner to its
      last inked row and column, or None when the cell has no ink. */
  function Crop(cell: seq<seq<bool>>, w: nat): (g: Option<Glyph>)
    requires Rect(cell, w)
    ensures g.None? <==> forall i, j :: !Inked(cell, i, j)
    ensures g.Some? ==> && Shaped(g.value) && 1 <= g.value.h <= |cell| && 1 <= g.value.w <= w
                        && forall i, j :: 0 <= i < g.value.h && 0 <= j < g.value.w ==>
                             g.value.px[i][j] == cell[i][j]
  {
    var r := LastInkRow(cell);
    if r < 0 then
      assert forall i :: 0 <= i < |cell| ==> LastInk(cell[i]) == -1;
      None
    else
      var c := LastInkCol(cell);
      assert Inked(cell, r, LastInk(cell[r]));
      assert c < w;
      Some(Glyph(r + 1, c + 1, seq(r + 1, i requires 0 <= i <= r => cell[i][..c + 1])))
  }

  /** The crop is tight: all the cell's ink is inside, the glyph's last
      row holds ink, and some row's last ink is in the glyph's last
      column. */
  lemma CropTight(cell: seq<seq<bool>>, w: nat)
    requires Rect(cell, w) && Crop(cell, w).Some?
    ensures var g := Crop(cell, w).value;
            && (forall i, j :: Inked(cell, i, j) ==> i < g.h && j < g.w)
            && LastInk(cell[g.h - 1]) >= 0
            && (exists i :: 0 <= i < |cell| && LastInk(cell[i]) == g.w - 1)
  {
    var r := LastInkRow(cell);
    var c := LastInkCol(cell);
    assert Inked(cell, r, LastInk(cell[r]));
    var i0 :| 0 <= i0 < |cell| && LastInk(cell[i0]) == c;
    assert Inked(cell, i0, c);
  }

  // ----- loading a sheet -----

  /** Where a sheet's cells are (`offset`, `spacing`), the zoom of its
      image (`unzoom`) and the characters of its cells (`layout`). */
  datatype Sheet = Sheet(offX: nat, offY: nat, cellW: nat, cellH: nat, unzoom: nat, layout: seq<string>)

  /** Why loading stops: a cell without ink in a sheet that inherits
      nothing, or no glyphs at all for the size computation. */
  datatype LoadError = EmptyCell(ch: char, x: nat, y: nat) | NoGlyphs

  /** A character of the layout and its cell's column and row. */
  datatype Place = Place(ch: char, cx: nat, cy: nat)

  function RowPlaces(row: string, cy: nat): (ps: seq<Place>)
    ensures |ps| == |row|
  {
    seq(|row|, cx requires 0 <= cx < |row| => Place(row[cx], cx, cy))
  }

  /** The layout's cells, row by row, left to right. */
  function Places(layout: seq<string>): (ps: seq<Place>)
  {
    if layout == [] then [] else Places(layout[..|layout| - 1]) + RowPlaces(layout[|layout| - 1], |layout| - 1)
  }

  /** The cells of the first rows come first. */
  lemma {:induction false} PlacesPrefix(layout: seq<string>, n: nat)
    requires n <= |layout|
    ensures Places(layout[..n]) <= Places(layout)
    decreases |layout| - n
  {
    if n < |layout| {
      PlacesPrefix(layout, n + 1);
      assert layout[..n + 1][..n] == layout[..n];
    } else {
      assert layout[..n] == layout;
    }
  }

  /** The glyph cropped from the cell of `p`. */
  function CellGlyph(im: seq<seq<bool>>, w: nat, sheet: Sheet, p: Place): (g: Option<Glyph>)
    requires sheet.unzoom > 0 && Rect(im, w)
  {
    var x := sheet.offX + p.cx * sheet.cellW;
    var y := sheet.offY + p.cy * sheet.cellH;
    CellRect(im, w, x, y, sheet.cellW, sheet.cellH, sheet.unzoom);
    Crop(Cell(im, x, y, sheet.cellW, sheet.cellH, sheet.unzoom), CellWidth(w, x, sheet.cellW, sheet.unzoom))
  }

  /** One step of the cell loop: whitespace is skipped, an empty cell is
      an error unless the sheet inherits, otherwise the cropped glyph
      replaces any earlier one for its character. */
  function Take(im: seq<seq<bool>>, w: nat, sheet: Sheet, inherits: bool,
                acc: Result<Glyphs, LoadError>, p: Place): (r: Result<Glyphs, LoadError>)
    requires sheet.unzoom > 0 && Rect(im, w)
  {
    if acc.Err? || IsPySpace(p.ch) then acc
    else
      var g := CellGlyph(im, w, sheet, p);
      if g.None? then
        (if inherits then acc
         else Err(EmptyCell(p.ch, sheet.offX + p.cx * sheet.cellW, sheet.offY + p.cy * sheet.cellH)))
      else Ok(acc.value[p.ch := g.value])
  }

  /** The cell loop over `ps`, from `acc`. */
  function Fold(im: seq<seq<bool>>, w: nat, sheet: Sheet, inherits: bool, acc: Result<Glyphs, LoadError>, ps: seq<Place>)
    : (r: Result<Glyphs, LoadError>)
    requires sheet.unzoom > 0 && Rect(im, w)
  {
    if ps == [] then acc
    else Take(im, w, sheet, inherits, Fold(im, w, sheet, inherits, acc, ps[..|ps| - 1]), ps[|ps| - 1])
  }

  /** The cell loop over the whole layout, from the inherited glyphs. */
  function Collect(im: seq<seq<bool>>, w: nat, sheet: Sheet, inherits: bool, base: Glyphs, ps: seq<Place>)
    : (r: Result<Glyphs, LoadError>)
    requires sheet.unzoom > 0 && Rect(im, w)
  {
    Fold(im, w, sheet, inherits, Ok(base), ps)
  }

  /** Looping over two runs of cells is looping over the first, then the
      second. */
  lemma {:induction false} FoldAppend(im: seq<seq<bool>>, w: nat, sheet: Sheet, inherits: bool,
                                      acc: Result<Glyphs, LoadError>, ps: seq<Place>, qs: seq<Place>)
    requires sheet.unzoom > 0 && Rect(im, w)
    ensures Fold(im, w, sheet, inherits, acc, ps + qs)
         == Fold(im, w, sheet, inherits, Fold(im, w, sheet, inherits, acc, ps), qs)
    decreases |qs|
  {
    if qs == [] {
      assert ps + qs == ps;
    } else {
      assert (ps + qs)[..|ps + qs| - 1] == ps + qs[..|qs| - 1];
      FoldAppend(im, w, sheet, inherits, acc, ps, qs[..|qs| - 1]);
    }
  }

  /** An error ends the loop: later cells do not change it. */
  lemma {:induction false} FoldErrSticks(im: seq<seq<bool>>, w: nat, sheet: Sheet, inherits: bool,
                                         acc: Result<Glyphs, LoadError>, ps: seq<Place>)
    requires sheet.unzoom > 0 && Rect(im, w) && acc.Err?
    ensures Fold(im, w, sheet, inherits, acc, ps) == acc
  {
    if ps != [] {
      FoldErrSticks(im, w, sheet, inherits, acc, ps[..|ps| - 1]);
    }
  }

  /** One more cell of the loop is one more `Take`. */
  lemma FoldNext(im: seq<seq<bool>>, w: nat, sheet: Sheet, inherits: bool,
                 acc: Result<Glyphs, LoadError>, ps: seq<Place>, k: nat)
    requires sheet.unzoom > 0 && Rect(im, w) && k < |ps|
    ensures Fold(im, w, sheet, inherits, acc, ps[..k + 1])
         == Take(im, w, sheet, inherits, Fold(im, w, sheet, inherits, acc, ps[..k]), ps[k])
  {
    assert ps[..k + 1][..k] == ps[..k];
  }

  /** Once the loop has failed, the rest of the cells change nothing. */
  lemma FoldStops(im: seq<seq<bool>>, w: nat, sheet: Sheet, inherits: bool,
                  acc: Result<Glyphs, LoadError>, ps: seq<Place>, k: nat)
    requires sheet.unzoom > 0 && Rect(im, w) && k < |ps|
    requires Fold(im, w, sheet, inherits, acc, ps[..k + 1]).Err?
    ensures Fold(im, w, sheet, inherits, acc, ps) == Fold(im, w, sheet, inherits, acc, ps[..k + 1])
  {
    FoldAppend(im, w, sheet, inherits, acc, ps[..k + 1], ps[k + 1..]);
    FoldErrSticks(im, w, sheet, inherits, Fold(im, w, sheet, inherits, acc, ps[..k + 1]), ps[k + 1..]);
    assert ps[..k + 1] + ps[k + 1..] == ps;
  }

  /** The glyph loop keeps every glyph it adds in shape. */
  lemma {:induction false} CollectShaped(im: seq<seq<bool>>, w: nat, sheet: Sheet, inherits: bool, base: Glyphs,
                                         ps: seq<Place>)
    requires sheet.unzoom > 0 && Rect(im, w) && AllShaped(base)
    requires Collect(im, w, sheet, inherits, base, ps).Ok?
    ensures AllShaped(Collect(im, w, sheet, inherits, base, ps).value)
    ensures forall c :: c in Collect(im, w, sheet, inherits, base, ps).value && c !in base ==>
              var g := Collect(im, w, sheet, inherits, base, ps).value[c];
              g.h >= 1 && g.w >= 1
  {
    if ps != [] {
      CollectShaped(im, w, sheet, inherits, base, ps[..|ps| - 1]);
    }
  }

  /** The size of a glyph along one axis. */
  function Dim(g: Glyph, wide: bool): nat
  {
    if wide then g.w else g.h
  }

  /** The largest glyph size along one axis. */
  ghost function MaxDim(glyphs: Glyphs, wide: bool): (m: nat)
    requires glyphs != map[]
    ensures forall c :: c in glyphs ==> Dim(glyphs[c], wide) <= m
    ensures exists c :: c in glyphs && Dim(glyphs[c], wide) == m
    decreases |glyphs.Keys|
  {
    var c :| c in glyphs;
    var rest := glyphs - {c};
    assert forall k :: k in glyphs && k != c ==> k in rest && rest[k] == glyphs[k];
    if rest == map[] then
      Dim(glyphs[c], wide)
    else
      assert |rest.Keys| < |glyphs.Keys| by {
        assert rest.Keys < glyphs.Keys;
      }
      var m := MaxDim(rest, wide);
      if m >= Dim(glyphs[c], wide) then m else Dim(glyphs[c], wide)
  }

  /** A blank glyph. */
  function Blank(h: nat, w: nat): (g: Glyph)
    ensures Shaped(g)
  {
    Glyph(h, w, seq(h, _ => seq(w, _ => false)))
  }

  /** The space rule: a font without a space glyph gets a blank one as
      high as the tallest glyph and a quarter of the widest glyph's width,
      rounded up. */
  ghost function WithSpace(glyphs: Glyphs): (r: Result<Glyphs, LoadError>)
  {
    if glyphs == map[] then Err(NoGlyphs)
    else if ' ' in glyphs then Ok(glyphs)
    else Ok(glyphs[' ' := Blank(MaxDim(glyphs, false), (MaxDim(glyphs, true) + 3) / 4)])
  }

  /** The inherited glyphs: the other font's when the sheet inherits. */
  function BaseOf(inherited: Option<Glyphs>): Glyphs
  {
    if inherited.Some? then inherited.value else map[]
  }

  /** The glyphs `load_fonts` gives one sheet. */
  ghost function SheetGlyphs(im: seq<seq<bool>>, w: nat, sheet: Sheet, inherited: Option<Glyphs>)
    : Result<Glyphs, LoadError>
    requires sheet.unzoom > 0 && Rect(im, w)
  {
    var r := Collect(im, w, sheet, inherited.Some?, BaseOf(inherited), Places(sheet.layout));
    if r.Err? then r else WithSpace(r.value)
  }

  /** The body of `load_fonts` for one sheet of a `w`-wide image. */
  method LoadSheet(im: seq<seq<bool>>, w: nat, sheet: Sheet, inherited: Option<Glyphs>)
    returns (r: Result<Glyphs, LoadError>)
    requires sheet.unzoom > 0 && Rect(im, w)
    ensures r == SheetGlyphs(im, w, sheet, inherited)
  {
    var inherits := inherited.Some?;
    ghost var base := BaseOf(inherited);
    var glyphs := BaseOf(inherited);
    var layout := sheet.layout;
    for cy := 0 to |layout|
      invariant Collect(im, w, sheet, inherits, base, Places(layout[..cy])) == Ok(glyphs)
    {
      ghost var done := Places(layout[..cy]);
      assert Places(layout[..cy + 1]) == done + RowPlaces(layout[cy], cy) by {
        assert layout[..cy + 1][..cy] == layout[..cy];
      }
      FoldAppend(im, w, sheet, inherits, Ok(base), done, RowPlaces(layout[cy], cy));
      var step := LoadRow(im, w, sheet, inherits, glyphs, layout[cy], cy);
      if step.Err? {
        ghost var all := Places(layout);
        ghost var upto := Places(layout[..cy + 1]);
        assert all == upto + all[|upto|..] by {
          PlacesPrefix(layout, cy + 1);
        }
        FoldAppend(im, w, sheet, inherits, Ok(base), upto, all[|upto|..]);
        FoldErrSticks(im, w, sheet, inherits, step, all[|upto|..]);
        return step;
      }
      glyphs := step.value;
    }
    assert layout[..|layout|] == layout;
    r := AddSpace(glyphs);
  }

  /** The inner loop of `load_fonts`: the cells of one layout row. */
  method LoadRow(im: seq<seq<bool>>, w: nat, sheet: Sheet, inherits: bool, glyphs: Glyphs, row: string, cy: nat)
    returns (r: Result<Glyphs, LoadError>)
    requires sheet.unzoom > 0 && Rect(im, w)
    ensures r == Fold(im, w, sheet, inherits, Ok(glyphs), RowPlaces(row, cy))
  {
    var acc := glyphs;
    ghost var ps := RowPlaces(row, cy);
    for cx := 0 to |row|
      invariant Fold(im, w, sheet, inherits, Ok(glyphs), ps[..cx]) == Ok(acc)
    {
      FoldNext(im, w, sheet, inherits, Ok(glyphs), ps, cx);
      var step := TakeCell(im, w, sheet, inherits, acc, Place(row[cx], cx, cy));
      if step.Err? {
        FoldStops(im, w, sheet, inherits, Ok(glyphs), ps, cx);
        return step;
      }
      acc := step.value;
    }
    assert ps[..|row|] == ps;
    return Ok(acc);
  }

  /** The end of `load_fonts` for one sheet: the size computation, and a
      blank space glyph when the sheet has none. */
  method AddSpace(glyphs: Glyphs) returns (r: Result<Glyphs, LoadError>)
    ensures r == WithSpace(glyphs)
  {
    if glyphs == map[] {
      return Err(NoGlyphs);
    }
    var maxW := Largest(glyphs, true);
    var maxH := Largest(glyphs, false);
    SameMax(glyphs, true, maxW);
    SameMax(glyphs, false, maxH);
    if ' ' !in glyphs {
      return Ok(glyphs[' ' := Blank(maxH, (maxW + 3) / 4)]);
    }
    return Ok(glyphs);
  }

  /** One cell of the loop: skip whitespace, crop the glyph, and fail on
      an empty cell unless the sheet inherits. */
  method TakeCell(im: seq<seq<bool>>, w: nat, sheet: Sheet, inherits: bool, glyphs: Glyphs, p: Place)
    returns (r: Result<Glyphs, LoadError>)
    requires sheet.unzoom > 0 && Rect(im, w)
    ensures r == Take(im, w, sheet, inherits, Ok(glyphs), p)
  {
    if IsPySpace(p.ch) {
      return Ok(glyphs);
    }
    var g := CellGlyph(im, w, sheet, p);
    if g.None? {
      if !inherits {
        return Err(EmptyCell(p.ch, sheet.offX + p.cx * sheet.cellW, sheet.offY + p.cy * sheet.cellH));
      }
      return Ok(glyphs);
    }
    return Ok(glyphs[p.ch := g.value]);
  }

  /** A size that bounds every glyph and is attained is the largest. */
  lemma SameMax(glyphs: Glyphs, wide: bool, m: nat)
    requires glyphs != map[]
    requires forall c :: c in glyphs ==> Dim(glyphs[c], wide) <= m
    requires exists c :: c in glyphs && Dim(glyphs[c], wide) == m
    ensures m == MaxDim(glyphs, wide)
  {
    var c1 :| c1 in glyphs && Dim(glyphs[c1], wide) == m;
    var c2 :| c2 in glyphs && Dim(glyphs[c2], wide) == MaxDim(glyphs, wide);
  }

  /** The space rule keeps every glyph, adds a space glyph when there is
      none, and keeps glyphs in shape. */
  lemma WithSpaceRule(glyphs: Glyphs)
    requires glyphs != map[]
    ensures WithSpace(glyphs).Ok? && ' ' in WithSpace(glyphs).value
    ensures forall c :: c in glyphs ==> c in WithSpace(glyphs).value && WithSpace(glyphs).value[c] == glyphs[c]
    ensures AllShaped(glyphs) ==> AllShaped(WithSpace(glyphs).value)
  {
  }

  /** A loaded font always has a space glyph and every glyph is in shape;
      a space glyph the sheet did not provide is blank, as high as the
      tallest glyph and a quarter of the widest glyph's width, rounded up;
      and a sheet without glyphs fails. */
  lemma SheetHasSpace(im: seq<seq<bool>>, w: nat, sheet: Sheet, inherited: Option<Glyphs>)
    requires sheet.unzoom > 0 && Rect(im, w) && AllShaped(BaseOf(inherited))
    requires Collect(im, w, sheet, inherited.Some?, BaseOf(inherited), Places(sheet.layout)).Ok?
    ensures var collected := Collect(im, w, sheet, inherited.Some?, BaseOf(inherited), Places(sheet.layout)).value;
            && (collected == map[] <==> SheetGlyphs(im, w, sheet, inherited) == Err(NoGlyphs))
            && (collected != map[] ==>
                  var glyphs := SheetGlyphs(im, w, sheet, inherited).value;
                  && ' ' in glyphs && AllShaped(glyphs)
                  && (' ' !in collected ==>
                        glyphs[' '] == Blank(MaxDim(collected, false), (MaxDim(collected, true) + 3) / 4)))
  {
    var collected := Collect(im, w, sheet, inherited.Some?, BaseOf(inherited), Places(sheet.layout)).value;
    CollectShaped(im, w, sheet, inherited.Some?, BaseOf(inherited), Places(sheet.layout));
    if collected != map[] {
      WithSpaceRule(collected);
    }
  }
}
