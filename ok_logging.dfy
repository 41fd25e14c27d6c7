/** The configuration side of the `ok_logging` library: a config string of
    "glob=level" entries, searched for the first glob matching a logging
    tag, decides the level from which that tag's messages are emitted.
    C strings are sequences of chars without NUL, and a pointer pair
    `(p, end)` into one is a pair of indices. */
module OkLogging {
  import opened Common

  /** The levels in their enumeration order. */
  datatype Level = Spam | Note | Problem | Fatal

  function Rank(l: Level): (n: nat)
    ensures n < 4
  {
    match l
    case Spam => 0
    case Note => 1
    case Problem => 2
    case Fatal => 3
  }

  /** What the configuration code reports through the log while it parses. */
  datatype Report = BadEntry(text: string) | BadLevel(text: string)

  // ----- next_of -----

  /** The first position in `[p, end)` holding a character of `m`, or
      `end`. */
  function FirstOf(s: string, p: nat, end: nat, m: set<char>): (q: nat)
    requires p <= end <= |s|
    ensures p <= q <= end
    ensures q < end ==> s[q] in m
    decreases end - p
  {
    if p < end && s[p] !in m then FirstOf(s, p + 1, end, m) else p
  }

  /** Nothing before `FirstOf` is in `m`. */
  lemma {:induction false} FirstOfIsFirst(s: string, p: nat, end: nat, m: set<char>)
    requires p <= end <= |s|
    ensures forall i :: p <= i < FirstOf(s, p, end, m) ==> s[i] !in m
    decreases end - p
  {
    if p < end && s[p] !in m {
      FirstOfIsFirst(s, p + 1, end, m);
    }
  }

  /** `next_of`. */
  method NextOf(s: string, p: nat, end: nat, m: set<char>) returns (q: nat)
    requires p <= end <= |s|
    ensures q == FirstOf(s, p, end, m)
  {
    q := p;
    while q < end && s[q] !in m
      invariant p <= q <= end
      invariant FirstOf(s, p, end, m) == FirstOf(s, q, end, m)
      decreases end - q
    {
      q := q + 1;
    }
  }

  // ----- glob_match -----

  /** Case-insensitive equality in the sense of C `strncasecmp(a, b, n) == 0`
      over `n` characters of each. */
  predicate CaseEq(a: string, b: string)
    decreases |a|
  {
    |a| == |b| && (a == [] || (AsciiLower(a[0]) == AsciiLower(b[0]) && CaseEq(a[1..], b[1..])))
  }

  /** The string in ASCII lower case. */
  function LowerString(s: string): (r: string)
    ensures |r| == |s|
  {
    if s == [] then [] else [AsciiLower(s[0])] + LowerString(s[1..])
  }

  /** Case-insensitive equality is equality of the lower-cased strings. */
  lemma {:induction false} CaseEqLower(a: string, b: string)
    ensures CaseEq(a, b) <==> LowerString(a) == LowerString(b)
    decreases |a|
  {
    if |a| == |b| && a != [] {
      CaseEqLower(a[1..], b[1..]);
      var la, lb := LowerString(a), LowerString(b);
      assert la == [AsciiLower(a[0])] + LowerString(a[1..]);
      assert lb == [AsciiLower(b[0])] + LowerString(b[1..]);
      if la == lb {
        assert la[0] == lb[0] && la[1..] == lb[1..];
      }
    }
  }

  /** `strncasecmp(t + i, g + a, b - a) == 0` for a tag `t` and a glob `g`:
      the tag holds the glob's text `[a, b)` at `i`, ignoring ASCII case. A
      tag shorter than that ends in its NUL, which differs from every
      character of the glob. */
  predicate MatchesAt(t: string, i: int, g: string, a: nat, b: nat)
    requires a <= b <= |g|
  {
    0 <= i && i + (b - a) <= |t|
    && forall j :: i <= j < i + (b - a) ==> AsciiLower(t[j]) == AsciiLower(g[a + (j - i)])
  }

  /** The earliest position at or after `p` where `t` holds the glob's text
      `[a, b)`. */
  function Earliest(t: string, p: nat, g: string, a: nat, b: nat): (r: Option<nat>)
    requires a <= b <= |g|
    decreases |t| - p
  {
    if p + (b - a) > |t| then None
    else if MatchesAt(t, p, g, a, b) then Some(p)
    else Earliest(t, p + 1, g, a, b)
  }

  /** The earliest occurrence is an occurrence, at or after `p`. */
  lemma {:induction false} EarliestFound(t: string, p: nat, g: string, a: nat, b: nat)
    requires a <= b <= |g| && Earliest(t, p, g, a, b).Some?
    ensures p <= Earliest(t, p, g, a, b).value && MatchesAt(t, Earliest(t, p, g, a, b).value, g, a, b)
    decreases |t| - p
  {
    if !MatchesAt(t, p, g, a, b) {
      EarliestFound(t, p + 1, g, a, b);
    }
  }

  /** No occurrence comes before the earliest one. */
  lemma {:induction false} EarliestIsFirst(t: string, p: nat, g: string, a: nat, b: nat, j: nat)
    requires a <= b <= |g| && p <= j && MatchesAt(t, j, g, a, b)
    ensures Earliest(t, p, g, a, b).Some? && Earliest(t, p, g, a, b).value <= j
    decreases |t| - p
  {
    if p + (b - a) <= |t| && !MatchesAt(t, p, g, a, b) {
      EarliestIsFirst(t, p + 1, g, a, b, j);
    }
  }

  /** The end of the glob's segment starting at `gi`: the next '*' or the
      end of the glob. */
  function SegmentEnd(g: string, gi: nat): (ns: nat)
    requires gi <= |g|
    ensures gi <= ns <= |g|
  {
    FirstOf(g, gi, |g|, {'*'})
  }

  /** The matching loop from the segment at `gi`, which follows a '*', with
      the tag consumed up to `mi`: every segment before the last is taken at
      its earliest occurrence, and the last must end the tag. */
  function Greedy(g: string, gi: nat, t: string, mi: nat): (ok: bool)
    requires gi <= |g|
    decreases |g| - gi
  {
    var ns := SegmentEnd(g, gi);
    if ns == |g| then |t| - mi >= |g| - gi && MatchesAt(t, |t| - (|g| - gi), g, gi, |g|)
    else
      var e := Earliest(t, mi, g, gi, ns);
      e.Some? && Greedy(g, ns + 1, t, e.value + (ns - gi))
  }

  /** What `glob_match` computes: the text before the first '*' starts the
      tag, and the rest is matched greedily. */
  function GlobSpec(g: string, t: string): (ok: bool)
  {
    var ns := SegmentEnd(g, 0);
    MatchesAt(t, 0, g, 0, ns) && (ns == |g| || Greedy(g, ns + 1, t, ns))
  }

  /** One step of `Greedy` at a segment that ends in '*' at `ns`: the
      segment is found at `e`, and the rest is matched after it. */
  lemma GreedyFound(g: string, gi: nat, ns: nat, t: string, mi: nat, e: nat)
    requires gi <= |g| && ns == SegmentEnd(g, gi) && ns < |g|
    requires Earliest(t, mi, g, gi, ns) == Some(e)
    ensures Greedy(g, gi, t, mi) == Greedy(g, ns + 1, t, e + (ns - gi))
  {
  }

  /** One step of `Greedy` at a segment that ends in '*' and is missing. */
  lemma GreedyMissing(g: string, gi: nat, ns: nat, t: string, mi: nat)
    requires gi <= |g| && ns == SegmentEnd(g, gi) && ns < |g|
    requires Earliest(t, mi, g, gi, ns) == None
    ensures !Greedy(g, gi, t, mi)
  {
  }

  /** The inner loop of `glob_match`: the tag is searched for the glob's
      text `[a, b)` from `from` on, up to the last position where it still
      fits. */
  method SearchSegment(t: string, from: nat, g: string, a: nat, b: nat) returns (found: Option<nat>)
    requires a <= b <= |g|
    ensures found == Earliest(t, from, g, a, b)
  {
    var m := from;
    var lastMatch := |t| - (b - a);
    while !MatchesAt(t, m, g, a, b)
      invariant from <= m && Earliest(t, from, g, a, b) == Earliest(t, m, g, a, b)
      decreases |t| - m
    {
      m := m + 1;
      if m > lastMatch {
        return None;
      }
    }
    return Some(m);
  }

  /** `glob_match` over the glob `g` and the tag `t`. */
  method GlobMatch(g: string, t: string) returns (ok: bool)
    ensures ok == GlobSpec(g, t)
  {
    var nextStar := NextOf(g, 0, |g|, {'*'});
    if !MatchesAt(t, 0, g, 0, nextStar) {
      return false;
    }
    if nextStar >= |g| {
      return true;
    }
    ok := MatchRest(g, t, nextStar + 1, nextStar);
  }

  /** The middle loop and the suffix check of `glob_match`, from the
      segment at `gi` and the tag position `mi`. */
  method MatchRest(g: string, t: string, gi: nat, mi: nat) returns (ok: bool)
    requires 0 < gi <= |g|
    ensures ok == Greedy(g, gi, t, mi)
  {
    var g1: nat, m1: nat := gi, mi;
    while true
      invariant 0 < g1 <= |g| && Greedy(g, gi, t, mi) == Greedy(g, g1, t, m1)
      decreases |g| - g1
    {
      var nextStar := NextOf(g, g1, |g|, {'*'});
      if nextStar >= |g| {
        break;
      }
      var found := SearchSegment(t, m1, g, g1, nextStar);
      if found.None? {
        GreedyMissing(g, g1, nextStar, t, m1);
        return false;
      }
      GreedyFound(g, g1, nextStar, t, m1, found.value);
      m1 := found.value + (nextStar - g1);
      g1 := nextStar + 1;
    }
    ok := |t| - m1 >= |g| - g1 && MatchesAt(t, |t| - (|g| - g1), g, g1, |g|);
  }

  /** Reference semantics of a glob after its first '*': its segments can be
      placed in order, without overlap, the last one ending the tag. */
  ghost predicate Placed(g: string, gi: nat, t: string, p: int)
    requires gi <= |g|
    decreases |g| - gi
  {
    var ns := SegmentEnd(g, gi);
    if ns == |g| then p <= |t| - (|g| - gi) && MatchesAt(t, |t| - (|g| - gi), g, gi, |g|)
    else exists i :: p <= i && MatchesAt(t, i, g, gi, ns) && Placed(g, ns + 1, t, i + (ns - gi))
  }

  /** Reference semantics of a glob: the text before the first '*' starts
      the tag and the rest can be placed; without a '*' the glob need only
      start the tag. */
  ghost predicate GlobRef(g: string, t: string)
  {
    var ns := SegmentEnd(g, 0);
    MatchesAt(t, 0, g, 0, ns) && (ns == |g| || Placed(g, ns + 1, t, ns))
  }

  /** A placement that starts later can also start earlier. */
  lemma PlacedEarlier(g: string, gi: nat, t: string, p: int, q: int)
    requires gi <= |g| && p <= q && Placed(g, gi, t, q)
    ensures Placed(g, gi, t, p)
  {
    var ns := SegmentEnd(g, gi);
    if ns < |g| {
      var i :| q <= i && MatchesAt(t, i, g, gi, ns) && Placed(g, ns + 1, t, i + (ns - gi));
      assert p <= i;
    }
  }

  /** A greedy match is a placement. */
  lemma {:induction false} GreedyIsSound(g: string, gi: nat, t: string, p: nat)
    requires gi <= |g| && Greedy(g, gi, t, p)
    ensures Placed(g, gi, t, p)
    decreases |g| - gi
  {
    if SegmentEnd(g, gi) < |g| {
      EarliestFound(t, p, g, gi, SegmentEnd(g, gi));
      GreedyIsSound(g, SegmentEnd(g, gi) + 1, t, Earliest(t, p, g, gi, SegmentEnd(g, gi)).value + (SegmentEnd(g, gi) - gi));
      PlacedAt(g, gi, t, p, Earliest(t, p, g, gi, SegmentEnd(g, gi)).value);
    }
  }

  /** A placement of the first segment at `i`, with the rest placed after
      it, is a placement. */
  lemma PlacedAt(g: string, gi: nat, t: string, p: int, i: int)
    requires gi <= |g| && SegmentEnd(g, gi) < |g| && p <= i && MatchesAt(t, i, g, gi, SegmentEnd(g, gi))
    requires Placed(g, SegmentEnd(g, gi) + 1, t, i + (SegmentEnd(g, gi) - gi))
    ensures Placed(g, gi, t, p)
  {
  }

  /** Taking each segment at its earliest occurrence loses no match. */
  lemma {:induction false} GreedyIsComplete(g: string, gi: nat, t: string, p: nat)
    requires gi <= |g| && Placed(g, gi, t, p)
    ensures Greedy(g, gi, t, p)
    decreases |g| - gi
  {
    var ns := SegmentEnd(g, gi);
    if ns < |g| {
      var e := PlacedFromEarliest(g, gi, t, p);
      GreedyIsComplete(g, ns + 1, t, e + (ns - gi));
      GreedyTakes(g, gi, t, p, e);
    }
  }

  /** A placement of the segments from `gi` can take the first segment at
      its earliest occurrence. */
  lemma PlacedFromEarliest(g: string, gi: nat, t: string, p: nat) returns (e: nat)
    requires gi <= |g| && SegmentEnd(g, gi) < |g| && Placed(g, gi, t, p)
    ensures Earliest(t, p, g, gi, SegmentEnd(g, gi)) == Some(e)
    ensures Placed(g, SegmentEnd(g, gi) + 1, t, e + (SegmentEnd(g, gi) - gi))
  {
    var ns := SegmentEnd(g, gi);
    var i :| p <= i && MatchesAt(t, i, g, gi, ns) && Placed(g, ns + 1, t, i + (ns - gi));
    EarliestIsFirst(t, p, g, gi, ns, i);
    e := Earliest(t, p, g, gi, ns).value;
    PlacedEarlier(g, ns + 1, t, e + (ns - gi), i + (ns - gi));
  }

  /** The greedy match goes on from the earliest occurrence of the segment. */
  lemma GreedyTakes(g: string, gi: nat, t: string, p: nat, e: nat)
    requires gi <= |g| && SegmentEnd(g, gi) < |g| && Earliest(t, p, g, gi, SegmentEnd(g, gi)) == Some(e)
    requires Greedy(g, SegmentEnd(g, gi) + 1, t, e + (SegmentEnd(g, gi) - gi))
    ensures Greedy(g, gi, t, p)
  {
  }

  /** `glob_match` agrees with the reference semantics. */
  lemma GlobMatchIsGlob(g: string, t: string)
    ensures GlobSpec(g, t) <==> GlobRef(g, t)
  {
    var ns := SegmentEnd(g, 0);
    if ns < |g| {
      if Greedy(g, ns + 1, t, ns) {
        GreedyIsSound(g, ns + 1, t, ns);
      }
      if Placed(g, ns + 1, t, ns) {
        GreedyIsComplete(g, ns + 1, t, ns);
      }
    }
  }

  /** A glob without '*' matches exactly the tags it starts,
      case-insensitively. */
  lemma NoStarIsPrefix(g: string, t: string)
    requires '*' !in g
    ensures GlobSpec(g, t) <==> MatchesAt(t, 0, g, 0, |g|)
  {
    assert forall i :: 0 <= i < |g| ==> g[i] != '*';
    assert SegmentEnd(g, 0) == |g|;
  }

  /** The text before the first '*' must start the tag. */
  lemma PrefixRequired(g: string, t: string)
    requires GlobSpec(g, t)
    ensures MatchesAt(t, 0, g, 0, SegmentEnd(g, 0))
  {
  }

  /** "*" alone matches every tag. */
  lemma StarMatchesAll(t: string)
    ensures GlobSpec("*", t)
  {
    assert SegmentEnd("*", 0) == 0;
    assert SegmentEnd("*", 1) == 1;
  }

  /** The text after the last '*' must end the tag. */
  lemma {:induction false} GreedyLast(g: string, gi: nat, t: string, mi: nat, k: nat)
    requires 0 < gi <= k + 1 <= |g| && g[k] == '*'
    requires forall j :: k < j < |g| ==> g[j] != '*'
    requires Greedy(g, gi, t, mi)
    ensures |g| - (k + 1) <= |t| && MatchesAt(t, |t| - (|g| - (k + 1)), g, k + 1, |g|)
    decreases |g| - gi
  {
    var ns := SegmentEnd(g, gi);
    if ns < |g| {
      assert ns <= k by {
        FirstOfIsFirst(g, gi, |g|, {'*'});
      }
      var e := Earliest(t, mi, g, gi, ns);
      GreedyLast(g, ns + 1, t, e.value + (ns - gi), k);
    } else {
      assert gi == k + 1 by {
        FirstOfIsFirst(g, gi, |g|, {'*'});
      }
    }
  }

  /** A matching glob with a '*' ends the tag with the text after its last
      '*'. */
  lemma SuffixRequired(g: string, t: string, k: nat)
    requires k < |g| && g[k] == '*' && forall j :: k < j < |g| ==> g[j] != '*'
    requires GlobSpec(g, t)
    ensures |g| - (k + 1) <= |t| && MatchesAt(t, |t| - (|g| - (k + 1)), g, k + 1, |g|)
  {
    var ns := SegmentEnd(g, 0);
    assert ns <= k by {
      FirstOfIsFirst(g, 0, |g|, {'*'});
    }
    GreedyLast(g, ns + 1, t, ns, k);
  }

  // ----- trim -----

  predicate IsTrimSpace(c: char)
  {
    c == ' ' || c == '\t' || c == '\n'
  }

  /** Where the first loop of `trim` stops. */
  function SkipSpace(s: string, p: nat, end: nat): (q: nat)
    requires p <= end <= |s|
    ensures p <= q <= end && (q < end ==> !IsTrimSpace(s[q]))
    decreases end - p
  {
    if p < end && IsTrimSpace(s[p]) then SkipSpace(s, p + 1, end) else p
  }

  /** What the first loop of `trim` skips is space. */
  lemma {:induction false} SkipSpaceSkips(s: string, p: nat, end: nat)
    requires p <= end <= |s|
    ensures forall i :: p <= i < SkipSpace(s, p, end) ==> IsTrimSpace(s[i])
    decreases end - p
  {
    if p < end && IsTrimSpace(s[p]) {
      SkipSpaceSkips(s, p + 1, end);
    }
  }

  /** Where the second loop of `trim` stops. */
  function BackSpace(s: string, p: nat, end: nat): (q: nat)
    requires p <= end <= |s|
    ensures p <= q <= end && (q > p ==> !IsTrimSpace(s[q - 1]))
    decreases end - p
  {
    if p < end && IsTrimSpace(s[end - 1]) then BackSpace(s, p, end - 1) else end
  }

  /** What the second loop of `trim` drops is space. */
  lemma {:induction false} BackSpaceDrops(s: string, p: nat, end: nat)
    requires p <= end <= |s|
    ensures forall i :: BackSpace(s, p, end) <= i < end ==> IsTrimSpace(s[i])
    decreases end - p
  {
    if p < end && IsTrimSpace(s[end - 1]) {
      BackSpaceDrops(s, p, end - 1);
    }
  }

  /** `trim`: narrows `[p, end)` past leading and trailing space, tab and
      newline, staying within the original bounds. */
  method Trim(s: string, p: nat, end: nat) returns (p2: nat, end2: nat)
    requires p <= end <= |s|
    ensures p2 == SkipSpace(s, p, end) && end2 == BackSpace(s, p2, end)
    ensures p <= p2 <= end2 <= end
    ensures p2 < end2 ==> !IsTrimSpace(s[p2]) && !IsTrimSpace(s[end2 - 1])
    ensures forall i :: p <= i < p2 || end2 <= i < end ==> IsTrimSpace(s[i])
  {
    p2 := p;
    while p2 < end && IsTrimSpace(s[p2])
      invariant p <= p2 <= end && SkipSpace(s, p, end) == SkipSpace(s, p2, end)
      decreases end - p2
    {
      p2 := p2 + 1;
    }
    SkipSpaceSkips(s, p, end);
    end2 := end;
    while p2 < end2 && IsTrimSpace(s[end2 - 1])
      invariant p2 <= end2 <= end && BackSpace(s, p2, end) == BackSpace(s, p2, end2)
      decreases end2
    {
      end2 := end2 - 1;
    }
    BackSpaceDrops(s, p2, end);
  }

  // ----- level_for_name -----

  /** The lambda `is` in `level_for_name`: the level text equals `s`
      ignoring case, with the same length. Every name the function lists is
      in lower case, so this is the lowered text equal to `s` (see
      `CaseEqLower`). */
  predicate Is(name: string, s: string)
  {
    LowerString(name) == s
  }

  predicate SpamName(name: string)
  {
    Is(name, "*") || Is(name, "a") || Is(name, "all") || Is(name, "d") || Is(name, "debug")
    || Is(name, "s") || Is(name, "spam") || Is(name, "v") || Is(name, "verbose")
  }

  predicate NoteName(name: string)
  {
    Is(name, "default") || Is(name, "i") || Is(name, "info") || Is(name, "n") || Is(name, "normal")
    || Is(name, "note") || Is(name, "notice") || Is(name, "notable")
  }

  predicate ProblemName(name: string)
  {
    Is(name, "e") || Is(name, "error") || Is(name, "p") || Is(name, "prob") || Is(name, "problem")
    || Is(name, "w") || Is(name, "warn") || Is(name, "warning")
  }

  predicate FatalName(name: string)
  {
    Is(name, "none") || Is(name, "f") || Is(name, "fatal") || Is(name, "p") || Is(name, "panic")
  }

  /** A level with what was reported while finding it. */
  datatype Outcome = Outcome(level: Level, reports: seq<Report>)

  /** `level_for_name`: the first group naming the text gives the level;
      an unknown name is reported and gives SPAM. */
  function LevelForName(name: string): (r: Outcome)
    ensures r.reports == [] || r.reports == [BadLevel(name)]
    ensures r.reports != [] <==> !SpamName(name) && !NoteName(name) && !ProblemName(name) && !FatalName(name)
    ensures r.reports != [] ==> r.level == Spam
    ensures r.level == Fatal ==> FatalName(name)
  {
    if SpamName(name) then Outcome(Spam, [])
    else if NoteName(name) then Outcome(Note, [])
    else if ProblemName(name) then Outcome(Problem, [])
    else if FatalName(name) then Outcome(Fatal, [])
    else Outcome(Spam, [BadLevel(name)])
  }

  /** The level does not depend on the case of the name. */
  lemma NameCaseInsensitive(a: string, b: string)
    requires CaseEq(a, b)
    ensures LevelForName(a).level == LevelForName(b).level
    ensures |LevelForName(a).reports| == |LevelForName(b).reports|
  {
    CaseEqLower(a, b);
  }

  /** "p" is PROBLEM, not FATAL: the PROBLEM names are tried first, so
      a "p" in the FATAL group is never reached. */
  lemma PIsProblem()
    ensures LevelForName("p").level == Problem && LevelForName("p").reports == []
    ensures LevelForName("P").level == Problem && LevelForName("P").reports == []
  {
    assert LowerString("P") == "p";
  }

  /** FATAL is reached through "none", "f", "fatal" and "panic" only. */
  lemma FatalNames(name: string)
    ensures LevelForName(name).level == Fatal
            <==> Is(name, "none") || Is(name, "f") || Is(name, "fatal") || Is(name, "panic")
  {
  }

  /** Names must match whole: a prefix of a name is not that name, and an
      unknown name is reported. */
  lemma WholeNamesOnly()
    ensures LevelForName("war").level == Spam && LevelForName("war").reports == [BadLevel("war")]
  {
    assert LowerString("war") == "war";
  }

  // ----- level_for_tag -----

  /** The bounds of one config entry, as `level_for_tag` computes them:
      the trimmed glob, the trimmed level and where the entry ends. */
  datatype Entry = Entry(globStart: nat, globEnd: nat, levelStart: nat, levelEnd: nat, entryEnd: nat)

  /** The entry bounds lie in order within the config. */
  predicate Within(c: string, e: Entry)
  {
    e.globStart <= e.globEnd <= e.levelStart <= e.levelEnd <= e.entryEnd <= |c|
  }

  /** All the listed entries lie within the config. */
  predicate AllWithin(c: string, es: seq<Entry>)
  {
    forall k :: 0 <= k < |es| ==> Within(c, es[k])
  }

  /** The entry starting at `pos`: it ends at the first ',' or ';', its
      glob ends at the first '=' or ':' (and its level starts after it),
      and both parts are trimmed. */
  function EntryAt(c: string, pos: nat): (e: Entry)
    requires pos <= |c|
    ensures Within(c, e) && pos <= e.globStart
    ensures e.entryEnd == FirstOf(c, pos, |c|, {',', ';'})
  {
    var entryEnd := FirstOf(c, pos, |c|, {',', ';'});
    var globEnd0 := FirstOf(c, pos, entryEnd, {'=', ':'});
    var level0 := if globEnd0 < entryEnd then globEnd0 + 1 else globEnd0;
    var g := SkipSpace(c, pos, globEnd0);
    var ge := BackSpace(c, g, globEnd0);
    var l := SkipSpace(c, level0, entryEnd);
    var le := BackSpace(c, l, entryEnd);
    Entry(g, ge, l, le, entryEnd)
  }

  /** The entries of the config from `pos` on, in order; the last one ends
      the config. */
  function Entries(c: string, pos: nat): (es: seq<Entry>)
    requires pos <= |c|
    ensures es != [] && es[0] == EntryAt(c, pos)
    decreases |c| - pos
  {
    var e := EntryAt(c, pos);
    if e.entryEnd == |c| then [e] else [e] + Entries(c, e.entryEnd + 1)
  }

  /** Every entry lies within the config. */
  lemma EntriesWithin(c: string, pos: nat)
    requires pos <= |c|
    ensures AllWithin(c, Entries(c, pos))
  {
    EntriesFrom(c, pos);
  }

  /** Entry `k + 1` starts after the separator that ends entry `k`. */
  predicate Linked(c: string, es: seq<Entry>, k: nat)
    requires k + 1 < |es| && es[k].entryEnd < |c|
  {
    es[k + 1] == EntryAt(c, es[k].entryEnd + 1)
  }

  /** The list holds the entries in turn: the first starts the config,
      only the last one ends the config, and each next one starts after the
      separator that ends the one before. */
  predicate Chained(c: string, es: seq<Entry>)
  {
    es != [] && es[0] == EntryAt(c, 0) && Ordered(c, es) && AllLinked(c, es)
  }

  /** The entries of a config are chained. */
  lemma EntriesChained(c: string)
    ensures Chained(c, Entries(c, 0))
  {
    EntriesFrom(c, 0);
  }

  /** The entries from `pos` on, chained from there. */
  lemma {:induction false} EntriesFrom(c: string, pos: nat)
    requires pos <= |c|
    ensures InTurn(c, Entries(c, pos))
    decreases |c| - pos
  {
    var e := EntryAt(c, pos);
    if e.entryEnd < |c| {
      EntriesFrom(c, e.entryEnd + 1);
      ConsInTurn(c, pos);
    } else {
      EntriesCons(c, pos);
    }
  }

  /** The entry at `pos`, then the entries after its separator. */
  lemma EntriesCons(c: string, pos: nat)
    requires pos <= |c|
    ensures EntryAt(c, pos).entryEnd == |c| ==> Entries(c, pos) == [EntryAt(c, pos)]
    ensures EntryAt(c, pos).entryEnd < |c| ==>
              Entries(c, pos) == [EntryAt(c, pos)] + Entries(c, EntryAt(c, pos).entryEnd + 1)
  {
  }

  /** Ordered and linked. */
  predicate InTurn(c: string, es: seq<Entry>)
  {
    Ordered(c, es) && AllLinked(c, es)
  }

  /** An entry in front of the entries that start after its separator. */
  lemma ConsInTurn(c: string, pos: nat)
    requires pos <= |c| && EntryAt(c, pos).entryEnd < |c|
    requires InTurn(c, Entries(c, EntryAt(c, pos).entryEnd + 1))
    ensures InTurn(c, Entries(c, pos))
  {
    EntriesCons(c, pos);
    ConsOrdered(c, EntryAt(c, pos), Entries(c, EntryAt(c, pos).entryEnd + 1), Entries(c, pos));
    ConsLinked(c, EntryAt(c, pos), Entries(c, EntryAt(c, pos).entryEnd + 1), Entries(c, pos));
  }

  /** Every entry lies within the config and only the last one ends it. */
  predicate Ordered(c: string, es: seq<Entry>)
  {
    forall k :: 0 <= k < |es| ==> Within(c, es[k]) && (es[k].entryEnd == |c| <==> k == |es| - 1)
  }

  /** Each entry but the last is followed by the one after its separator. */
  predicate AllLinked(c: string, es: seq<Entry>)
  {
    forall k: nat {:trigger Linked(c, es, k)} :: k + 1 < |es| ==> es[k].entryEnd < |c| && Linked(c, es, k)
  }

  /** Linked entries, one link at a time. */
  lemma LinkedAt(c: string, es: seq<Entry>, k: nat)
    requires AllLinked(c, es) && k + 1 < |es|
    ensures es[k].entryEnd < |c| && Linked(c, es, k)
  {
  }

  /** An entry that does not end the config, in front of ordered entries. */
  lemma ConsOrdered(c: string, e: Entry, rest: seq<Entry>, es: seq<Entry>)
    requires Within(c, e) && e.entryEnd < |c| && rest != [] && InTurn(c, rest) && es == [e] + rest
    ensures Ordered(c, es)
  {
    forall k | 0 <= k < |es|
      ensures Within(c, es[k]) && (es[k].entryEnd == |c| <==> k == |es| - 1)
    {
      if k > 0 {
        assert es[k] == rest[k - 1];
      }
    }
  }

  /** An entry in front of the linked entries that start after its
      separator. */
  lemma ConsLinked(c: string, e: Entry, rest: seq<Entry>, es: seq<Entry>)
    requires e.entryEnd < |c| && rest != [] && rest[0] == EntryAt(c, e.entryEnd + 1) && InTurn(c, rest)
    requires es == [e] + rest
    ensures AllLinked(c, es)
  {
    forall k: nat | k + 1 < |es|
      ensures es[k].entryEnd < |c| && Linked(c, es, k)
    {
      if k > 0 {
        assert es[k] == rest[k - 1] && es[k + 1] == rest[k];
        LinkedAt(c, rest, k - 1);
      }
    }
  }

  /** The number of entry separators in `c[p..]`. */
  function Separators(c: string, p: nat): (n: nat)
    requires p <= |c|
    decreases |c| - p
  {
    if p == |c| then 0
    else (if c[p] == ',' || c[p] == ';' then 1 else 0) + Separators(c, p + 1)
  }

  /** No separator is counted before the first one. */
  lemma {:induction false} SeparatorsSkipped(c: string, p: nat)
    requires p <= |c|
    ensures Separators(c, p) == Separators(c, FirstOf(c, p, |c|, {',', ';'}))
    decreases |c| - p
  {
    if p < |c| && c[p] !in {',', ';'} {
      SeparatorsSkipped(c, p + 1);
    }
  }

  /** A config with `n` separators has `n + 1` entries: an empty entry
      stands before a leading separator, between two adjacent ones and after
      a trailing one. */
  lemma {:induction false} EntryCount(c: string, pos: nat)
    requires pos <= |c|
    ensures |Entries(c, pos)| == Separators(c, pos) + 1
    decreases |c| - pos
  {
    var e := EntryAt(c, pos);
    SeparatorsSkipped(c, pos);
    if e.entryEnd < |c| {
      EntryCount(c, e.entryEnd + 1);
    }
  }

  /** An entry whose glob or level is empty after trimming is bad. */
  predicate Bad(e: Entry)
  {
    e.globStart == e.globEnd || e.levelStart == e.levelEnd
  }

  /** The glob test `level_for_tag` applies to each entry for `tag`. */
  function TagMatcher(tag: string): (matches: string -> bool)
    ensures forall g :: matches(g) == GlobSpec(g, tag)
  {
    g => GlobSpec(g, tag)
  }

  /** The entry is well formed and its glob passes the test `matches`. */
  predicate Matched(c: string, e: Entry, matches: string -> bool)
  {
    Within(c, e) && !Bad(e) && matches(c[e.globStart..e.globEnd])
  }

  /** What an entry reports: a bad entry, from the start of its glob to the
      end of its level. */
  function Complaint(c: string, e: Entry): (rs: seq<Report>)
    requires Within(c, e)
  {
    if Bad(e) then [BadEntry(c[e.globStart..e.levelEnd])] else []
  }

  /** Where the entry search stopped, with what it reported on the way. */
  datatype Search = Search(entry: Option<nat>, reports: seq<Report>)

  /** The entry search of `level_for_tag` from entry `i` on: the index of
      the first entry whose glob passes the test, if any, and the reports of
      the bad entries before it (of all of them when none passes). The test
      is a parameter, so that facts about the search need not look into
      glob matching. */
  function SearchIn(c: string, es: seq<Entry>, i: nat, matches: string -> bool): (r: Search)
    requires i <= |es| && AllWithin(c, es)
    ensures r.entry.Some? ==> i <= r.entry.value < |es|
    decreases |es| - i
  {
    if i == |es| then Search(None, [])
    else if Matched(c, es[i], matches) then Search(Some(i), [])
    else
      var r := SearchIn(c, es, i + 1, matches);
      Search(r.entry, Complaint(c, es[i]) + r.reports)
  }

  /** What `level_for_tag` computes for a config (None for a null pointer):
      the level named by the first matching entry, or NOTE, and what was
      reported on the way. */
  function LevelForTagSpec(config: Option<string>, tag: string): (r: Outcome)
  {
    if config.None? then Outcome(Note, [])
    else
      var c := config.value;
      var es := Entries(c, 0);
      EntriesWithin(c, 0);
      var found := SearchIn(c, es, 0, TagMatcher(tag));
      if found.entry.None? then Outcome(Note, found.reports)
      else
        var e := es[found.entry.value];
        var named := LevelForName(c[e.levelStart..e.levelEnd]);
        Outcome(named.level, found.reports + named.reports)
  }

  /** The search finds the first entry whose glob matches, and only
      that. */
  lemma {:induction false} FirstMatchWins(c: string, es: seq<Entry>, i: nat, matches: string -> bool, k: nat)
    requires i <= |es| && AllWithin(c, es)
    ensures SearchIn(c, es, i, matches).entry == Some(k)
            <==> i <= k < |es| && Matched(c, es[k], matches)
                 && forall j :: i <= j < k ==> !Matched(c, es[j], matches)
    decreases |es| - i
  {
    if i < |es| && !Matched(c, es[i], matches) {
      FirstMatchWins(c, es, i + 1, matches, k);
    }
  }

  /** The search finds nothing exactly when no entry matches. */
  lemma {:induction false} NoMatchFindsNothing(c: string, es: seq<Entry>, i: nat, matches: string -> bool)
    requires i <= |es| && AllWithin(c, es)
    ensures SearchIn(c, es, i, matches).entry == None
            <==> forall j :: i <= j < |es| ==> !Matched(c, es[j], matches)
    decreases |es| - i
  {
    if i < |es| && !Matched(c, es[i], matches) {
      NoMatchFindsNothing(c, es, i + 1, matches);
    }
  }

  /** Without bad entries nothing is reported. */
  lemma {:induction false} GoodEntriesQuiet(c: string, es: seq<Entry>, i: nat, matches: string -> bool)
    requires i <= |es| && AllWithin(c, es)
    requires forall j :: i <= j < |es| ==> !Bad(es[j])
    ensures SearchIn(c, es, i, matches).reports == []
    decreases |es| - i
  {
    if i < |es| && !Matched(c, es[i], matches) {
      GoodEntriesQuiet(c, es, i + 1, matches);
      assert Complaint(c, es[i]) == [];
    }
  }

  /** The search state carried past an entry that does not match. */
  lemma SearchOn(c: string, es: seq<Entry>, i: nat, matches: string -> bool, found: Search,
                 before: seq<Report>, reports: seq<Report>)
    requires i < |es| && AllWithin(c, es) && !Matched(c, es[i], matches)
    requires reports == before + Complaint(c, es[i])
    requires found.entry == SearchIn(c, es, i, matches).entry
    requires found.reports == before + SearchIn(c, es, i, matches).reports
    ensures found.entry == SearchIn(c, es, i + 1, matches).entry
    ensures found.reports == reports + SearchIn(c, es, i + 1, matches).reports
  {
    AppendAssoc(before, Complaint(c, es[i]), SearchIn(c, es, i + 1, matches).reports);
  }

  /** Concatenation regrouped, kept apart from the search facts. */
  lemma AppendAssoc(a: seq<Report>, b: seq<Report>, c: seq<Report>)
    ensures a + (b + c) == (a + b) + c
  {
  }

  /** The entry parsing at the top of the loop of `level_for_tag`. */
  method ReadEntry(c: string, pos: nat) returns (e: Entry)
    requires pos <= |c|
    ensures e == EntryAt(c, pos)
  {
    var entryEnd := NextOf(c, pos, |c|, {',', ';'});
    var globEnd := NextOf(c, pos, entryEnd, {'=', ':'});
    var levelStart := if globEnd < entryEnd then globEnd + 1 else globEnd;
    var g, ge := Trim(c, pos, globEnd);
    var l, le := Trim(c, levelStart, entryEnd);
    e := Entry(g, ge, l, le, entryEnd);
  }

  /** A glob `level_for_tag` has passed to `glob_match`; the name only
      serves as the trigger that ties the search's test to glob matching
      where the loop asks for it. */
  predicate Tried(g: string)
  {
    true
  }

  /** `level_for_tag`. */
  method LevelForTag(config: Option<string>, tag: string) returns (level: Level, reports: seq<Report>)
    ensures level == LevelForTagSpec(config, tag).level
    ensures reports == LevelForTagSpec(config, tag).reports
  {
    if config.None? {
      return Note, [];
    }
    var c := config.value;
    var found;
    EntriesChained(c);
    found, reports := FindEntry(c, tag, TagMatcher(tag), Entries(c, 0));
    if found.None? {
      return Note, reports;
    }
    var e := found.value;
    var named := LevelForName(c[e.levelStart..e.levelEnd]);
    return named.level, reports + named.reports;
  }

  /** The loop of `level_for_tag`: the entries are read in turn until one
      whose glob matches the tag; bad entries are reported on the way. */
  method FindEntry(c: string, tag: string, ghost matches: string -> bool, ghost es: seq<Entry>)
      returns (found: Option<Entry>, reports: seq<Report>)
    requires forall g {:trigger Tried(g)} :: Tried(g) ==> matches(g) == GlobSpec(g, tag)
    requires Chained(c, es)
    ensures found.Some? == SearchIn(c, es, 0, matches).entry.Some?
    ensures found.Some? ==> found.value == es[SearchIn(c, es, 0, matches).entry.value]
    ensures found.Some? ==> Within(c, found.value)
    ensures reports == SearchIn(c, es, 0, matches).reports
  {
    ghost var result := SearchIn(c, es, 0, matches);
    var pos: nat := 0;
    ghost var i: nat := 0;
    reports := [];
    assert [] + result.reports == result.reports;
    while true
      invariant pos <= |c| && i < |es| && es[i] == EntryAt(c, pos)
      invariant result.entry == SearchIn(c, es, i, matches).entry
      invariant result.reports == reports + SearchIn(c, es, i, matches).reports
      decreases |c| - pos
    {
      var e := ReadEntry(c, pos);
      var stop;
      stop, found, reports := Examine(c, e, tag, matches, es, i, result, reports);
      if stop {
        return;
      }
      NextEntry(c, es, i, e);
      pos := e.entryEnd + 1;
      i := i + 1;
    }
  }

  /** The entry after entry `i` is the one read after its separator. */
  lemma NextEntry(c: string, es: seq<Entry>, i: nat, e: Entry)
    requires Chained(c, es) && i + 1 < |es| && e == es[i]
    ensures e.entryEnd < |c| && es[i + 1] == EntryAt(c, e.entryEnd + 1)
  {
    assert Linked(c, es, i);
  }

  /** One round of the loop of `level_for_tag`: entry number `i`, already
      read, is reported when bad and matched against the tag. The search
      either stops with its outcome or goes on with the next entry. */
  method Examine(c: string, e: Entry, tag: string, ghost matches: string -> bool, ghost es: seq<Entry>,
                 ghost i: nat, ghost result: Search, reports: seq<Report>)
      returns (stop: bool, found: Option<Entry>, reports': seq<Report>)
    requires Chained(c, es) && i < |es| && e == es[i]
    requires forall g {:trigger Tried(g)} :: Tried(g) ==> matches(g) == GlobSpec(g, tag)
    requires result.entry == SearchIn(c, es, i, matches).entry
    requires result.reports == reports + SearchIn(c, es, i, matches).reports
    ensures stop ==> reports' == result.reports && found.Some? == result.entry.Some?
    ensures stop && found.Some? ==> found.value == es[result.entry.value] && Within(c, found.value)
    ensures !stop ==> e.entryEnd < |c| && i + 1 < |es|
    ensures !stop ==> result.entry == SearchIn(c, es, i + 1, matches).entry
                      && result.reports == reports' + SearchIn(c, es, i + 1, matches).reports
  {
    reports' := reports;
    if e.globStart == e.globEnd || e.levelStart == e.levelEnd {
      reports' := reports + [BadEntry(c[e.globStart..e.levelEnd])];
      assert !Matched(c, e, matches);
    } else {
      var m := TagMatches(c, e, tag, matches);
      if m {
        assert Matched(c, es[i], matches);
        assert SearchIn(c, es, i, matches).entry == Some(i);
        assert SearchIn(c, es, i, matches).reports == [];
        assert reports + [] == reports;
        return true, Some(e), reports;
      }
      assert reports + [] == reports;
      assert !Matched(c, e, matches);
    }
    assert reports' == reports + Complaint(c, e);
    SearchOn(c, es, i, matches, result, reports, reports');
    if e.entryEnd == |c| {
      assert i + 1 == |es|;
      assert SearchIn(c, es, i + 1, matches).entry == None;
      assert SearchIn(c, es, i + 1, matches).reports == [];
      assert reports' + [] == reports';
      return true, None, reports';
    }
    stop, found := false, None;
  }

  /** The `glob_match` call of the loop of `level_for_tag`, seen as the
      search's glob test. */
  method TagMatches(c: string, e: Entry, tag: string, ghost matches: string -> bool) returns (m: bool)
    requires Within(c, e)
    requires forall g {:trigger Tried(g)} :: Tried(g) ==> matches(g) == GlobSpec(g, tag)
    ensures m == matches(c[e.globStart..e.globEnd])
  {
    m := GlobMatch(c[e.globStart..e.globEnd], tag);
    assert Tried(c[e.globStart..e.globEnd]);
  }

  /** A null config gives NOTE without reports. */
  lemma NullConfig(tag: string)
    ensures LevelForTagSpec(None, tag).level == Note && LevelForTagSpec(None, tag).reports == []
  {
  }

  /** An empty config is one empty entry: it is reported, and the level is
      NOTE. */
  lemma EmptyConfig(tag: string)
    ensures LevelForTagSpec(Some(""), tag).level == Note
    ensures LevelForTagSpec(Some(""), tag).reports == [BadEntry("")]
  {
    var e := Entry(0, 0, 0, 0, 0);
    assert EntryAt("", 0) == e;
    var es := Entries("", 0);
    assert es == [e];
    var m := TagMatcher(tag);
    assert !Matched("", e, m);
    assert SearchIn("", es, 1, m).reports == [];
    assert SearchIn("", es, 0, m).entry == None;
    assert SearchIn("", es, 0, m).reports == [BadEntry("")] + [];
  }

  /** The level of a tag is the one named by the first entry whose glob
      matches it. */
  lemma LevelOfTag(c: string, tag: string, k: nat)
    requires k < |Entries(c, 0)|
    requires Matched(c, Entries(c, 0)[k], TagMatcher(tag))
    requires forall j :: 0 <= j < k ==> !Matched(c, Entries(c, 0)[j], TagMatcher(tag))
    ensures LevelForTagSpec(Some(c), tag).level
            == LevelForName(c[Entries(c, 0)[k].levelStart..Entries(c, 0)[k].levelEnd]).level
  {
    EntriesWithin(c, 0);
    FirstMatchWins(c, Entries(c, 0), 0, TagMatcher(tag), k);
  }

  /** Without a matching entry the level is NOTE. */
  lemma NoMatchIsNote(c: string, tag: string)
    requires forall j :: 0 <= j < |Entries(c, 0)| ==> !Matched(c, Entries(c, 0)[j], TagMatcher(tag))
    ensures LevelForTagSpec(Some(c), tag).level == Note
  {
    EntriesWithin(c, 0);
    NoMatchFindsNothing(c, Entries(c, 0), 0, TagMatcher(tag));
  }

  /** A config that ends in a separator ends in an empty entry, which is
      bad. */
  lemma TrailingSeparator(c: string)
    requires c != [] && c[|c| - 1] in {',', ';'}
    ensures Entries(c, 0)[|Entries(c, 0)| - 1] == Entry(|c|, |c|, |c|, |c|, |c|)
    ensures Bad(Entries(c, 0)[|Entries(c, 0)| - 1])
  {
    LastEntryEmpty(c, 0);
  }

  /** From any position on, the entries of a config that ends in a
      separator end in the empty entry after it. */
  lemma {:induction false} LastEntryEmpty(c: string, pos: nat)
    requires c != [] && c[|c| - 1] in {',', ';'} && pos <= |c|
    ensures Entries(c, pos)[|Entries(c, pos)| - 1] == Entry(|c|, |c|, |c|, |c|, |c|)
    decreases |c| - pos
  {
    if pos == |c| {
      EntriesCons(c, pos);
    } else {
      FirstOfIsFirst(c, pos, |c|, {',', ';'});
      LastEntryEmpty(c, EntryAt(c, pos).entryEnd + 1);
      LastOfRest(c, pos);
    }
  }

  /** The last entry from `pos` is the last one after its separator. */
  lemma LastOfRest(c: string, pos: nat)
    requires pos <= |c| && EntryAt(c, pos).entryEnd < |c|
    ensures Entries(c, pos)[|Entries(c, pos)| - 1]
            == Entries(c, EntryAt(c, pos).entryEnd + 1)[|Entries(c, EntryAt(c, pos).entryEnd + 1)| - 1]
  {
    EntriesCons(c, pos);
  }

  /** When no entry matches, the last entry's complaint is the last
      thing reported. */
  lemma {:induction false} NoMatchReportsLast(c: string, es: seq<Entry>, i: nat, matches: string -> bool)
    requires i < |es| && AllWithin(c, es)
    requires SearchIn(c, es, i, matches).entry == None
    ensures var rs := SearchIn(c, es, i, matches).reports;
            |rs| >= |Complaint(c, es[|es| - 1])|
            && rs[|rs| - |Complaint(c, es[|es| - 1])|..] == Complaint(c, es[|es| - 1])
    decreases |es| - i
  {
    SearchSkips(c, es, i, matches);
    if i == |es| - 1 {
      assert SearchIn(c, es, i, matches).reports == Complaint(c, es[|es| - 1]) + [];
    } else {
      NoMatchReportsLast(c, es, i + 1, matches);
      EndsWithAfter(Complaint(c, es[i]), SearchIn(c, es, i + 1, matches).reports, Complaint(c, es[|es| - 1]));
    }
  }

  /** A search that finds nothing passes over its first entry, after
      reporting it. */
  lemma SearchSkips(c: string, es: seq<Entry>, i: nat, matches: string -> bool)
    requires i < |es| && AllWithin(c, es)
    requires SearchIn(c, es, i, matches).entry == None
    ensures SearchIn(c, es, i + 1, matches).entry == None
    ensures SearchIn(c, es, i, matches).reports
            == Complaint(c, es[i]) + SearchIn(c, es, i + 1, matches).reports
    ensures i + 1 == |es| ==> SearchIn(c, es, i + 1, matches).reports == []
  {
  }

  /** What ends `b` still ends `a + b`. */
  lemma EndsWithAfter<T>(a: seq<T>, b: seq<T>, s: seq<T>)
    requires |b| >= |s| && b[|b| - |s|..] == s
    ensures |a + b| >= |s| && (a + b)[|a + b| - |s|..] == s
  {
    assert (a + b)[|a + b| - |s|..] == b[|b| - |s|..];
  }

  /** When no entry matches and the last one is reported as `r`, `r` is
      the last thing reported. */
  lemma LastReported(c: string, es: seq<Entry>, matches: string -> bool, r: Report)
    requires es != [] && AllWithin(c, es)
    requires forall j :: 0 <= j < |es| ==> !Matched(c, es[j], matches)
    requires Complaint(c, es[|es| - 1]) == [r]
    ensures SearchIn(c, es, 0, matches).entry == None
    ensures var rs := SearchIn(c, es, 0, matches).reports; rs != [] && rs[|rs| - 1] == r
  {
    NoMatchFindsNothing(c, es, 0, matches);
    NoMatchReportsLast(c, es, 0, matches);
    var rs := SearchIn(c, es, 0, matches).reports;
    assert rs[|rs| - 1] == rs[|rs| - 1..][0];
  }

  /** With a trailing separator and no matching entry, the empty last entry
      is the last thing reported, and the level is NOTE. */
  lemma TrailingSeparatorReported(c: string, tag: string)
    requires c != [] && c[|c| - 1] in {',', ';'}
    requires forall j :: 0 <= j < |Entries(c, 0)| ==> !Matched(c, Entries(c, 0)[j], TagMatcher(tag))
    ensures LevelForTagSpec(Some(c), tag).level == Note
    ensures var rs := LevelForTagSpec(Some(c), tag).reports;
            rs != [] && rs[|rs| - 1] == BadEntry("")
  {
    TrailingComplaint(c);
    LastReported(c, Entries(c, 0), TagMatcher(tag), BadEntry(""));
    NoMatchOutcome(c, tag);
  }

  /** With a trailing separator the last entry reports an empty text. */
  lemma TrailingComplaint(c: string)
    requires c != [] && c[|c| - 1] in {',', ';'}
    ensures AllWithin(c, Entries(c, 0))
    ensures Complaint(c, Entries(c, 0)[|Entries(c, 0)| - 1]) == [BadEntry("")]
  {
    EntriesWithin(c, 0);
    TrailingSeparator(c);
    assert c[|c|..|c|] == "";
  }

  /** A search that finds nothing gives NOTE and the search's reports. */
  lemma NoMatchOutcome(c: string, tag: string)
    requires AllWithin(c, Entries(c, 0))
    requires SearchIn(c, Entries(c, 0), 0, TagMatcher(tag)).entry == None
    ensures LevelForTagSpec(Some(c), tag)
            == Outcome(Note, SearchIn(c, Entries(c, 0), 0, TagMatcher(tag)).reports)
  {
  }

  // ----- the emit filter -----

  /** `OkLoggingContext`: a tag and the level its config gives it. */
  datatype Context = Context(tag: string, level: Level)

  /** The `OkLoggingContext` constructor: the tag's level is looked up
      once, when the context is made. */
  function MakeContext(config: Option<string>, tag: string): (ctx: Context)
  {
    Context(tag, LevelForTagSpec(config, tag).level)
  }

  /** `OK_REPORT`'s test: a message is emitted when its level is at least
      the context's. */
  predicate Emits(l: Level, ctx: Context)
  {
    Rank(l) >= Rank(ctx.level)
  }

  /** FATAL messages are always emitted; SPAM ones only where the config
      says SPAM; with a null config everything but SPAM is emitted. */
  lemma EmitRules(l: Level, ctx: Context, tag: string)
    ensures Emits(Fatal, ctx)
    ensures Emits(Spam, ctx) <==> ctx.level == Spam
    ensures Emits(l, MakeContext(None, tag)) <==> l != Spam
  {
  }
}
