/** The shell: reading a line from a terminal, and cutting it into a command and its arguments in place. */
module Shell {
  import opened Options

  const SHELL_MAX_LINE_LENGTH := 64
  const SHELL_MAX_ARGUMENTS := 4

  const NUL := '\0'
  const CTRL_D := '\U{4}'
  const BACKSPACE := '\U{8}'
  const DELETE := '\U{7F}'
  const BLANKS := {' ', '\t'}

  // ---------- Strings that end with NUL ----------

  /** The first position from `i` on that holds one of `stops`. */
  function FirstOf(b: seq<char>, i: nat, stops: set<char>): (j: nat)
    requires i <= |b|
    ensures i <= j <= |b| && (j < |b| ==> b[j] in stops)
    ensures forall k :: i <= k < j ==> b[k] !in stops
    decreases |b| - i
  {
    if i == |b| || b[i] in stops then i else FirstOf(b, i + 1, stops)
  }

  /** The first position from `i` on that holds none of `delim`. */
  function Past(b: seq<char>, i: nat, delim: set<char>): (j: nat)
    requires i <= |b|
    ensures i <= j <= |b| && (j < |b| ==> b[j] !in delim)
    ensures forall k :: i <= k < j ==> b[k] in delim
    decreases |b| - i
  {
    if i == |b| || b[i] !in delim then i else Past(b, i + 1, delim)
  }

  lemma {:induction false} FirstIs(b: seq<char>, i: nat, stops: set<char>, j: nat)
    requires i <= j <= |b| && (j < |b| ==> b[j] in stops)
    requires forall k :: i <= k < j ==> b[k] !in stops
    ensures FirstOf(b, i, stops) == j
    decreases j - i
  {
    if i < j {
      FirstIs(b, i + 1, stops, j);
    }
  }

  lemma {:induction false} PastIs(b: seq<char>, i: nat, delim: set<char>, j: nat)
    requires i <= j <= |b| && (j < |b| ==> b[j] !in delim)
    requires forall k :: i <= k < j ==> b[k] in delim
    ensures Past(b, i, delim) == j
    decreases j - i
  {
    if i < j {
      PastIs(b, i + 1, delim, j);
    }
  }

  predicate IsString(b: seq<char>, i: nat) {
    i < |b| && FirstOf(b, i, {NUL}) < |b|
  }

  function CString(b: seq<char>, i: nat): seq<char>
    requires IsString(b, i)
  {
    b[i..FirstOf(b, i, {NUL})]
  }

  // ---------- Cutting a line into tokens ----------

  /** A line being cut up, and where the search for the next token starts, if there is to be one. */
  datatype Cursor = Cursor(line: seq<char>, next: Option<nat>)

  predicate Usable(c: Cursor) {
    c.next.Some? ==> IsString(c.line, c.next.value)
  }

  /** Skipping delimiters and looking for the next one both stay within the string. */
  lemma ScansStay(b: seq<char>, p: nat, delim: set<char>)
    requires IsString(b, p) && NUL !in delim
    ensures var n := FirstOf(b, p, {NUL});
      p <= Past(b, p, delim) <= FirstOf(b, Past(b, p, delim), delim + {NUL}) <= n < |b| && b[n] == NUL
  {
    var n := FirstOf(b, p, {NUL});
    assert b[n] == NUL;
    assert Past(b, p, delim) <= n;
  }

  lemma CutIsString(b: seq<char>, p: nat, stop: nat)
    requires IsString(b, p) && p <= stop <= FirstOf(b, p, {NUL}) && b[stop] != NUL
    ensures IsString(b[stop := NUL], stop + 1)
  {
    var n := FirstOf(b, p, {NUL});
    FirstIs(b[stop := NUL], stop + 1, {NUL}, n);
  }

  /** What one call does to the cursor, and the token it returns. */
  function Tok(c: Cursor, delim: set<char>): (r: (Cursor, Option<nat>))
    requires Usable(c) && NUL !in delim
    ensures Usable(r.0) && |r.0.line| == |c.line|
  {
    match c.next
    case None => (c, None)
    case Some(p) =>
      ScansStay(c.line, p, delim);
      var token := Past(c.line, p, delim);
      var stop := FirstOf(c.line, token, delim + {NUL});
      var result := if c.line[token] == NUL then None else Some(token);
      if c.line[stop] == NUL then (Cursor(c.line, None), result)
      else
        CutIsString(c.line, p, stop);
        (Cursor(c.line[stop := NUL], Some(stop + 1)), result)
  }

  /** The cursor after `k` calls, the first of which was given the line and all others NULL. */
  function After(line: seq<char>, delim: set<char>, k: nat): (c: Cursor)
    requires IsString(line, 0) && NUL !in delim
    ensures Usable(c) && |c.line| == |line|
  {
    if k == 0 then Cursor(line, Some(0)) else Tok(After(line, delim, k - 1), delim).0
  }

  /** What call number `k`, counted from zero, returns. */
  function Token(line: seq<char>, delim: set<char>, k: nat): Option<nat>
    requires IsString(line, 0) && NUL !in delim
  {
    Tok(After(line, delim, k), delim).1
  }

  // ---------- The runs of a string ----------

  datatype Run = Run(start: nat, end: nat)

  predicate IsRun(s: seq<char>, delim: set<char>, r: Run) {
    && r.start < r.end <= |s|
    && (forall k :: r.start <= k < r.end ==> s[k] !in delim)
    && (r.start > 0 ==> s[r.start - 1] in delim)
    && (r.end < |s| ==> s[r.end] in delim)
  }

  /** The next run of characters that are no delimiters, from position `p` on. */
  function NextRun(s: seq<char>, delim: set<char>, p: nat): (next: Option<Run>)
    requires p <= |s|
    ensures next.Some? ==> p <= next.value.start < next.value.end <= |s|
  {
    var i := Past(s, p, delim);
    if i == |s| then None else Some(Run(i, FirstOf(s, i, delim)))
  }

  function Runs(s: seq<char>, delim: set<char>, p: nat): seq<Run>
    requires p <= |s|
    decreases |s| - p
  {
    match NextRun(s, delim, p)
    case None => []
    case Some(r) => [r] + if r.end == |s| then [] else Runs(s, delim, r.end + 1)
  }

  /** The next run is a maximal interval, and all others that start at `p` or later start after it ends. */
  lemma NextIsFirst(s: seq<char>, delim: set<char>, p: nat, r: Run)
    requires p <= |s| && (p > 0 ==> s[p - 1] in delim)
    ensures var next := NextRun(s, delim, p);
      && (next.Some? ==> IsRun(s, delim, next.value))
      && (p <= r.start && IsRun(s, delim, r) ==> next.Some? && (r == next.value || r.start > next.value.end))
  {
    hide FirstOf, Past;
    var i := Past(s, p, delim);
    if i > p {
      assert s[i - 1] in delim;
    }
    if p <= r.start && IsRun(s, delim, r) {
      assert s[r.start] !in delim;
      assert i <= r.start;
      if r.start <= FirstOf(s, i, delim) {
        assert r.start == i;
        FirstIs(s, i, delim, r.end);
      }
    }
  }

  predicate Listed(rs: seq<Run>, r: Run) { r in rs }

  lemma ListedFirst(s: seq<char>, delim: set<char>, p: nat, r: Run)
    requires p <= |s|
    ensures var next := NextRun(s, delim, p);
      Listed(Runs(s, delim, p), r) <==>
        next.Some? && (r == next.value || (next.value.end < |s| && Listed(Runs(s, delim, next.value.end + 1), r)))
  {
    hide NextRun;
  }

  lemma IsRunBounds(s: seq<char>, delim: set<char>, r: Run)
    requires IsRun(s, delim, r)
    ensures r.start < r.end <= |s| && (r.end < |s| ==> s[r.end] in delim)
  {}

  /** The runs are exactly the maximal intervals free of delimiters ... */
  lemma {:induction false} RunsAreMaximal(s: seq<char>, delim: set<char>, p: nat, r: Run)
    requires p <= |s| && (p > 0 ==> s[p - 1] in delim)
    ensures Listed(Runs(s, delim, p), r) <==> p <= r.start && IsRun(s, delim, r)
    decreases |s| - p
  {
    hide Runs, NextRun, IsRun, Listed;
    NextIsFirst(s, delim, p, r);
    ListedFirst(s, delim, p, r);
    var next := NextRun(s, delim, p);
    if next.Some? {
      IsRunBounds(s, delim, next.value);
      if next.value.end < |s| {
        RunsAreMaximal(s, delim, next.value.end + 1, r);
      } else if IsRun(s, delim, r) {
        IsRunBounds(s, delim, r);
      }
    }
  }

  /** Left to right, with a delimiter between any two. */
  predicate Ascending(rs: seq<Run>, p: nat, n: nat) {
    forall k :: 0 <= k < |rs| ==> p <= rs[k].start < rs[k].end <= n && (k > 0 ==> rs[k - 1].end < rs[k].start)
  }

  lemma AscendOn(first: Run, rest: seq<Run>, p: nat, n: nat)
    requires p <= first.start < first.end < n && Ascending(rest, first.end + 1, n)
    ensures Ascending([first] + rest, p, n)
  {
    var rs := [first] + rest;
    forall k | 0 <= k < |rs|
      ensures p <= rs[k].start < rs[k].end <= n && (k > 0 ==> rs[k - 1].end < rs[k].start)
    {
      if k > 0 {
        assert rs[k] == rest[k - 1];
        assert k > 1 ==> rs[k - 1] == rest[k - 2];
      }
    }
  }

  /** ... listed from left to right, with a delimiter between any two. */
  lemma {:induction false} RunsAscend(s: seq<char>, delim: set<char>, p: nat)
    requires p <= |s|
    ensures Ascending(Runs(s, delim, p), p, |s|)
    decreases |s| - p
  {
    hide NextRun;
    var next := NextRun(s, delim, p);
    if next.Some? && next.value.end < |s| {
      var rest := Runs(s, delim, next.value.end + 1);
      assert Runs(s, delim, p) == [next.value] + rest;
      hide Runs, Ascending;
      RunsAscend(s, delim, next.value.end + 1);
      AscendOn(next.value, rest, p, |s|);
    }
  }

  /** Where the search for run number `k` starts, unless the string is used up before. */
  function SearchFrom(s: seq<char>, delim: set<char>, k: nat): (p: Option<nat>)
    ensures p.Some? ==> p.value <= |s|
    decreases k, 0
  {
    if k == 0 then Some(0)
    else
      match KthRun(s, delim, k - 1)
      case None => None
      case Some(r) => if r.end == |s| then None else Some(r.end + 1)
  }

  /** Run number `k`, counted from zero. */
  function KthRun(s: seq<char>, delim: set<char>, k: nat): (r: Option<Run>)
    ensures r.Some? ==> r.value.start < r.value.end <= |s|
    decreases k, 1
  {
    match SearchFrom(s, delim, k)
    case None => None
    case Some(p) => NextRun(s, delim, p)
  }

  lemma RunsFirst(s: seq<char>, delim: set<char>, p: nat)
    requires p <= |s|
    ensures match NextRun(s, delim, p)
      case None => Runs(s, delim, p) == []
      case Some(r) =>
        && |Runs(s, delim, p)| > 0 && Runs(s, delim, p)[0] == r
        && Runs(s, delim, p)[1..] == if r.end == |s| then [] else Runs(s, delim, r.end + 1)
  {
    hide NextRun;
  }

  lemma Dropped(rs: seq<Run>, k: nat, tail: seq<Run>)
    requires k <= |rs| && rs[k..] == tail
    ensures if tail == [] then |rs| == k else k < |rs| && rs[k] == tail[0] && rs[k + 1..] == tail[1..]
  {
    if tail != [] {
      assert rs[k] == rs[k..][0];
      assert rs[k + 1..] == rs[k..][1..];
    }
  }

  lemma {:induction false} KthRunIsListed(s: seq<char>, delim: set<char>, k: nat)
    ensures var rs := Runs(s, delim, 0);
      && (match SearchFrom(s, delim, k)
          case None => k >= |rs|
          case Some(p) => k <= |rs| && Runs(s, delim, p) == rs[k..])
      && KthRun(s, delim, k) == if k < |rs| then Some(rs[k]) else None
  {
    hide NextRun, Runs;
    var rs := Runs(s, delim, 0);
    if k > 0 {
      KthRunIsListed(s, delim, k - 1);
      if SearchFrom(s, delim, k - 1).Some? {
        var q := SearchFrom(s, delim, k - 1).value;
        RunsFirst(s, delim, q);
        Dropped(rs, k - 1, Runs(s, delim, q));
      }
    }
    if SearchFrom(s, delim, k).Some? {
      var p := SearchFrom(s, delim, k).value;
      RunsFirst(s, delim, p);
      Dropped(rs, k, Runs(s, delim, p));
    }
  }

  // ---------- Tokens are runs ----------

  /** Where the cursor stands once the runs before `p` have been handed out, the line having been `s`. */
  predicate Stands(c: Cursor, s: seq<char>, p: nat) {
    && p <= |s| < |c.line|
    && c.next == Some(p)
    && c.line[p..|s|] == s[p..]
    && c.line[|s|] == NUL
  }

  lemma StandsAt(c: Cursor, s: seq<char>, p: nat, k: nat)
    requires Stands(c, s, p) && p <= k < |s|
    ensures c.line[k] == s[k]
  {
    assert c.line[p..|s|][k - p] == s[p..][k - p];
  }

  /** The scans of the line and of the string it holds agree. */
  lemma ScansAgree(c: Cursor, s: seq<char>, p: nat, delim: set<char>)
    requires Stands(c, s, p) && NUL !in s && NUL !in delim
    ensures var i := Past(s, p, delim);
      Past(c.line, p, delim) == i && FirstOf(c.line, i, delim + {NUL}) == FirstOf(s, i, delim)
  {
    forall k | p <= k < |s| ensures c.line[k] == s[k] {
      StandsAt(c, s, p, k);
    }
    var i := Past(s, p, delim);
    PastIs(c.line, p, delim, i);
    FirstIs(c.line, i, delim + {NUL}, FirstOf(s, i, delim));
  }

  /** The line after the run that ends at `j` has been cut off. */
  lemma StandsPast(c: Cursor, s: seq<char>, p: nat, j: nat)
    requires Stands(c, s, p) && p <= j < |s|
    ensures Stands(Cursor(c.line[j := NUL], Some(j + 1)), s, j + 1)
  {
    forall k | p <= k < |s| ensures c.line[k] == s[k] {
      StandsAt(c, s, p, k);
    }
    assert c.line[j := NUL][j + 1..|s|] == s[j + 1..];
  }

  /** One call hands out the next run and moves past it. */
  lemma TokTakesRun(c: Cursor, s: seq<char>, p: nat, delim: set<char>)
    requires Stands(c, s, p) && Usable(c) && NUL !in s && NUL !in delim
    ensures var (d, token) := Tok(c, delim);
      match NextRun(s, delim, p)
      case None => token == None && d == c.(next := None)
      case Some(r) =>
        && token == Some(r.start) && d.line == c.line[r.end := NUL]
        && d.next == if r.end < |s| then Some(r.end + 1) else None
  {
    ScansAgree(c, s, p, delim);
    hide IsString, FirstOf, Past;
    var i := Past(s, p, delim);
    var j := FirstOf(s, i, delim);
    if i < |s| {
      StandsAt(c, s, p, i);
      if j < |s| {
        StandsAt(c, s, p, j);
      } else {
        assert c.line[j := NUL] == c.line;
      }
    }
  }

  /** The line holds run `r` of `s` as a string of its own. */
  predicate Holds(line: seq<char>, s: seq<char>, r: Run) {
    r.start < r.end <= |s| < |line| && line[r.start..r.end] == s[r.start..r.end] && line[r.end] == NUL
  }

  /** After `k` calls the first `k` runs have been handed out, and stand in the line as strings. */
  predicate HandedOut(c: Cursor, s: seq<char>, delim: set<char>, k: nat) {
    && |s| < |c.line|
    && c.next == SearchFrom(s, delim, k)
    && (c.next.Some? ==> Stands(c, s, c.next.value))
    && forall m :: 0 <= m < k ==> Behind(c, s, KthRun(s, delim, m))
  }

  predicate Behind(c: Cursor, s: seq<char>, r: Option<Run>) {
    r.Some? ==> Holds(c.line, s, r.value) && (c.next.Some? ==> r.value.end < c.next.value)
  }

  /** A NUL written at or after position `p` leaves the tokens before `p` as they are. */
  lemma HoldsOn(line: seq<char>, s: seq<char>, r: Run, j: nat)
    requires Holds(line, s, r) && r.end <= j < |line|
    ensures Holds(line[j := NUL], s, r)
  {
    assert line[j := NUL][r.start..r.end] == line[r.start..r.end];
  }

  /** A call leaves the tokens of earlier calls alone. */
  lemma TokLeavesBehind(c: Cursor, s: seq<char>, delim: set<char>, r: Option<Run>)
    requires c.next.Some? && Stands(c, s, c.next.value) && Usable(c) && NUL !in s && NUL !in delim
    requires Behind(c, s, r)
    ensures Behind(Tok(c, delim).0, s, r)
  {
    TokTakesRun(c, s, c.next.value, delim);
    hide Tok, NextRun;
    var next := NextRun(s, delim, c.next.value);
    if next.Some? && r.Some? {
      HoldsOn(c.line, s, r.value, next.value.end);
    }
  }

  /** The token of this call stands in the line, and behind the cursor. */
  lemma TokLeavesRun(c: Cursor, s: seq<char>, delim: set<char>)
    requires c.next.Some? && Stands(c, s, c.next.value) && Usable(c) && NUL !in s && NUL !in delim
    ensures var d, next := Tok(c, delim).0, NextRun(s, delim, c.next.value);
      && Behind(d, s, next)
      && (d.next.Some? ==> Stands(d, s, d.next.value))
  {
    var p := c.next.value;
    TokTakesRun(c, s, p, delim);
    hide Tok, NextRun, IsString, Usable;
    var next := NextRun(s, delim, p);
    if next.Some? {
      CutHolds(c, s, p, next.value);
      if next.value.end < |s| {
        StandsPast(c, s, p, next.value.end);
      }
      hide Stands, Holds;
    }
  }

  lemma TokHandsOut(c: Cursor, s: seq<char>, delim: set<char>, k: nat)
    requires HandedOut(c, s, delim, k) && Usable(c) && NUL !in s && NUL !in delim
    ensures HandedOut(Tok(c, delim).0, s, delim, k + 1)
    ensures match KthRun(s, delim, k)
            case None => Tok(c, delim).1 == None
            case Some(r) => Tok(c, delim).1 == Some(r.start)
  {
    if c.next.Some? {
      TokHandsOutNext(c, s, delim, k);
    } else {
      var d := Tok(c, delim).0;
      assert d == c && KthRun(s, delim, k) == None && SearchFrom(s, delim, k + 1) == None;
      hide Tok, KthRun, SearchFrom, Usable, IsString, Stands;
      forall m | 0 <= m < k + 1 ensures Behind(d, s, KthRun(s, delim, m)) {
        if m < k {
          assert Behind(c, s, KthRun(s, delim, m));
        }
      }
      hide Behind;
    }
  }

  lemma TokHandsOutNext(c: Cursor, s: seq<char>, delim: set<char>, k: nat)
    requires HandedOut(c, s, delim, k) && Usable(c) && NUL !in s && NUL !in delim && c.next.Some?
    ensures HandedOut(Tok(c, delim).0, s, delim, k + 1)
    ensures match KthRun(s, delim, k)
            case None => Tok(c, delim).1 == None
            case Some(r) => Tok(c, delim).1 == Some(r.start)
  {
    var d := Tok(c, delim).0;
    var next := NextRun(s, delim, c.next.value);
    TokTakesRun(c, s, c.next.value, delim);
    TokLeavesRun(c, s, delim);
    assert KthRun(s, delim, k) == next;
    hide Tok, NextRun, Usable, IsString, Stands;
    forall m | 0 <= m < k + 1 ensures Behind(d, s, KthRun(s, delim, m)) {
      hide KthRun, Behind;
      if m < k {
        TokLeavesBehind(c, s, delim, KthRun(s, delim, m));
      }
    }
    assert d.next == SearchFrom(s, delim, k + 1);
    hide Behind, KthRun, SearchFrom;
  }

  lemma CutHolds(c: Cursor, s: seq<char>, p: nat, r: Run)
    requires Stands(c, s, p) && p <= r.start < r.end <= |s|
    ensures Holds(c.line[r.end := NUL], s, r)
  {
    forall m | r.start <= m < r.end ensures c.line[m] == s[m] {
      StandsAt(c, s, p, m);
    }
  }

  lemma {:induction false} RunHandsOut(line: seq<char>, delim: set<char>, k: nat)
    requires IsString(line, 0) && NUL !in delim
    ensures HandedOut(After(line, delim, k), CString(line, 0), delim, k)
  {
    var s := CString(line, 0);
    if k > 0 {
      hide HandedOut, Tok, SearchFrom, KthRun;
      RunHandsOut(line, delim, k - 1);
      TokHandsOut(After(line, delim, k - 1), s, delim, k - 1);
    }
  }

  lemma HeldIsString(line: seq<char>, s: seq<char>, r: Run)
    requires Holds(line, s, r) && NUL !in s
    ensures IsString(line, r.start) && CString(line, r.start) == s[r.start..r.end]
  {
    forall m | r.start <= m < r.end ensures line[m] != NUL {
      assert line[m] == line[r.start..r.end][m - r.start] == s[r.start..r.end][m - r.start] == s[m];
    }
    FirstIs(line, r.start, {NUL}, r.end);
  }

  /** Repeated calls on any line return its runs from left to right, and then NULL for ever. */
  lemma TokensAreRuns(line: seq<char>, delim: set<char>, k: nat)
    requires IsString(line, 0) && NUL !in delim
    ensures var rs := Runs(CString(line, 0), delim, 0);
      Token(line, delim, k) == if k < |rs| then Some(rs[k].start) else None
  {
    hide HandedOut, Tok;
    RunHandsOut(line, delim, k);
    TokHandsOut(After(line, delim, k), CString(line, 0), delim, k);
    KthRunIsListed(CString(line, 0), delim, k);
  }

  /** A token that was returned stays a string of its own, however many calls follow. */
  lemma TokensStay(line: seq<char>, delim: set<char>, k: nat, later: nat)
    requires IsString(line, 0) && NUL !in delim && k < later && k < |Runs(CString(line, 0), delim, 0)|
    ensures var s, l := CString(line, 0), After(line, delim, later).line; var r := Runs(s, delim, 0)[k];
      r.start < r.end <= |s| && IsString(l, r.start) && CString(l, r.start) == s[r.start..r.end]
  {
    hide Tok;
    RunHandsOut(line, delim, later);
    KthRunIsListed(CString(line, 0), delim, k);
    assert Behind(After(line, delim, later), CString(line, 0), KthRun(CString(line, 0), delim, k));
    HeldIsString(After(line, delim, later).line, CString(line, 0), Runs(CString(line, 0), delim, 0)[k]);
  }

  // ---------- Reading a line ----------

  predicate IsErase(c: char) { c == BACKSPACE || c == DELETE }

  predicate IsPlain(c: char) { c >= ' ' && c != DELETE }

  /** What one key does to the text typed so far, if it does not end the line. */
  function Press(text: seq<char>, c: char, size: nat): seq<char> {
    if IsErase(c) then if text == [] then text else text[..|text| - 1]
    else if c < ' ' || |text| + 1 >= size then text
    else text + [c]
  }

  /** What a plain key does. */
  function PressPlain(text: seq<char>, c: char, size: nat): (r: seq<char>)
    ensures IsPlain(c) ==> r == Press(text, c, size)
  {
    if |text| + 1 < size then text + [c] else text
  }

  function Pressed(keys: seq<char>, size: nat): seq<char> {
    if keys == [] then [] else Press(Pressed(keys[..|keys| - 1], size), keys[|keys| - 1], size)
  }

  /** What one key writes back to the terminal. */
  function Echo(text: seq<char>, c: char, size: nat): seq<char> {
    if IsErase(c) then if text == [] then [] else [c, ' ', c]
    else if c < ' ' || |text| + 1 >= size then []
    else [c]
  }

  function Echoed(keys: seq<char>, size: nat): seq<char> {
    if keys == [] then []
    else Echoed(keys[..|keys| - 1], size) + Echo(Pressed(keys[..|keys| - 1], size), keys[|keys| - 1], size)
  }

  /** The text of a line fits with its NUL, and holds neither control characters nor erasures. */
  lemma {:induction false} TextIsPlain(keys: seq<char>, size: nat)
    requires size > 0
    ensures var text := Pressed(keys, size);
      |text| < size && (forall c :: c in text ==> ' ' <= c != '\U{7F}') && NUL !in text
  {
    if keys != [] {
      TextIsPlain(keys[..|keys| - 1], size);
    }
  }

  lemma {:induction false} PlainKept(keys: seq<char>, size: nat)
    requires size > 0 && forall k :: 0 <= k < |keys| ==> IsPlain(keys[k])
    ensures Pressed(keys, size) == if |keys| < size then keys else keys[..size - 1]
  {
    if keys != [] {
      var n := |keys| - 1;
      var before := Pressed(keys[..n], size);
      assert IsPlain(keys[n]);
      assert Pressed(keys, size) == PressPlain(before, keys[n], size);
      hide Press, Pressed, IsPlain;
      PlainKept(keys[..n], size);
      if n + 1 < size {
        assert before + [keys[n]] == keys;
      } else if n + 1 == size {
        assert before == keys[..size - 1];
      } else {
        assert before == keys[..n][..size - 1] == keys[..size - 1];
      }
    }
  }

  /** Plain keys are kept as typed, up to the size of the line. */
  lemma PlainKeysAreKept(keys: seq<char>, size: nat)
    requires size > 0 && forall k :: 0 <= k < |keys| ==> ' ' <= keys[k] != '\U{7F}'
    ensures Pressed(keys, size) == if |keys| < size then keys else keys[..size - 1]
  {
    forall k | 0 <= k < |keys| ensures IsPlain(keys[k]) {}
    hide Pressed, IsPlain;
    PlainKept(keys, size);
  }

  /** Erasing takes back the last key exactly if that key was not dropped for want of room. */
  lemma EraseUndoesIff(keys: seq<char>, c: char, erase: char, size: nat)
    requires size > 0 && ' ' <= c != '\U{7F}' && (erase == '\U{8}' || erase == '\U{7F}')
    ensures Pressed(keys + [c] + [erase], size) == Pressed(keys, size) <==>
      |Pressed(keys, size)| + 1 < size || Pressed(keys, size) == []
  {
    var k := keys + [c];
    assert (k + [erase])[..|k|] == k && k[..|keys|] == keys;
    assert Pressed(k + [erase], size) == Press(Press(Pressed(keys, size), c, size), erase, size);
  }

  /** The control characters that do not end the line might as well not have been typed. */
  function Heard(keys: seq<char>): seq<char> {
    if keys == [] then []
    else
      var key := keys[|keys| - 1];
      Heard(keys[..|keys| - 1]) + if key >= ' ' || key == '\U{8}' then [key] else []
  }

  lemma {:induction false} ControlsAreDropped(keys: seq<char>, size: nat)
    ensures Pressed(Heard(keys), size) == Pressed(keys, size)
  {
    if keys != [] {
      var n := |keys| - 1;
      ControlsAreDropped(keys[..n], size);
      var h := Heard(keys[..n]);
      assert (h + [keys[n]])[..|h|] == h;
      assert h + [] == h;
    }
  }

  // ---------- What the terminal shows ----------

  /** A line of a terminal: the characters on it and the cursor, which stands on or right behind them. */
  datatype Screen = Screen(cells: seq<char>, cursor: nat)

  predicate OnLine(t: Screen) { t.cursor <= |t.cells| }

  /** An erasing character moves the cursor to the left; any other is shown and moves it to the right. */
  function Show(t: Screen, c: char): (u: Screen)
    requires OnLine(t)
    ensures OnLine(u)
  {
    if IsErase(c) then t.(cursor := if t.cursor > 0 then t.cursor - 1 else 0)
    else if t.cursor < |t.cells| then Screen(t.cells[t.cursor := c], t.cursor + 1)
    else Screen(t.cells + [c], t.cursor + 1)
  }

  function ShowAll(t: Screen, cs: seq<char>): (u: Screen)
    requires OnLine(t)
    ensures OnLine(u)
  {
    if cs == [] then t else Show(ShowAll(t, cs[..|cs| - 1]), cs[|cs| - 1])
  }

  /** The text up to the cursor and nothing but blanks from it on. */
  predicate Shows(t: Screen, text: seq<char>) {
    OnLine(t) && t.cells[..t.cursor] == text && forall k :: t.cursor <= k < |t.cells| ==> t.cells[k] == ' '
  }

  lemma {:induction false} ShowAllConcat(t: Screen, a: seq<char>, b: seq<char>)
    requires OnLine(t)
    ensures ShowAll(t, a + b) == ShowAll(ShowAll(t, a), b)
    decreases |b|
  {
    if b == [] {
      assert a + b == a;
    } else {
      assert (a + b)[..|a + b| - 1] == a + b[..|b| - 1];
      ShowAllConcat(t, a, b[..|b| - 1]);
    }
  }

  lemma ShowKey(t: Screen, text: seq<char>, c: char, size: nat)
    requires Shows(t, text)
    ensures Shows(ShowAll(t, Echo(text, c, size)), Press(text, c, size))
  {
    if IsErase(c) && text != [] {
      var u := Show(t, c);
      var v := Show(u, ' ');
      var w := Show(v, c);
      assert [c, ' ', c][..2] == [c, ' '] && [c, ' '][..1] == [c] && [c][..0] == [];
      assert ShowAll(t, [c]) == u && ShowAll(t, [c, ' ']) == v && ShowAll(t, [c, ' ', c]) == w;
      assert w.cells == t.cells[t.cursor - 1 := ' '] && w.cursor == t.cursor - 1;
      assert w.cells[..w.cursor] == text[..|text| - 1];
    } else if !IsErase(c) && c >= ' ' && |text| + 1 < size {
      var u := Show(t, c);
      assert [c][..0] == [];
      assert ShowAll(t, [c]) == u;
      assert u.cells[..u.cursor] == text + [c];
    }
  }

  /** While a line is typed, the terminal shows its text: what the echo leaves up to the cursor is exactly what
      the shell has stored, and what was erased is blank. */
  lemma {:induction false} ScreenShowsText(keys: seq<char>, size: nat)
    ensures Shows(ShowAll(Screen([], 0), Echoed(keys, size)), Pressed(keys, size))
  {
    hide Press, Echo, Show, Shows;
    if keys == [] {
      NothingShown();
    } else {
      var n := |keys| - 1;
      var before := Echoed(keys[..n], size);
      ScreenShowsText(keys[..n], size);
      ShowKey(ShowAll(Screen([], 0), before), Pressed(keys[..n], size), keys[n], size);
      ShowAllConcat(Screen([], 0), before, Echo(Pressed(keys[..n], size), keys[n], size));
    }
  }

  lemma NothingShown()
    ensures Shows(Screen([], 0), [])
  {}

  // ---------- A command arrives ----------

  function Joined(words: seq<seq<char>>): seq<char> {
    if |words| == 0 then [] else if |words| == 1 then words[0] else words[0] + " " + Joined(words[1..])
  }

  predicate IsWord(w: seq<char>) { w != [] && forall c :: c in w ==> IsPlain(c) && c !in BLANKS }

  lemma {:induction false} JoinedIsPlain(words: seq<seq<char>>)
    requires forall w :: w in words ==> IsWord(w)
    ensures forall c :: c in Joined(words) ==> IsPlain(c)
  {
    if |words| == 1 {
      assert IsWord(words[0]);
    } else if |words| > 1 {
      assert IsWord(words[0]);
      JoinedIsPlain(words[1..]);
    }
  }

  predicate IsSpelled(s: seq<char>, r: Run, w: seq<char>) { r.start < r.end <= |s| && s[r.start..r.end] == w }

  predicate Spell(s: seq<char>, rs: seq<Run>, words: seq<seq<char>>) {
    |rs| == |words| && forall k :: 0 <= k < |rs| ==> IsSpelled(s, rs[k], words[k])
  }

  /** The runs of a string that goes on with the given words are these words. */
  lemma {:induction false} RunsAreWords(s: seq<char>, p: nat, words: seq<seq<char>>)
    requires p <= |s| && s[p..] == Joined(words) && forall w :: w in words ==> IsWord(w)
    ensures Spell(s, Runs(s, BLANKS, p), words)
    decreases |words|
  {
    hide IsWord, Runs;
    if words == [] {
      NoRuns(s, p);
    } else {
      var w := words[0];
      var j := p + |w|;
      WordAhead(s, p, words);
      FirstWord(s, p, j);
      if |words| > 1 {
        hide Joined, Spell;
        RunsAreWords(s, j + 1, words[1..]);
        SpellOn(s, Run(p, j), Runs(s, BLANKS, j + 1), words);
      }
    }
  }

  /** What `Joined` looks like from the front. */
  lemma WordAhead(s: seq<char>, p: nat, words: seq<seq<char>>)
    requires p <= |s| && s[p..] == Joined(words) && words != [] && IsWord(words[0])
    ensures var j := p + |words[0]|;
      && p < j <= |s| && s[p..j] == words[0]
      && (j == |s| <==> |words| == 1)
      && (|words| > 1 ==> s[j] == ' ' && s[j + 1..] == Joined(words[1..]))
  {
    var w := words[0];
    var j := p + |w|;
    assert s[p..j] == s[p..][..|w|] == w;
    if |words| > 1 {
      assert s[j] == s[p..][|w|];
      assert s[j + 1..] == s[p..][|w| + 1..] == Joined(words[1..]);
    }
  }

  lemma SpellOn(s: seq<char>, r: Run, rs: seq<Run>, words: seq<seq<char>>)
    requires words != [] && r.start < r.end <= |s| && s[r.start..r.end] == words[0] && Spell(s, rs, words[1..])
    ensures Spell(s, [r] + rs, words)
  {
    forall k | 0 <= k < |words| ensures IsSpelled(s, ([r] + rs)[k], words[k]) {
      if k > 0 {
        assert IsSpelled(s, rs[k - 1], words[1..][k - 1]);
      }
    }
  }

  lemma NoRuns(s: seq<char>, p: nat)
    requires p == |s|
    ensures Runs(s, BLANKS, p) == []
  {}

  lemma NoBlanks(s: seq<char>, p: nat, j: nat)
    requires p < j <= |s| && IsWord(s[p..j])
    ensures forall k :: p <= k < j ==> s[k] !in BLANKS
  {
    forall k | p <= k < j ensures s[k] !in BLANKS {
      assert s[p..j][k - p] in s[p..j];
    }
  }

  lemma FirstNext(s: seq<char>, p: nat, j: nat, delim: set<char>)
    requires p < j <= |s| && (j < |s| ==> s[j] in delim) && forall k :: p <= k < j ==> s[k] !in delim
    ensures NextRun(s, delim, p) == Some(Run(p, j))
  {
    PastIs(s, p, delim, p);
    FirstIs(s, p, delim, j);
  }

  lemma FirstWord(s: seq<char>, p: nat, j: nat)
    requires p < j <= |s| && IsWord(s[p..j]) && (j < |s| ==> s[j] == ' ')
    ensures Runs(s, BLANKS, p) == [Run(p, j)] + if j == |s| then [] else Runs(s, BLANKS, j + 1)
  {
    hide NextRun, IsWord, Runs;
    NoBlanks(s, p, j);
    FirstNext(s, p, j, BLANKS);
    RunsFirst(s, BLANKS, p);
    var rs := Runs(s, BLANKS, p);
    assert rs == [rs[0]] + rs[1..];
  }

  /** Words typed with blanks between them, if they fit, are the runs of the line that is read. */
  lemma CommandArrives(words: seq<seq<char>>, size: nat)
    requires (forall w :: w in words ==> IsWord(w)) && |Joined(words)| < size
    ensures var text := Pressed(Joined(words), size); Spell(text, Runs(text, BLANKS, 0), words)
  {
    JoinedIsPlain(words);
    hide IsPlain;
    PlainKept(Joined(words), size);
    RunsAreWords(Joined(words), 0, words);
  }

  // ---------- The code ----------

  class ShellThread {
    const line: array<char>
    const args: array<Option<nat>>
    var tokp: Option<nat>

    predicate Valid()
      reads this
    {
      line.Length == SHELL_MAX_LINE_LENGTH && args.Length == SHELL_MAX_ARGUMENTS + 1
    }

    constructor ()
      ensures Valid() && fresh(line) && fresh(args)
    {
      line := new char[SHELL_MAX_LINE_LENGTH];
      args := new Option<nat>[SHELL_MAX_ARGUMENTS + 1];
      tokp := None;
    }

    method StrTok(str: Option<nat>, delim: set<char>) returns (token: Option<nat>)
      requires NUL !in delim && Usable(Cursor(line[..], if str.Some? then str else tokp))
      modifies this`tokp, line
      ensures (Cursor(line[..], tokp), token) == Tok(Cursor(old(line[..]), if str.Some? then str else old(tokp)), delim)
    {
      if str.Some? {
        tokp := str;
      }
      if tokp.None? {
        return None;
      }
      ScansStay(line[..], tokp.value, delim);
      var start := Past(line[..], tokp.value, delim);
      var stop := FirstOf(line[..], start, delim + {NUL});
      if line[stop] == NUL {
        tokp := None;
      } else {
        line[stop] := NUL;
        tokp := Some(stop + 1);
      }
      token := if line[start] != NUL then Some(start) else None;
    }

    /** The command is the first token of the line and the arguments are the next ones, up to four; with more
        than four there is no command. */
    method SplitLine() returns (cmd: Option<nat>, n: nat)
      requires Valid() && IsString(line[..], 0)
      modifies this`tokp, line, args
      ensures n <= SHELL_MAX_ARGUMENTS && args[n] == None
      ensures line[..] == After(old(line[..]), BLANKS, n + 2).line
      ensures var rs := Runs(CString(old(line[..]), 0), BLANKS, 0);
        && n == (if rs == [] then 0 else if |rs| <= 5 then |rs| - 1 else 4)
        && cmd == (if 1 <= |rs| <= 5 then Some(rs[0].start) else None)
        && forall k :: 0 <= k < n ==> args[k] == Some(rs[k + 1].start)
    {
      hide Tok, Runs, IsString;
      ghost var was := line[..];
      ghost var rs := Runs(CString(was, 0), BLANKS, 0);
      TokensAreRuns(was, BLANKS, 0);
      var lp := StrTok(Some(0), BLANKS);
      cmd, n := lp, 0;
      lp := StrTok(None, BLANKS);
      TokensAreRuns(was, BLANKS, 1);
      while lp != None
        invariant n <= SHELL_MAX_ARGUMENTS && (n == 0 || n < |rs|)
        invariant Cursor(line[..], tokp) == After(was, BLANKS, n + 2)
        invariant lp == if n + 1 < |rs| then Some(rs[n + 1].start) else None
        invariant cmd == if rs == [] then None else Some(rs[0].start)
        invariant forall k :: 0 <= k < n ==> args[k] == Some(rs[k + 1].start)
        decreases SHELL_MAX_ARGUMENTS - n
      {
        if n >= SHELL_MAX_ARGUMENTS {
          cmd := None;
          break;
        }
        args[n] := lp;
        n := n + 1;
        TokensAreRuns(was, BLANKS, n + 1);
        lp := StrTok(None, BLANKS);
      }
      args[n] := None;
    }

    /** Reads keys until the line ends, by return, or the session does, by control-D or the end of the input. */
    method GetLine(input: seq<char>, size: nat) returns (logout: bool, used: nat, echo: seq<char>)
      requires 1 <= size <= line.Length
      modifies line
      ensures var end := FirstOf(input, 0, {'\U{4}', '\r'});
        && logout == (end == |input| || input[end] == '\U{4}')
        && used == (if end == |input| then end else end + 1)
        && (!logout ==> IsString(line[..], 0) && CString(line[..], 0) == Pressed(input[..end], size))
        && echo == Echoed(input[..end], size) + if end == |input| then [] else if logout then "^D" else "\r\n"
      ensures line[size..] == old(line[size..])
    {
      hide Echo;
      var p := 0;
      used := 0;
      echo := [];
      ghost var end := FirstOf(input, 0, {CTRL_D, '\r'});
      while true
        invariant used <= end && p < size
        invariant line[..p] == Pressed(input[..used], size)
        invariant echo == Echoed(input[..used], size)
        invariant line[size..] == old(line[size..])
        decreases end - used
      {
        if used == |input| {
          return true, used, echo;
        }
        var c := input[used];
        used := used + 1;
        if c == CTRL_D {
          return true, used, echo + "^D";
        }
        if c == '\r' {
          TextIsPlain(input[..end], size);
          line[p] := NUL;
          LineHolds(line[..], p);
          return false, used, echo + "\r\n";
        }
        assert input[..used][..used - 1] == input[..used - 1];
        EchoIs(line[..p], c, size);
        if c == BACKSPACE || c == DELETE {
          if p != 0 {
            echo := echo + [c, ' ', c];
            p := p - 1;
          }
        } else if c >= ' ' && p < size - 1 {
          echo := echo + [c];
          line[p] := c;
          p := p + 1;
        }
      }
    }

    /** The line holds run `r` of `s` as a string of its own. */
    predicate Reads(s: seq<char>, r: Run)
      reads line
    {
      && r.start < r.end <= |s|
      && IsString(line[..], r.start) && CString(line[..], r.start) == s[r.start..r.end]
    }

    /** One line of a session: what was typed is read and cut up, and command and arguments are strings of
        their own in the line. */
    method ReadCommand(input: seq<char>) returns (logout: bool, used: nat, cmd: Option<nat>, n: nat)
      requires Valid()
      modifies this`tokp, line, args
      ensures n <= 4 && used <= |input| && (!logout ==> used > 0 && input[used - 1] == '\r')
      ensures var s := Pressed(if used == 0 then [] else input[..used - 1], 64);
        var rs := Runs(s, {' ', '\t'}, 0);
        !logout ==>
          && n == (if rs == [] then 0 else if |rs| <= 5 then |rs| - 1 else 4) && args[n] == None
          && cmd == (if 1 <= |rs| <= 5 then Some(rs[0].start) else None)
          && (forall k :: 0 <= k < n ==> args[k] == Some(rs[k + 1].start))
          && (forall k :: 0 <= k <= n && k < |rs| ==> Reads(s, rs[k]))
    {
      hide Runs, After, IsString, CString, Pressed;
      cmd, n := None, 0;
      var echo;
      logout, used, echo := GetLine(input, SHELL_MAX_LINE_LENGTH);
      if !logout {
        ghost var was := line[..];
        cmd, n := SplitLine();
        ghost var s := CString(was, 0);
        forall k | 0 <= k <= n && k < |Runs(s, BLANKS, 0)| ensures Reads(s, Runs(s, BLANKS, 0)[k]) {
          TokensStay(was, BLANKS, k, n + 2);
        }
      }
    }
  }

  lemma EchoIs(text: seq<char>, c: char, size: nat)
    ensures Echo(text, c, size) ==
      if c == BACKSPACE || c == DELETE then if text == [] then [] else [c, ' ', c]
      else if c >= ' ' && |text| < size - 1 then [c] else []
  {}

  lemma LineHolds(line: seq<char>, p: nat)
    requires p < |line| && line[p] == NUL && NUL !in line[..p]
    ensures IsString(line, 0) && CString(line, 0) == line[..p]
  {
    forall k | 0 <= k < p ensures line[k] != NUL {
      assert line[..p][k] in line[..p];
    }
    FirstIs(line, 0, {NUL}, p);
  }
}
