/** The log watchdog (scripts/openclaw-watchdog.py): a bounded deque of hit times, a sliding
    window, a threshold, and a restart cooldown.

    A line carries whether one of the stuck-state patterns matched, and the reading of the
    monotonic clock taken when it did.  The reference behaviour, `ExactRun`, keeps every hit since
    the last clear, without a bound, and looks for those inside the window afresh each time. */
module Watchdog {
  import opened Sequences

  datatype Line = Line(stuck: bool, now: int)

  datatype Settings = Settings(threshold: nat, window: int, cooldown: int, autorestart: bool)

  datatype Action = BelowThreshold | AskOperator | RunRestart | CoolingDown

  /** What one line makes the watchdog report: the hit count it prints, and what it then does. */
  datatype Report = NoMatch | Matched(count: nat, action: Action)

  /** A matching line and when it was seen. */
  datatype Hit = Hit(line: nat, at: int)

  /** A restart, with the hits the exact window held when it was decided. */
  datatype Restart = Restart(line: nat, at: int, backing: seq<Hit>)

  datatype Exact = Exact(since: seq<Hit>, lastRestart: int, restarts: seq<Restart>, reports: seq<Report>)

  ghost predicate ClockMonotonic(lines: seq<Line>) {
    forall i, j :: 0 <= i < j < |lines| && lines[i].stuck && lines[j].stuck ==> lines[i].now <= lines[j].now
  }

  /** The hits no older than the window at time `now`. */
  function InWindow(s: Settings, since: seq<Hit>, now: int): seq<Hit> {
    if since == [] then []
    else
      var h := since[|since|-1];
      InWindow(s, since[..|since|-1], now) + if now - h.at <= s.window then [h] else []
  }

  function Decide(s: Settings, count: nat, now: int, lastRestart: int): Action {
    if count < s.threshold then BelowThreshold
    else if !s.autorestart then AskOperator
    else if now - lastRestart >= s.cooldown then RunRestart
    else CoolingDown
  }

  function ExactStep(s: Settings, e: Exact, line: nat, now: int): Exact {
    var since := e.since + [Hit(line, now)];
    var held := InWindow(s, since, now);
    var action := Decide(s, |held|, now, e.lastRestart);
    Exact(if action == AskOperator || action == RunRestart then [] else since,
          if action == RunRestart then now else e.lastRestart,
          if action == RunRestart then e.restarts + [Restart(line, now, held)] else e.restarts,
          e.reports + [Matched(|held|, action)])
  }

  /** The reference run: no bound on the number of hits remembered, nothing ever trimmed. */
  function ExactRun(s: Settings, lines: seq<Line>): (e: Exact)
    ensures |e.reports| == |lines|
  {
    if lines == [] then Exact([], 0, [], [])
    else
      var n := |lines| - 1;
      var e := ExactRun(s, lines[..n]);
      if lines[n].stuck then ExactStep(s, e, n, lines[n].now) else e.(reports := e.reports + [NoMatch])
  }

  /** The only trace the deque's bound leaves: the printed count stops at the bound. */
  function BoundedAll(reports: seq<Report>, bound: nat): (r: seq<Report>)
    ensures |r| == |reports|
  {
    seq(|reports|, i requires 0 <= i < |reports| => Bounded(reports[i], bound))
  }

  function Bounded(r: Report, bound: nat): Report {
    if r.Matched? && r.count > bound then Matched(bound, r.action) else r
  }

  function Times(hits: seq<Hit>): (ts: seq<int>)
    ensures |ts| == |hits| && forall k :: 0 <= k < |ts| ==> ts[k] == hits[k].at
  {
    seq(|hits|, k requires 0 <= k < |hits| => hits[k].at)
  }

  /** Hits in the order of their lines, on lines that match, at the times those lines say. */
  ghost predicate Recorded(lines: seq<Line>, hits: seq<Hit>) {
    && (forall i, j :: 0 <= i < j < |hits| ==> hits[i].line < hits[j].line)
    && (forall i :: 0 <= i < |hits| ==>
          hits[i].line < |lines| && lines[hits[i].line].stuck && hits[i].at == lines[hits[i].line].now)
  }

  lemma {:induction false} SinceRecorded(s: Settings, lines: seq<Line>)
    ensures Recorded(lines, ExactRun(s, lines).since)
  {
    if lines != [] {
      SinceRecorded(s, lines[..|lines|-1]);
    }
  }

  /** With times that never go back, the window is a suffix of the hits it is taken from. */
  lemma {:induction false} WindowIsSuffix(s: Settings, since: seq<Hit>, now: int, cut: nat)
    requires cut <= |since|
    requires forall k :: 0 <= k < cut ==> now - since[k].at > s.window
    requires forall k :: cut <= k < |since| ==> now - since[k].at <= s.window
    ensures InWindow(s, since, now) == since[cut..]
  {
    if since != [] {
      var n := |since| - 1;
      WindowIsSuffix(s, since[..n], now, Min(cut, n));
    }
  }

  // ---------------------------------------------------------------- the loop

  /** The deque against the times `ts` of all hits since the last clear: it holds the last `bound`
      of those from `cut` on, and `cut` is where the window began at time `at`. */
  ghost predicate Mirrors(hits: seq<int>, ts: seq<int>, cut: nat, bound: nat, window: int, at: int) {
    && cut <= |ts|
    && |hits| == Min(bound, |ts| - cut)
    && IsSuffix(hits, ts)
    && StartsAt(ts, window, at, cut)
  }

  ghost predicate IsSuffix(r: seq<int>, ts: seq<int>) {
    |r| <= |ts| && r == ts[|ts|-|r|..]
  }

  ghost predicate StartsAt(ts: seq<int>, window: int, at: int, cut: nat) {
    && cut <= |ts|
    && (forall i :: 0 <= i < cut ==> at - ts[i] > window)
    && (forall i :: cut <= i < |ts| ==> at - ts[i] <= window)
  }

  ghost predicate NonDecreasing(ts: seq<int>) {
    forall i, j :: 0 <= i < j < |ts| ==> ts[i] <= ts[j]
  }

  lemma WindowStart(ts: seq<int>, window: int, at: int) returns (cut: nat)
    requires NonDecreasing(ts)
    ensures StartsAt(ts, window, at, cut)
  {
    cut := 0;
    while cut < |ts| && at - ts[cut] > window
      invariant cut <= |ts|
      invariant forall i :: 0 <= i < cut ==> at - ts[i] > window
    {
      cut := cut + 1;
    }
  }

  lemma StartAdvances(ts: seq<int>, window: int, at: int, now: int, cut: nat) returns (newCut: nat)
    requires StartsAt(ts, window, at, cut) && NonDecreasing(ts + [now])
    requires ts != [] ==> at <= now
    ensures StartsAt(ts + [now], window, now, newCut) && cut <= newCut
  {
    newCut := WindowStart(ts + [now], window, now);
    assert forall i :: 0 <= i < cut ==> now - (ts + [now])[i] > window;
    assert newCut <= |ts| ==> now - (ts + [now])[newCut] <= window;
  }

  /** Drops times from the front while they are older than the window. */
  method Trim(hits: seq<int>, window: int, now: int) returns (r: seq<int>, ghost dropped: nat)
    ensures dropped <= |hits| && r == hits[dropped..]
    ensures forall i :: 0 <= i < dropped ==> now - hits[i] > window
    ensures dropped < |hits| ==> now - hits[dropped] <= window
  {
    r, dropped := hits, 0;
    while r != [] && now - r[0] > window
      invariant dropped <= |hits| && r == hits[dropped..]
      invariant forall i :: 0 <= i < dropped ==> now - hits[i] > window
      decreases |r|
    {
      r, dropped := r[1..], dropped + 1;
    }
  }

  /** Appends to a deque of at most `bound` elements: a full one drops its oldest. */
  method Append(hits: seq<int>, bound: nat, now: int, ghost ts: seq<int>, ghost cut: nat) returns (r: seq<int>)
    requires cut <= |ts| && IsSuffix(hits, ts) && |hits| == Min(bound, |ts| - cut)
    ensures IsSuffix(r, ts + [now])
    ensures |r| == Min(bound, |ts + [now]| - cut)
  {
    r := hits + [now];
    if |r| > bound { r := r[1..]; }
  }

  /** One hit reaching the deque: the append and the trim. */
  method AppendAndTrim(hits: seq<int>, bound: nat, window: int, now: int,
                       ghost at: int, ghost ts: seq<int>, ghost cut: nat)
    returns (r: seq<int>, ghost newCut: nat)
    requires Mirrors(hits, ts, cut, bound, window, at)
    requires NonDecreasing(ts + [now]) && (ts != [] ==> at <= now)
    ensures Mirrors(r, ts + [now], newCut, bound, window, now)
  {
    ghost var all := ts + [now];
    newCut := StartAdvances(ts, window, at, now, cut);
    var appended := Append(hits, bound, now, ts, cut);
    ghost var dropped;
    r, dropped := Trim(appended, window, now);
    TrimStopsAtStart(all, appended, dropped, window, now, cut, newCut, bound);
  }

  lemma TrimStopsAtStart(all: seq<int>, appended: seq<int>, dropped: nat, window: int, now: int,
                         cut: nat, newCut: nat, bound: nat)
    requires IsSuffix(appended, all) && StartsAt(all, window, now, newCut)
    requires cut <= newCut && |appended| == Min(bound, |all| - cut)
    requires dropped <= |appended|
    requires forall i :: 0 <= i < dropped ==> now - appended[i] > window
    requires dropped < |appended| ==> now - appended[dropped] <= window
    ensures Mirrors(appended[dropped..], all, newCut, bound, window, now)
  {
    var k := |all| - |appended|;
    if dropped > 0 {
      assert now - appended[dropped - 1] > window && all[k + dropped - 1] == appended[dropped - 1];
    }
    if dropped < |appended| {
      assert all[k + dropped] == appended[dropped];
    }
    assert k + dropped == Max(k, newCut);
  }

  /** The deque decides as the exact window does, and prints its size up to the bound. */
  lemma SameDecision(s: Settings, since: seq<Hit>, now: int, hits: seq<int>, cut: nat, lastRestart: int)
    requires Mirrors(hits, Times(since), cut, 4 * s.threshold, s.window, now)
    ensures var held := InWindow(s, since, now);
            && Decide(s, |hits|, now, lastRestart) == Decide(s, |held|, now, lastRestart)
            && |hits| == Min(4 * s.threshold, |held|)
  {
    WindowIsSuffix(s, since, now, cut);
  }

  /** The deque against the reference state. */
  ghost predicate Holds(s: Settings, since: seq<Hit>, hits: seq<int>, cut: nat) {
    if since == [] then hits == []
    else Mirrors(hits, Times(since), cut, 4 * s.threshold, s.window, since[|since|-1].at)
  }

  /** The deque after it has taken in a hit and dropped the old ones. */
  method Remember(s: Settings, now: int, hits: seq<int>, ghost since: seq<Hit>, ghost line: nat, ghost cut: nat)
    returns (hits': seq<int>, ghost cut': nat)
    requires Holds(s, since, hits, cut)
    requires NonDecreasing(Times(since + [Hit(line, now)]))
    ensures Mirrors(hits', Times(since + [Hit(line, now)]), cut', 4 * s.threshold, s.window, now)
  {
    ghost var since' := since + [Hit(line, now)];
    ghost var at := if since == [] then now else since[|since|-1].at;
    assert Times(since') == Times(since) + [now];
    assert since != [] ==> Times(since')[|since|-1] == at <= Times(since')[|since|];
    hits', cut' := AppendAndTrim(hits, s.threshold * 4, s.window, now, at, Times(since), if since == [] then 0
                                 else cut);
  }

  /** The body of the loop for a line that matches. */
  method OnHit(s: Settings, now: int, hits: seq<int>, lastRestart: int, ghost e: Exact, ghost line: nat, ghost cut: nat)
    returns (report: Report, hits': seq<int>, lastRestart': int, ghost cut': nat)
    requires Holds(s, e.since, hits, cut) && lastRestart == e.lastRestart
    requires NonDecreasing(Times(e.since + [Hit(line, now)]))
    ensures var e' := ExactStep(s, e, line, now);
            && Holds(s, e'.since, hits', cut') && lastRestart' == e'.lastRestart
            && e'.reports == e.reports + [e'.reports[|e.reports|]]
            && report == Bounded(e'.reports[|e.reports|], 4 * s.threshold)
  {
    hits', cut' := Remember(s, now, hits, e.since, line, cut);
    SameDecision(s, e.since + [Hit(line, now)], now, hits', cut', lastRestart);
    var action := Decide(s, |hits'|, now, lastRestart);
    report := Matched(|hits'|, action);
    lastRestart' := lastRestart;
    if action == AskOperator {
      hits' := [];
    } else if action == RunRestart {
      lastRestart' := now;
      hits' := [];
    }
  }

  /** `run`, with the settings already read from the environment: the reports in order, and the
      deque and the time of the last restart at the end of the stream. */
  method Run(s: Settings, lines: seq<Line>) returns (reports: seq<Report>, hits: seq<int>, lastRestart: int)
    requires ClockMonotonic(lines)
    ensures ActsRight(s, lines, reports)
    ensures reports == BoundedAll(ExactRun(s, lines).reports, 4 * s.threshold)
    ensures lastRestart == ExactRun(s, lines).lastRestart
    ensures var since := ExactRun(s, lines).since;
            hits == if since == [] then []
                    else Last(Times(InWindow(s, since, since[|since|-1].at)), 4 * s.threshold)
  {
    reports, hits, lastRestart := [], [], 0;
    ghost var cut: nat, e := 0, ExactRun(s, []);
    for n := 0 to |lines|
      invariant e == ExactRun(s, lines[..n])
      invariant reports == BoundedAll(e.reports, 4 * s.threshold)
      invariant Holds(s, e.since, hits, cut) && lastRestart == e.lastRestart
    {
      ghost var next := ExactNext(s, lines, n);
      var report := NoMatch;
      if lines[n].stuck {
        report, hits, lastRestart, cut := OnHit(s, lines[n].now, hits, lastRestart, e, n, cut);
        next := ExactStep(s, e, n, lines[n].now);
      }
      reports := reports + [report];
      BoundedSnoc(e.reports, next.reports, 4 * s.threshold);
      e := next;
    }
    assert lines[..|lines|] == lines;
    ReportsAct(s, lines);
    if e.since != [] {
      HeldAtEnd(s, e.since, hits, cut);
    }
  }

  // ---------------------------------------------------------------- what the reports must say

  predicate DidAct(r: Report, action: Action) {
    r.Matched? && r.action == action
  }

  /** The first line after the last line before `i` that is reported as asking or restarting. */
  function ClearedBefore(reports: seq<Report>, i: nat): (from: nat)
    requires i <= |reports|
    ensures from <= i
  {
    if i == 0 then 0
    else if DidAct(reports[i-1], AskOperator) || DidAct(reports[i-1], RunRestart) then i
    else ClearedBefore(reports, i - 1)
  }

  /** When the last line before `i` that is reported as restarting was seen; 0 if there is none. */
  function RestartedBefore(lines: seq<Line>, reports: seq<Report>, i: nat): int
    requires i <= |lines| && i <= |reports|
  {
    if i == 0 then 0
    else if DidAct(reports[i-1], RunRestart) then lines[i-1].now
    else RestartedBefore(lines, reports, i - 1)
  }

  /** How many lines from `from` up to `to` match and are no older than `oldest`. */
  function Recent(lines: seq<Line>, from: nat, to: nat, oldest: int): nat
    requires to <= |lines|
  {
    if to <= from then 0
    else Recent(lines, from, to - 1, oldest) + if lines[to-1].stuck && lines[to-1].now >= oldest then 1 else 0
  }

  /** The reports, from the lines alone: with `n` the matching lines since the last one that asked or
      restarted that are inside the window, the watchdog stays below the threshold if `n` does, asks if
      auto-restart is off, and otherwise restarts if the cooldown is over and waits if not. */
  ghost predicate ActsRight(s: Settings, lines: seq<Line>, reports: seq<Report>) {
    && |reports| == |lines|
    && forall i :: 0 <= i < |lines| ==> ActsRightAt(s, lines, reports, i)
  }

  ghost predicate ActsRightAt(s: Settings, lines: seq<Line>, reports: seq<Report>, i: nat)
    requires |reports| == |lines| && i < |lines|
  {
    var n := Recent(lines, ClearedBefore(reports, i), i + 1, lines[i].now - s.window);
    var rested := lines[i].now - RestartedBefore(lines, reports, i) >= s.cooldown;
    RightReport(s, lines[i].stuck, n, rested, reports[i])
  }

  predicate RightReport(s: Settings, stuck: bool, n: nat, rested: bool, r: Report) {
    && (r.Matched? <==> stuck)
    && (stuck ==>
          && r.count == Min(4 * s.threshold, n)
          && (r.action == BelowThreshold <==> n < s.threshold)
          && (r.action == AskOperator <==> n >= s.threshold && !s.autorestart)
          && (r.action == RunRestart <==> n >= s.threshold && s.autorestart && rested)
          && (r.action == CoolingDown <==> n >= s.threshold && s.autorestart && !rested))
  }

  /** The hits of the matching lines from `from` up to `to`. */
  function HitsBetween(lines: seq<Line>, from: nat, to: nat): seq<Hit>
    requires to <= |lines|
  {
    if to <= from then []
    else if lines[to-1].stuck then HitsBetween(lines, from, to - 1) + [Hit(to - 1, lines[to-1].now)]
    else HitsBetween(lines, from, to - 1)
  }

  lemma {:induction false} RecentAreHeld(s: Settings, lines: seq<Line>, from: nat, to: nat, now: int)
    requires to <= |lines|
    ensures |InWindow(s, HitsBetween(lines, from, to), now)| == Recent(lines, from, to, now - s.window)
  {
    if to > from {
      RecentAreHeld(s, lines, from, to - 1, now);
      var front := HitsBetween(lines, from, to - 1);
      assert (front + [Hit(to - 1, lines[to-1].now)])[..|front|] == front;
    }
  }

  /** Looking back from `i` uses only the lines and the actions before `i`. */
  lemma {:induction false} LooksBack(s: Settings, lines: seq<Line>, lines': seq<Line>, rs: seq<Report>,
                                     rs': seq<Report>, i: nat)
    requires i <= |lines| && i <= |lines'| && i <= |rs| && i <= |rs'|
    requires forall j :: 0 <= j < i ==> lines[j] == lines'[j] && SameAction(rs[j], rs'[j])
    ensures ClearedBefore(rs, i) == ClearedBefore(rs', i)
    ensures RestartedBefore(lines, rs, i) == RestartedBefore(lines', rs', i)
  {
    if i > 0 {
      LooksBack(s, lines, lines', rs, rs', i - 1);
    }
  }

  predicate SameAction(a: Report, b: Report) {
    (a.Matched? <==> b.Matched?) && (a.Matched? ==> a.action == b.action)
  }

  lemma {:induction false} RecentLocal(lines: seq<Line>, lines': seq<Line>, from: nat, to: nat, oldest: int)
    requires to <= |lines| && to <= |lines'|
    requires forall j :: 0 <= j < to ==> lines[j] == lines'[j]
    ensures Recent(lines, from, to, oldest) == Recent(lines', from, to, oldest)
    ensures HitsBetween(lines, from, to) == HitsBetween(lines', from, to)
  {
    if to > from {
      RecentLocal(lines, lines', from, to - 1, oldest);
    }
  }

  /** The reference state, from the lines and the reports. */
  ghost predicate Tracks(lines: seq<Line>, e: Exact) {
    && |e.reports| == |lines|
    && e.since == HitsBetween(lines, ClearedBefore(e.reports, |lines|), |lines|)
    && e.lastRestart == RestartedBefore(lines, e.reports, |lines|)
  }

  function Next(s: Settings, e: Exact, n: nat, line: Line): Exact {
    if line.stuck then ExactStep(s, e, n, line.now) else e.(reports := e.reports + [NoMatch])
  }

  /** Looking back from the new line sees what the state tracks. */
  lemma LooksBackNext(s: Settings, lines: seq<Line>, e: Exact, line: Line)
    requires Tracks(lines, e)
    ensures var n, all, rs := |lines|, lines + [line], Next(s, e, |lines|, line).reports;
            && ClearedBefore(rs, n) == ClearedBefore(e.reports, n)
            && RestartedBefore(all, rs, n) == e.lastRestart
            && HitsBetween(all, ClearedBefore(e.reports, n), n) == e.since
  {
    var all, e' := lines + [line], Next(s, e, |lines|, line);
    LooksBack(s, lines, all, e.reports, e'.reports, |lines|);
    RecentLocal(lines, all, ClearedBefore(e.reports, |lines|), |lines|, 0);
  }

  lemma TrackStep(s: Settings, lines: seq<Line>, e: Exact, line: Line)
    requires Tracks(lines, e)
    ensures Tracks(lines + [line], Next(s, e, |lines|, line))
  {
    LooksBackNext(s, lines, e, line);
  }

  lemma ReportRight(s: Settings, lines: seq<Line>, e: Exact, line: Line)
    requires Tracks(lines, e)
    ensures var n := |lines|;
            var hits := Recent(lines + [line], ClearedBefore(e.reports, n), n + 1, line.now - s.window);
            RightReport(s, line.stuck, hits, line.now - e.lastRestart >= s.cooldown,
                        Bounded(Next(s, e, n, line).reports[n], 4 * s.threshold))
  {
    var n, all := |lines|, lines + [line];
    if line.stuck {
      LooksBackNext(s, lines, e, line);
      RecentAreHeld(s, all, ClearedBefore(e.reports, n), n + 1, line.now);
      assert HitsBetween(all, ClearedBefore(e.reports, n), n + 1) == e.since + [Hit(n, line.now)];
    }
  }

  lemma {:induction false} ExactTracks(s: Settings, lines: seq<Line>)
    ensures Tracks(lines, ExactRun(s, lines))
  {
    if lines != [] {
      var n := |lines| - 1;
      ExactTracks(s, lines[..n]);
      TrackStep(s, lines[..n], ExactRun(s, lines[..n]), lines[n]);
      assert lines[..n] + [lines[n]] == lines;
    }
  }

  lemma {:induction false} ExactPrefix(s: Settings, lines: seq<Line>, n: nat)
    requires n <= |lines|
    ensures ExactRun(s, lines[..n]).reports == ExactRun(s, lines).reports[..n]
  {
    if n == |lines| {
      assert lines[..n] == lines;
    } else {
      var m := |lines| - 1;
      ExactPrefix(s, lines[..m], n);
      assert lines[..m][..n] == lines[..n];
      assert ExactRun(s, lines).reports[..m] == ExactRun(s, lines[..m]).reports;
    }
  }

  lemma ReportsAct(s: Settings, lines: seq<Line>)
    ensures ActsRight(s, lines, BoundedAll(ExactRun(s, lines).reports, 4 * s.threshold))
  {
    var reports := ExactRun(s, lines).reports;
    var bounded := BoundedAll(reports, 4 * s.threshold);
    forall i | 0 <= i < |lines| ensures ActsRightAt(s, lines, bounded, i) {
      ReportActs(s, lines, i);
    }
  }

  /** What looking back from `i` sees in the whole run, bounded or not, it sees in the run before `i`. */
  lemma SeesThePast(s: Settings, lines: seq<Line>, i: nat)
    requires i < |lines|
    ensures var e, bounded := ExactRun(s, lines[..i]), BoundedAll(ExactRun(s, lines).reports, 4 * s.threshold);
            && ClearedBefore(bounded, i) == ClearedBefore(e.reports, i)
            && RestartedBefore(lines, bounded, i) == RestartedBefore(lines[..i], e.reports, i)
  {
    var e, bounded := ExactRun(s, lines[..i]), BoundedAll(ExactRun(s, lines).reports, 4 * s.threshold);
    ExactPrefix(s, lines, i);
    forall j | 0 <= j < i ensures lines[..i][j] == lines[j] && SameAction(e.reports[j], bounded[j]) {
      assert e.reports[j] == ExactRun(s, lines).reports[j];
    }
    LooksBack(s, lines[..i], lines, e.reports, bounded, i);
  }

  lemma ReportIs(s: Settings, lines: seq<Line>, i: nat)
    requires i < |lines|
    ensures ExactRun(s, lines).reports[i] == Next(s, ExactRun(s, lines[..i]), i, lines[i]).reports[i]
  {
    ExactPrefix(s, lines, i + 1);
    assert lines[..i+1][..i] == lines[..i];
    assert ExactRun(s, lines[..i+1]) == Next(s, ExactRun(s, lines[..i]), i, lines[i]);
  }

  lemma ReportActs(s: Settings, lines: seq<Line>, i: nat)
    requires i < |lines|
    ensures ActsRightAt(s, lines, BoundedAll(ExactRun(s, lines).reports, 4 * s.threshold), i)
  {
    var e := ExactRun(s, lines[..i]);
    ExactTracks(s, lines[..i]);
    ReportRight(s, lines[..i], e, lines[i]);
    ReportIs(s, lines, i);
    SeesThePast(s, lines, i);
    RecentLocal(lines[..i] + [lines[i]], lines, ClearedBefore(e.reports, i), i + 1, lines[i].now - s.window);
  }

  // ---------------------------------------------------------------- steps of the run

  /** What the reference run does with line `n`, and that the times it remembers stay in order. */
  lemma ExactNext(s: Settings, lines: seq<Line>, n: nat) returns (next: Exact)
    requires n < |lines| && ClockMonotonic(lines)
    ensures next == ExactRun(s, lines[..n+1])
    ensures var e := ExactRun(s, lines[..n]);
            && next == (if lines[n].stuck then ExactStep(s, e, n, lines[n].now)
                        else e.(reports := e.reports + [NoMatch]))
            && (lines[n].stuck ==> NonDecreasing(Times(e.since + [Hit(n, lines[n].now)])))
            && |next.reports| == |e.reports| + 1 && next.reports[..|e.reports|] == e.reports
  {
    assert lines[..n+1][..n] == lines[..n];
    next := ExactRun(s, lines[..n+1]);
    SinceRecorded(s, lines[..n]);
  }

  lemma BoundedSnoc(rs: seq<Report>, more: seq<Report>, bound: nat)
    requires |more| == |rs| + 1 && more[..|rs|] == rs
    ensures BoundedAll(more, bound) == BoundedAll(rs, bound) + [Bounded(more[|rs|], bound)]
  {
  }

  lemma HeldAtEnd(s: Settings, since: seq<Hit>, hits: seq<int>, cut: nat)
    requires Holds(s, since, hits, cut) && since != []
    ensures hits == Last(Times(InWindow(s, since, since[|since|-1].at)), 4 * s.threshold)
  {
    WindowIsSuffix(s, since, since[|since|-1].at, cut);
    assert Times(since[cut..]) == Times(since)[cut..];
  }

  // ---------------------------------------------------------------- bounds on restarts

  function Matching(lines: seq<Line>): nat {
    if lines == [] then 0 else Matching(lines[..|lines|-1]) + if lines[|lines|-1].stuck then 1 else 0
  }

  /** A restart is backed by at least `threshold` hits of distinct lines, all inside one window
      that ends with it. */
  ghost predicate Backed(s: Settings, lines: seq<Line>, r: Restart) {
    && |r.backing| >= s.threshold
    && Recorded(lines, r.backing)
    && r.line < |lines| && r.at == lines[r.line].now
    && forall i :: 0 <= i < |r.backing| ==>
         r.backing[i].line <= r.line && r.at - s.window <= r.backing[i].at <= r.at
  }

  lemma {:induction false} WindowKeeps(s: Settings, lines: seq<Line>, since: seq<Hit>, now: int)
    requires Recorded(lines, since)
    ensures var w := InWindow(s, since, now);
            && Recorded(lines, w) && |w| <= |since|
            && (forall i :: 0 <= i < |w| ==> w[i] in since && now - w[i].at <= s.window)
  {
    if since != [] {
      var n := |since| - 1;
      WindowKeeps(s, lines, since[..n], now);
      forall i | 0 <= i < |InWindow(s, since[..n], now)|
        ensures InWindow(s, since[..n], now)[i].line < since[n].line
      {
        assert InWindow(s, since[..n], now)[i] in since[..n];
      }
    }
  }

  lemma {:induction false} EveryRestartIsBacked(s: Settings, lines: seq<Line>)
    requires ClockMonotonic(lines)
    ensures forall k :: 0 <= k < |ExactRun(s, lines).restarts| ==> Backed(s, lines, ExactRun(s, lines).restarts[k])
  {
    if lines != [] {
      var n := |lines| - 1;
      EveryRestartIsBacked(s, lines[..n]);
      var e := ExactRun(s, lines[..n]);
      forall k | 0 <= k < |e.restarts| ensures Backed(s, lines, e.restarts[k]) {
        assert Backed(s, lines[..n], e.restarts[k]);
      }
      if lines[n].stuck {
        SinceRecorded(s, lines[..n]);
        var since := e.since + [Hit(n, lines[n].now)];
        assert Recorded(lines, since);
        WindowKeeps(s, lines, since, lines[n].now);
      }
    }
  }

  /** The recorded restarts are the lines whose report says so, in order. */
  lemma {:induction false} RestartsAreReported(s: Settings, lines: seq<Line>)
    ensures RestartLines(ExactRun(s, lines).restarts) == ReportLines(ExactRun(s, lines).reports)
  {
    if lines != [] {
      var n := |lines| - 1;
      RestartsAreReported(s, lines[..n]);
      var e, e' := ExactRun(s, lines[..n]), ExactRun(s, lines);
      if |e'.restarts| > |e.restarts| {
        RestartLinesGrow(e.restarts, e'.restarts[|e.restarts|]);
      }
    }
  }

  lemma RestartLinesGrow(rs: seq<Restart>, r: Restart)
    ensures RestartLines(rs + [r]) == RestartLines(rs) + [r.line]
  {
    assert (rs + [r])[..|rs|] == rs;
  }

  function RestartLines(rs: seq<Restart>): seq<nat> {
    if rs == [] then [] else RestartLines(rs[..|rs|-1]) + [rs[|rs|-1].line]
  }

  function ReportLines(reports: seq<Report>): seq<nat> {
    if reports == [] then []
    else
      var n := |reports| - 1;
      ReportLines(reports[..n]) + if reports[n].Matched? && reports[n].action == RunRestart then [n] else []
  }

  ghost predicate AllAfter(hits: seq<Hit>, line: int) {
    forall i :: 0 <= i < |hits| ==> line < hits[i].line
  }

  /** No hit backs two restarts: each restart's hits, and those still held, come from lines after
      every restart before. */
  ghost predicate Separated(rs: seq<Restart>, since: seq<Hit>, n: nat) {
    && (forall j, k :: 0 <= j < k < |rs| ==> AllAfter(rs[k].backing, rs[j].line))
    && (forall k :: 0 <= k < |rs| ==> AllAfter(since, rs[k].line))
    && (forall k :: 0 <= k < |rs| ==> rs[k].line < n)
  }

  lemma {:induction false} BackingsAreDisjoint(s: Settings, lines: seq<Line>)
    ensures Separated(ExactRun(s, lines).restarts, ExactRun(s, lines).since, |lines|)
  {
    if lines != [] {
      var n := |lines| - 1;
      BackingsAreDisjoint(s, lines[..n]);
      if lines[n].stuck {
        var e := ExactRun(s, lines[..n]);
        var since := e.since + [Hit(n, lines[n].now)];
        forall k | 0 <= k < |e.restarts|
          ensures AllAfter(since, e.restarts[k].line)
          ensures AllAfter(InWindow(s, since, lines[n].now), e.restarts[k].line)
        {
          assert AllAfter(e.since, e.restarts[k].line);
          WindowAfter(s, since, lines[n].now, e.restarts[k].line);
        }
      }
    }
  }

  lemma {:induction false} WindowAfter(s: Settings, since: seq<Hit>, now: int, line: int)
    requires AllAfter(since, line)
    ensures AllAfter(InWindow(s, since, now), line)
  {
    if since != [] {
      WindowAfter(s, since[..|since|-1], now, line);
    }
  }

  ghost predicate Spaced(s: Settings, e: Exact) {
    && e.lastRestart == (if e.restarts == [] then 0 else e.restarts[|e.restarts|-1].at)
    && |e.restarts| * s.cooldown <= e.lastRestart
    && (forall k :: 0 < k < |e.restarts| ==> e.restarts[k].at - e.restarts[k-1].at >= s.cooldown)
  }

  lemma SpacedStep(s: Settings, e: Exact, line: nat, now: int)
    requires Spaced(s, e)
    ensures Spaced(s, ExactStep(s, e, line, now))
  {
    var e' := ExactStep(s, e, line, now);
    if |e'.restarts| > |e.restarts| {
      assert now - e.lastRestart >= s.cooldown;
      assert e'.restarts[..|e.restarts|] == e.restarts;
    }
  }

  /** Consecutive restarts are at least the cooldown apart, so the k-th, counting from one, is not
      before k cooldowns. */
  lemma {:induction false} RestartsAreSpaced(s: Settings, lines: seq<Line>)
    ensures Spaced(s, ExactRun(s, lines))
  {
    if lines != [] {
      var n := |lines| - 1;
      RestartsAreSpaced(s, lines[..n]);
      if lines[n].stuck {
        SpacedStep(s, ExactRun(s, lines[..n]), n, lines[n].now);
      }
    } else {
      assert 0 * s.cooldown == 0;
    }
  }

  /** Restarts cost hits, `threshold` matching lines each; without auto-restart there are none. */
  ghost predicate Paid(s: Settings, e: Exact, matching: nat) {
    |e.restarts| * s.threshold + |e.since| <= matching && (!s.autorestart ==> e.restarts == [])
  }

  lemma PaidStep(s: Settings, e: Exact, line: nat, now: int, matching: nat)
    requires Paid(s, e, matching) && |InWindow(s, e.since + [Hit(line, now)], now)| <= |e.since| + 1
    ensures Paid(s, ExactStep(s, e, line, now), matching + 1)
  {
  }

  lemma {:induction false} WindowIsNoLonger(s: Settings, since: seq<Hit>, now: int)
    ensures |InWindow(s, since, now)| <= |since|
  {
    if since != [] {
      WindowIsNoLonger(s, since[..|since|-1], now);
    }
  }

  lemma {:induction false} RestartsConsumeHits(s: Settings, lines: seq<Line>)
    ensures Paid(s, ExactRun(s, lines), Matching(lines))
  {
    if lines != [] {
      var n := |lines| - 1;
      RestartsConsumeHits(s, lines[..n]);
      var e := ExactRun(s, lines[..n]);
      if lines[n].stuck {
        WindowIsNoLonger(s, e.since + [Hit(n, lines[n].now)], lines[n].now);
        PaidStep(s, e, n, lines[n].now, Matching(lines[..n]));
      }
    } else {
      assert 0 * s.threshold == 0;
    }
  }
}
