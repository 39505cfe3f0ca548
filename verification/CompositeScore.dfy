/** The composite-score series (apps/dashboard/lib/ledger-client.ts): four components over a window
    of the ledger, weights resolved from the ledger, and one point for each sampled height.
    Arithmetic is exact; the collation that breaks ties between reactivity ids is a parameter. */
module CompositeScore {
  import opened Sequences
  import opened Sorting
  import opened OrderedMaps
  import opened ScoreRows
  import Sampling

  const NEUTRAL := 0.5
  const RAMP_CAP := 30
  const DAY_MS := 86_400_000
  const DEFAULT_WEIGHTS := Quad(0.25, 0.25, 0.25, 0.25)

  // ---------------------------------------------------------------- what the components mean

  /** Experiments the window resolves with the outcome. */
  function Decided(w: seq<Row>, o: Outcome): set<string> {
    if w == [] then {}
    else
      var e := w[|w|-1].event;
      Decided(w[..|w|-1], o)
      + if e.ExperimentResolved? && e.experimentId != "" && e.outcome == o then {e.experimentId} else {}
  }

  /** Allowed gates whose subject is one of `subjects`, and is not one of `except`. */
  function Gates(w: seq<Row>, subjects: set<string>, except: set<string>): nat {
    if w == [] then 0
    else
      var e := w[|w|-1].event;
      Gates(w[..|w|-1], subjects, except)
      + if e.GateFired? && e.allowed && e.subjectRef in subjects && e.subjectRef !in except then 1 else 0
  }

  function Resolutions(w: seq<Row>, o: Outcome): nat {
    if w == [] then 0
    else
      var e := w[|w|-1].event;
      Resolutions(w[..|w|-1], o) + if e.ExperimentResolved? && e.outcome == o then 1 else 0
  }

  predicate Increments(e: Event) {
    e.ChatReceived? || e.MemoryWritten? || e.KpiProposed?
  }

  function Ramp(w: seq<Row>): nat {
    if w == [] then 0 else Ramp(w[..|w|-1]) + if Increments(w[|w|-1].event) then 1 else 0
  }

  function ProposedIds(w: seq<Row>): set<string> {
    if w == [] then {}
    else
      var e := w[|w|-1].event;
      ProposedIds(w[..|w|-1]) + if e.ReactivityProposed? && e.proposedId != "" then {e.proposedId} else {}
  }

  function ConfirmedIds(w: seq<Row>): set<string> {
    if w == [] then {}
    else
      var e := w[|w|-1].event;
      ConfirmedIds(w[..|w|-1]) + if e.ReactivityConfirmed? && e.confirmedId != "" then {e.confirmedId} else {}
  }

  /** `part` out of `part + rest`, or neutral when there is nothing to judge by. */
  function Ratio(part: nat, rest: nat): (r: real)
    ensures 0.0 <= r <= 1.0
  {
    if part + rest == 0 then NEUTRAL
    else
      var total := (part + rest) as real;
      assert part as real / total <= 1.0 && part as real / total >= 0.0 by { DivisionBounds(part as real, total); }
      part as real / total
  }

  lemma DivisionBounds(a: real, b: real)
    requires 0.0 <= a <= b && b > 0.0
    ensures 0.0 <= a / b <= 1.0
  {
  }

  /** The components of a window; each is at least 0 and at most 1. */
  function Components(w: seq<Row>): (c: Quad)
    ensures 0.0 <= c.gatePrecision <= 1.0 && 0.0 <= c.keepRatio <= 1.0
    ensures 0.0 <= c.rampDelta <= 1.0 && 0.0 <= c.confirmRate <= 1.0
  {
    var kept, discarded := Decided(w, Keep), Decided(w, Discard);
    var both := ProposedIds(w) * ConfirmedIds(w);
    assert ProposedIds(w) == both + (ProposedIds(w) - ConfirmedIds(w));
    Quad(Ratio(Gates(w, kept, {}), Gates(w, discarded, kept)),
         Ratio(Resolutions(w, Keep), Resolutions(w, Discard)),
         if Ramp(w) >= RAMP_CAP then 1.0
             else (DivisionBounds(Ramp(w) as real, RAMP_CAP as real); Ramp(w) as real / RAMP_CAP as real),
         Ratio(|both|, |ProposedIds(w) - ConfirmedIds(w)|))
  }

  // ---------------------------------------------------------------- the component loops

  function AllowedCount(w: seq<Row>): nat {
    if w == [] then 0
    else AllowedCount(w[..|w|-1]) + if w[|w|-1].event.GateFired? && w[|w|-1].event.allowed then 1 else 0
  }

  lemma {:induction false} GatesAreAllowed(w: seq<Row>, subjects: set<string>, except: set<string>)
    ensures Gates(w, subjects, except) <= AllowedCount(w)
  {
    if w != [] {
      GatesAreAllowed(w[..|w|-1], subjects, except);
    }
  }

  method CollectDecided(w: seq<Row>) returns (kept: set<string>, discarded: set<string>)
    ensures kept == Decided(w, Keep) && discarded == Decided(w, Discard)
  {
    kept, discarded := {}, {};
    for i := 0 to |w|
      invariant kept == Decided(w[..i], Keep) && discarded == Decided(w[..i], Discard)
    {
      assert w[..i+1][..i] == w[..i];
      if w[i].event.ExperimentResolved? && w[i].event.experimentId != "" {
        if w[i].event.outcome == Keep {
          kept := kept + {w[i].event.experimentId};
        } else if w[i].event.outcome == Discard {
          discarded := discarded + {w[i].event.experimentId};
        }
      }
    }
    assert w[..|w|] == w;
  }

  method JudgeGates(w: seq<Row>, kept: set<string>, discarded: set<string>)
    returns (upheld: nat, rejected: nat, allowed: nat)
    ensures upheld == Gates(w, kept, {}) && rejected == Gates(w, discarded, kept) && allowed == AllowedCount(w)
  {
    upheld, rejected, allowed := 0, 0, 0;
    for i := 0 to |w|
      invariant upheld == Gates(w[..i], kept, {}) && rejected == Gates(w[..i], discarded, kept)
      invariant allowed == AllowedCount(w[..i])
    {
      assert w[..i+1][..i] == w[..i];
      if w[i].event.GateFired? && w[i].event.allowed {
        allowed := allowed + 1;
        var subject := w[i].event.subjectRef;
        if subject in kept { upheld := upheld + 1; }
        else if subject in discarded { rejected := rejected + 1; }
      }
    }
    assert w[..|w|] == w;
  }

  method GatePrecision(w: seq<Row>) returns (r: real)
    ensures r == Components(w).gatePrecision
  {
    var kept, discarded := CollectDecided(w);
    var upheld, rejected, allowed := JudgeGates(w, kept, discarded);
    GatesAreAllowed(w, kept, {});
    GatesAreAllowed(w, discarded, kept);
    if allowed == 0 { return NEUTRAL; }
    var total := upheld + rejected;
    r := if total == 0 then NEUTRAL else upheld as real / total as real;
  }

  method ProposeKeepRatio(w: seq<Row>) returns (r: real)
    ensures r == Components(w).keepRatio
  {
    var kept, discarded := 0, 0;
    for i := 0 to |w|
      invariant kept == Resolutions(w[..i], Keep) && discarded == Resolutions(w[..i], Discard)
    {
      assert w[..i+1][..i] == w[..i];
      if w[i].event.ExperimentResolved? {
        if w[i].event.outcome == Keep { kept := kept + 1; }
        else if w[i].event.outcome == Discard { discarded := discarded + 1; }
      }
    }
    assert w[..|w|] == w;
    var total := kept + discarded;
    r := if total == 0 then NEUTRAL else kept as real / total as real;
  }

  method RampDelta(w: seq<Row>) returns (r: real)
    ensures r == Components(w).rampDelta
  {
    var inc := 0;
    for i := 0 to |w|
      invariant inc == Ramp(w[..i])
    {
      assert w[..i+1][..i] == w[..i];
      if Increments(w[i].event) { inc := inc + 1; }
    }
    assert w[..|w|] == w;
    if inc <= 0 { return 0.0; }
    var share := inc as real / RAMP_CAP as real;
    r := if share < 1.0 then share else 1.0;
  }

  method CollectReactivities(w: seq<Row>) returns (proposed: set<string>, confirmed: set<string>)
    ensures proposed == ProposedIds(w) && confirmed == ConfirmedIds(w)
  {
    proposed, confirmed := {}, {};
    for i := 0 to |w|
      invariant proposed == ProposedIds(w[..i]) && confirmed == ConfirmedIds(w[..i])
    {
      assert w[..i+1][..i] == w[..i];
      match w[i].event
      case ReactivityProposed(id) => if id != "" { proposed := proposed + {id}; }
      case ReactivityConfirmed(id) => if id != "" { confirmed := confirmed + {id}; }
      case _ =>
    }
    assert w[..|w|] == w;
  }

  method ReactivityConfirmRate(w: seq<Row>) returns (r: real)
    ensures r == Components(w).confirmRate
  {
    var proposed, confirmed := CollectReactivities(w);
    assert proposed == proposed * confirmed + (proposed - confirmed);
    if |proposed| == 0 { return NEUTRAL; }
    r := |proposed * confirmed| as real / |proposed| as real;
  }

  // ---------------------------------------------------------------- the top contributor

  function Fires(w: seq<Row>, id: string): nat {
    if w == [] then 0
    else Fires(w[..|w|-1], id) + if w[|w|-1].event == ReactivityFired(id) then 1 else 0
  }

  function Bump(m: Entries<string, nat>, e: Event): Entries<string, nat> {
    if e.ReactivityFired? && e.firedId != "" then
      Set(m, e.firedId, (if Get(m, e.firedId).Some? then Get(m, e.firedId).value else 0) + 1)
    else m
  }

  function Counts(w: seq<Row>): Entries<string, nat> {
    if w == [] then [] else Bump(Counts(w[..|w|-1]), w[|w|-1].event)
  }

  lemma BumpLaws(m: Entries<string, nat>, e: Event, id: string)
    requires Distinct(Keys(m))
    ensures Distinct(Keys(Bump(m, e)))
    ensures var n := Get(m, id);
            Get(Bump(m, e), id)
            == if id != "" && e == ReactivityFired(id) then Some((if n.Some? then n.value else 0) + 1) else n
  {
    if e.ReactivityFired? && e.firedId != "" {
      var more := (if Get(m, e.firedId).Some? then Get(m, e.firedId).value else 0) + 1;
      assert Bump(m, e) == Set(m, e.firedId, more);
      SetGets(m, e.firedId, more, id);
      SetKeys(m, e.firedId, more);
    } else {
      assert Bump(m, e) == m;
    }
  }

  lemma {:induction false} CountsAreFires(w: seq<Row>, id: string)
    ensures Get(Counts(w), id) == if id != "" && Fires(w, id) > 0 then Some(Fires(w, id)) else None
    ensures Distinct(Keys(Counts(w)))
  {
    if w != [] {
      var n := |w| - 1;
      CountsAreFires(w[..n], id);
      BumpLaws(Counts(w[..n]), w[n].event, id);
    }
  }

  /** Most fires first, ties by collation. */
  function ByFires(collate: string -> int): ((string, nat)) -> Key {
    (e: (string, nat)) => Key(0 - e.1 as int, collate(e.0))
  }

  function TopContributor(w: seq<Row>, collate: string -> int): string {
    if Counts(w) == [] then "" else Sort(Counts(w), ByFires(collate))[0].0
  }

  /** An id that fired has an entry, and every entry is of an id that fired. */
  lemma EntryOf(w: seq<Row>, id: string)
    ensures id != "" && Fires(w, id) > 0 ==> (id, Fires(w, id)) in Counts(w)
    ensures forall n :: (id, n) in Counts(w) ==> id != "" && n == Fires(w, id) > 0
  {
    CountsAreFires(w, id);
    forall n: nat ensures Get(Counts(w), id) == Some(n) <==> (id, n) in Counts(w) {
      GetIffEntry(Counts(w), id, n);
    }
  }

  lemma {:induction false} FiresAreCounted(w: seq<Row>, id: string)
    ensures Fires(w, id) == Firings(w, id)
  {
    if w != [] {
      FiresAreCounted(w[..|w|-1], id);
    }
  }

  lemma TopContributorIsTop(w: seq<Row>, collate: string -> int)
    ensures TopTells(w, collate, TopContributor(w, collate))
  {
    forall id ensures Fires(w, id) == Firings(w, id) {
      FiresAreCounted(w, id);
    }
    var m, key := Counts(w), ByFires(collate);
    var s := Sort(m, key);
    SortSorts(m, key);
    SortPermutes(m, key);
    if m != [] {
      assert s[0] in multiset(s);
      assert s[0] in m;
      EntryOf(w, s[0].0);
      assert s[0] == (s[0].0, s[0].1);
    }
    forall id | id != "" && Fires(w, id) > 0 ensures m != [] && Le(key(s[0]), key((id, Fires(w, id)))) {
      EntryOf(w, id);
      assert (id, Fires(w, id)) in multiset(m);
      assert (id, Fires(w, id)) in multiset(s);
    }
  }

  method FindTopContributor(w: seq<Row>, collate: string -> int) returns (top: string)
    ensures top == TopContributor(w, collate) && TopTells(w, collate, top)
  {
    var counts: Entries<string, nat> := [];
    for i := 0 to |w|
      invariant counts == Counts(w[..i])
    {
      assert w[..i+1][..i] == w[..i];
      counts := Bump(counts, w[i].event);
    }
    assert w[..|w|] == w;
    TopContributorIsTop(w, collate);
    if |counts| == 0 { return ""; }
    top := Sort(counts, ByFires(collate))[0].0;
  }

  // ---------------------------------------------------------------- weights

  predicate AnyGiven(o: Overrides) {
    o.gatePrecision.Some? || o.keepRatio.Some? || o.rampDelta.Some? || o.confirmRate.Some?
  }

  /** The last weights row that gives any number at all. */
  function LatestOverrides(rows: seq<Row>): Overrides {
    if rows == [] then Overrides(None, None, None, None)
    else
      var e := rows[|rows|-1].event;
      if e.WeightsSet? && AnyGiven(e.overrides) then e.overrides else LatestOverrides(rows[..|rows|-1])
  }

  function Or(o: Option<real>, default: real): real {
    if o.Some? then o.value else default
  }

  function Merge(o: Overrides): Quad {
    Quad(Or(o.gatePrecision, DEFAULT_WEIGHTS.gatePrecision), Or(o.keepRatio, DEFAULT_WEIGHTS.keepRatio),
         Or(o.rampDelta, DEFAULT_WEIGHTS.rampDelta), Or(o.confirmRate, DEFAULT_WEIGHTS.confirmRate))
  }

  function Total(q: Quad): real {
    q.gatePrecision + q.keepRatio + q.rampDelta + q.confirmRate
  }

  function Normalise(q: Quad): Quad {
    var t := Total(q);
    if t <= 0.0 then DEFAULT_WEIGHTS
    else Quad(q.gatePrecision / t, q.keepRatio / t, q.rampDelta / t, q.confirmRate / t)
  }

  function Weights(rows: seq<Row>): Quad {
    Normalise(Merge(LatestOverrides(rows)))
  }

  method ResolveWeights(rows: seq<Row>) returns (q: Quad)
    ensures q == Weights(rows)
  {
    var latest := Overrides(None, None, None, None);
    for i := 0 to |rows|
      invariant latest == LatestOverrides(rows[..i])
    {
      assert rows[..i+1][..i] == rows[..i];
      if rows[i].event.WeightsSet? && AnyGiven(rows[i].event.overrides) {
        latest := rows[i].event.overrides;
      }
    }
    assert rows[..|rows|] == rows;
    q := Normalise(Merge(latest));
  }

  predicate NonNegative(q: Quad) {
    q.gatePrecision >= 0.0 && q.keepRatio >= 0.0 && q.rampDelta >= 0.0 && q.confirmRate >= 0.0
  }

  lemma SharesSumToOne(a: real, b: real, c: real, d: real, t: real)
    requires t > 0.0 && a + b + c + d == t
    ensures a / t + b / t + c / t + d / t == 1.0
  {
  }

  /** Resolved weights add up to one, whatever was overridden. */
  lemma WeightsSumToOne(q: Quad)
    ensures Total(Normalise(q)) == 1.0
    ensures FairWeights(q) ==> NonNegative(Normalise(q))
  {
    if Total(q) > 0.0 {
      SharesSumToOne(q.gatePrecision, q.keepRatio, q.rampDelta, q.confirmRate, Total(q));
    }
  }

  function Dot(c: Quad, w: Quad): real {
    c.gatePrecision * w.gatePrecision + c.keepRatio * w.keepRatio + c.rampDelta * w.rampDelta
        + c.confirmRate * w.confirmRate
  }

  function Clamp(x: real): real {
    if x > 1.0 then 1.0 else if x < 0.0 then 0.0 else x
  }

  predicate Between(lo: real, q: Quad, hi: real) {
    lo <= q.gatePrecision <= hi && lo <= q.keepRatio <= hi && lo <= q.rampDelta <= hi && lo <= q.confirmRate <= hi
  }

  lemma Distribute(t: real, x: real, y: real, z: real, u: real, total: real)
    requires total == x + y + z + u
    ensures t * total == t * x + t * y + t * z + t * u
  {
  }

  lemma Scaled(lo: real, x: real, hi: real, w: real, l: real, m: real, h: real)
    requires lo <= x <= hi && w >= 0.0
    requires l == lo * w && m == x * w && h == hi * w
    ensures l <= m <= h
  {
  }

  lemma ConvexCombination(lo: real, hi: real, a: real, b: real, c: real, d: real,
                          x: real, y: real, z: real, u: real, total: real)
    requires lo <= a <= hi && lo <= b <= hi && lo <= c <= hi && lo <= d <= hi
    requires x >= 0.0 && y >= 0.0 && z >= 0.0 && u >= 0.0 && total == x + y + z + u
    ensures lo * total <= a * x + b * y + c * z + d * u <= hi * total
  {
    Distribute(lo, x, y, z, u, total);
    Distribute(hi, x, y, z, u, total);
    var l1, m1, h1 := lo * x, a * x, hi * x;
    var l2, m2, h2 := lo * y, b * y, hi * y;
    var l3, m3, h3 := lo * z, c * z, hi * z;
    var l4, m4, h4 := lo * u, d * u, hi * u;
    Scaled(lo, a, hi, x, l1, m1, h1);
    Scaled(lo, b, hi, y, l2, m2, h2);
    Scaled(lo, c, hi, z, l3, m3, h3);
    Scaled(lo, d, hi, u, l4, m4, h4);
    assert l1 + l2 + l3 + l4 <= m1 + m2 + m3 + m4 <= h1 + h2 + h3 + h4;
  }

  /** With weights that are not negative, the score lies between the least and the greatest
      component, so the clamp leaves it alone. */
  lemma ScoreIsConvex(c: Quad, w: Quad, lo: real, hi: real)
    requires Between(lo, c, hi) && NonNegative(w) && Total(w) == 1.0
    ensures lo <= Dot(c, w) <= hi
    ensures 0.0 <= lo && hi <= 1.0 ==> Clamp(Dot(c, w)) == Dot(c, w)
  {
    ConvexCombination(lo, hi, c.gatePrecision, c.keepRatio, c.rampDelta, c.confirmRate,
                      w.gatePrecision, w.keepRatio, w.rampDelta, w.confirmRate, Total(w));
  }

  /** The clamp changes no score, whatever the components, exactly when no weight is negative or the
      weights add up to nothing positive, in which case the defaults apply. */
  lemma ClampIdleIff(q: Quad)
    ensures (forall c :: Between(0.0, c, 1.0) ==> Clamp(Dot(c, Normalise(q))) == Dot(c, Normalise(q)))
              <==> FairWeights(q)
  {
    var w := Normalise(q);
    if FairWeights(q) {
      WeightsSumToOne(q);
      forall c | Between(0.0, c, 1.0) ensures Clamp(Dot(c, w)) == Dot(c, w) {
        ScoreIsConvex(c, w, 0.0, 1.0);
      }
    } else {
      NegativeStaysNegative(q.gatePrecision, Total(q));
      NegativeStaysNegative(q.keepRatio, Total(q));
      NegativeStaysNegative(q.rampDelta, Total(q));
      NegativeStaysNegative(q.confirmRate, Total(q));
      DotOfUnit(w);
      var unit := if q.gatePrecision < 0.0 then Quad(1.0, 0.0, 0.0, 0.0)
                  else if q.keepRatio < 0.0 then Quad(0.0, 1.0, 0.0, 0.0)
                  else if q.rampDelta < 0.0 then Quad(0.0, 0.0, 1.0, 0.0)
                  else Quad(0.0, 0.0, 0.0, 1.0);
      assert Between(0.0, unit, 1.0) && Dot(unit, w) < 0.0;
    }
  }

  lemma NegativeStaysNegative(a: real, t: real)
    requires t > 0.0
    ensures a < 0.0 ==> a / t < 0.0
  {
  }

  /** No merged weight is negative, or they add up to nothing positive. */
  predicate FairWeights(q: Quad) {
    NonNegative(q) || Total(q) <= 0.0
  }

  /** A negative override whose weights add up to one, with which the plain sum can be 2. */
  lemma NegativeWeightNeedsClamp()
    ensures var w := Normalise(Merge(Overrides(Some(-1.0), Some(2.0), Some(0.0), Some(0.0))));
            Dot(Quad(0.0, 1.0, 0.0, 0.0), w) == 2.0
  {
    var q := Merge(Overrides(Some(-1.0), Some(2.0), Some(0.0), Some(0.0)));
    assert Total(q) == 1.0 && q.keepRatio == 2.0;
    assert Normalise(q).keepRatio == 2.0;
    DotOfUnit(Normalise(q));
  }

  /** A negative override whose weights add up to a negative number, so that the defaults apply. */
  lemma NegativeWeightCanBeHarmless()
    ensures var q := Merge(Overrides(Some(-1.0), Some(0.0), Some(0.0), Some(0.0)));
            !NonNegative(q) && FairWeights(q) && Normalise(q) == DEFAULT_WEIGHTS
  {
  }

  lemma DotOfUnit(w: Quad)
    ensures Dot(Quad(1.0, 0.0, 0.0, 0.0), w) == w.gatePrecision && Dot(Quad(0.0, 1.0, 0.0, 0.0), w) == w.keepRatio
    ensures Dot(Quad(0.0, 0.0, 1.0, 0.0), w) == w.rampDelta && Dot(Quad(0.0, 0.0, 0.0, 1.0), w) == w.confirmRate
  {
  }

  // ---------------------------------------------------------------- points

  function InScope(rows: seq<Row>, height: int): seq<Row> {
    if rows == [] then []
    else InScope(rows[..|rows|-1], height) + if rows[|rows|-1].seqNo <= height then [rows[|rows|-1]] else []
  }

  function Since(rows: seq<Row>, cutoff: int): seq<Row> {
    if rows == [] then []
    else Since(rows[..|rows|-1], cutoff) + if rows[|rows|-1].ts >= cutoff then [rows[|rows|-1]] else []
  }

  function MinSeq(w: seq<Row>): int
    requires w != []
  {
    if |w| == 1 then w[0].seqNo else Min(MinSeq(w[..|w|-1]), w[|w|-1].seqNo)
  }

  function MaxSeq(w: seq<Row>): int
    requires w != []
  {
    if |w| == 1 then w[0].seqNo else Max(MaxSeq(w[..|w|-1]), w[|w|-1].seqNo)
  }

  function Window(rows: seq<Row>, height: int, windowDays: int): seq<Row>
    requires InScope(rows, height) != []
  {
    var scope := InScope(rows, height);
    Since(scope, scope[|scope|-1].ts - windowDays * DAY_MS)
  }

  function PointOver(height: int, ts: int, w: seq<Row>, weights: Quad, collate: string -> int): Point {
    var c := Components(w);
    Point(height, ts, Clamp(Dot(c, weights)), c, TopContributor(w, collate),
          if w == [] then height else MinSeq(w), if w == [] then height else MaxSeq(w))
  }

  function PointAt(rows: seq<Row>, height: int, windowDays: int, collate: string -> int): Point
    requires InScope(rows, height) != []
  {
    var scope := InScope(rows, height);
    PointOver(height, scope[|scope|-1].ts, Window(rows, height, windowDays), Weights(scope), collate)
  }

  /** A point's score is the plain weighted sum of its components, the clamp changing nothing, and lies
      between any bounds of the components, if the weights in force at its height are fair. */
  lemma PointScoreIsConvex(rows: seq<Row>, height: int, windowDays: int, collate: string -> int, lo: real, hi: real)
    requires InScope(rows, height) != [] && FairWeights(Merge(LatestOverrides(InScope(rows, height))))
    requires Between(lo, PointAt(rows, height, windowDays, collate).components, hi)
    ensures var p := PointAt(rows, height, windowDays, collate);
            p.score == Dot(p.components, Weights(InScope(rows, height))) && lo <= p.score <= hi
  {
    var w := Weights(InScope(rows, height));
    var c := Components(Window(rows, height, windowDays));
    WeightsSumToOne(Merge(LatestOverrides(InScope(rows, height))));
    ScoreIsConvex(c, w, 0.0, 1.0);
    ScoreIsConvex(c, w, lo, hi);
  }

  method FindComponents(w: seq<Row>) returns (c: Quad)
    ensures c == Components(w)
  {
    var gate := GatePrecision(w);
    var keep := ProposeKeepRatio(w);
    var ramp := RampDelta(w);
    var confirm := ReactivityConfirmRate(w);
    c := Quad(gate, keep, ramp, confirm);
  }

  method MakePoint(rows: seq<Row>, height: int, windowDays: int, collate: string -> int) returns (p: Point)
    requires InScope(rows, height) != []
    ensures p == PointAt(rows, height, windowDays, collate)
  {
    var scope := InScope(rows, height);
    var anchor := scope[|scope|-1].ts;
    var w := Since(scope, anchor - windowDays * DAY_MS);
    assert w == Window(rows, height, windowDays);
    var c := FindComponents(w);
    var weights := ResolveWeights(scope);
    var top := FindTopContributor(w, collate);
    p := Point(height, anchor, Clamp(Dot(c, weights)), c, top,
               if w == [] then height else MinSeq(w), if w == [] then height else MaxSeq(w));
  }

  lemma {:induction false} ScopeSpec(rows: seq<Row>, height: int)
    requires Ordered(rows)
    ensures Ordered(InScope(rows, height))
    ensures forall r :: r in InScope(rows, height) <==> r in rows && r.seqNo <= height
  {
    if rows != [] {
      var n := |rows| - 1;
      ScopeSpec(rows[..n], height);
      assert rows == rows[..n] + [rows[n]];
      forall i | 0 <= i < |InScope(rows[..n], height)| ensures InScope(rows[..n], height)[i].seqNo < rows[n].seqNo {
        assert InScope(rows[..n], height)[i] in rows[..n];
      }
    }
  }

  lemma {:induction false} SinceSpec(rows: seq<Row>, cutoff: int)
    ensures forall r :: r in Since(rows, cutoff) <==> r in rows && r.ts >= cutoff
  {
    if rows != [] {
      SinceSpec(rows[..|rows|-1], cutoff);
      assert rows == rows[..|rows|-1] + [rows[|rows|-1]];
    }
  }

  lemma {:induction false} ExtremesSpec(w: seq<Row>)
    requires w != []
    ensures forall r :: r in w ==> MinSeq(w) <= r.seqNo <= MaxSeq(w)
    ensures exists r :: r in w && r.seqNo == MinSeq(w)
    ensures exists r :: r in w && r.seqNo == MaxSeq(w)
  {
    var n := |w| - 1;
    assert w == w[..n] + [w[n]] && w[n] in w;
    if n > 0 {
      ExtremesSpec(w[..n]);
    }
  }

  /** The last row at or below the height is in its own window exactly when the window's length is
      not negative. */
  lemma AnchorInWindowIff(rows: seq<Row>, height: int, windowDays: int)
    requires InScope(rows, height) != []
    ensures InScope(rows, height)[|InScope(rows, height)|-1] in Window(rows, height, windowDays) <==> windowDays >= 0
  {
    var scope := InScope(rows, height);
    SinceSpec(scope, scope[|scope|-1].ts - windowDays * DAY_MS);
    assert scope[|scope|-1] in scope;
  }

  lemma WindowInScope(rows: seq<Row>, height: int, windowDays: int)
    requires InScope(rows, height) != []
    ensures forall r :: r in Window(rows, height, windowDays) ==> r in InScope(rows, height)
  {
    var scope := InScope(rows, height);
    SinceSpec(scope, scope[|scope|-1].ts - windowDays * DAY_MS);
  }

  /** A window that is not of negative length is not empty, and ends with the greatest seq at or
      below the height. */
  lemma WindowReachesHeight(rows: seq<Row>, height: int, windowDays: int)
    requires Ordered(rows) && InScope(rows, height) != [] && windowDays >= 0
    ensures Window(rows, height, windowDays) != []
    ensures var hi := MaxSeq(Window(rows, height, windowDays));
            && (exists r :: r in rows && r.seqNo == hi && r.seqNo <= height)
            && (forall r :: r in rows && r.seqNo <= height ==> r.seqNo <= hi)
  {
    var scope, w := InScope(rows, height), Window(rows, height, windowDays);
    var last := scope[|scope|-1];
    ScopeSpec(rows, height);
    AnchorInWindowIff(rows, height, windowDays);
    WindowInScope(rows, height, windowDays);
    ExtremesSpec(w);
    forall r | r in rows && r.seqNo <= height ensures r.seqNo <= MaxSeq(w) {
      assert r in scope && r.seqNo <= last.seqNo;
    }
  }

  /** Rows appended above a height leave that height's point as it was. */
  lemma {:induction false} AppendingAboveKeepsScope(rows: seq<Row>, more: seq<Row>, height: int)
    requires forall i :: 0 <= i < |more| ==> more[i].seqNo > height
    ensures InScope(rows + more, height) == InScope(rows, height)
  {
    if more == [] {
      assert rows + more == rows;
    } else {
      var n := |more| - 1;
      AppendingAboveKeepsScope(rows, more[..n], height);
      assert (rows + more)[..|rows + more| - 1] == rows + more[..n];
    }
  }

  lemma AppendingAboveKeepsPoint(rows: seq<Row>, more: seq<Row>, height: int, windowDays: int, collate: string -> int)
    requires forall i :: 0 <= i < |more| ==> more[i].seqNo > height
    requires InScope(rows, height) != []
    ensures InScope(rows + more, height) != []
    ensures PointAt(rows + more, height, windowDays, collate) == PointAt(rows, height, windowDays, collate)
  {
    AppendingAboveKeepsScope(rows, more, height);
  }

  // ---------------------------------------------------------------- a point against the rows

  lemma RatioIsShare(part: nat, rest: nat)
    ensures IsShare(Ratio(part, rest), part, rest)
  {
  }

  lemma {:induction false} DecidedIff(w: seq<Row>, o: Outcome, id: string)
    ensures id in Decided(w, o) <==> ResolvedAs(w, id, o)
  {
    if w != [] {
      var n := |w| - 1;
      DecidedIff(w[..n], o, id);
      if ResolvedAs(w, id, o) && w[n].event != ExperimentResolved(id, o) {
        var i :| 0 <= i < |w| && w[i].event == ExperimentResolved(id, o);
        assert w[..n][i].event == ExperimentResolved(id, o);
      }
      if ResolvedAs(w[..n], id, o) {
        var i :| 0 <= i < n && w[..n][i].event == ExperimentResolved(id, o);
        assert w[i].event == ExperimentResolved(id, o);
      }
    }
  }

  lemma {:induction false} GatesAreCounted(w: seq<Row>, subjects: set<string>, except: set<string>, p: Row -> bool)
    requires forall r :: p(r) <==> r.event.GateFired? && r.event.allowed && r.event.subjectRef in subjects - except
    ensures Gates(w, subjects, except) == Count(w, p)
  {
    if w != [] {
      GatesAreCounted(w[..|w|-1], subjects, except, p);
    }
  }

  lemma GateIsTold(w: seq<Row>)
    ensures GateTells(w, Components(w).gatePrecision)
  {
    var kept, discarded := Decided(w, Keep), Decided(w, Discard);
    forall id ensures id in kept <==> ResolvedAs(w, id, Keep) {
      DecidedIff(w, Keep, id);
    }
    forall id ensures id in discarded <==> ResolvedAs(w, id, Discard) {
      DecidedIff(w, Discard, id);
    }
    GatesAreCounted(w, kept, {}, (r: Row) => Upheld(w, r.event));
    GatesAreCounted(w, discarded, kept, (r: Row) => Rejected(w, r.event));
    RatioIsShare(Gates(w, kept, {}), Gates(w, discarded, kept));
  }

  lemma {:induction false} ResolutionsAreCounted(w: seq<Row>, o: Outcome, p: Row -> bool)
    requires forall r :: p(r) <==> r.event.ExperimentResolved? && r.event.outcome == o
    ensures Resolutions(w, o) == Count(w, p)
  {
    if w != [] {
      ResolutionsAreCounted(w[..|w|-1], o, p);
    }
  }

  lemma KeepIsTold(w: seq<Row>)
    ensures KeepTells(w, Components(w).keepRatio)
  {
    ResolutionsAreCounted(w, Keep, (r: Row) => r.event.ExperimentResolved? && r.event.outcome == Keep);
    ResolutionsAreCounted(w, Discard, (r: Row) => r.event.ExperimentResolved? && r.event.outcome == Discard);
    RatioIsShare(Resolutions(w, Keep), Resolutions(w, Discard));
  }

  lemma {:induction false} RampIsCounted(w: seq<Row>, p: Row -> bool)
    requires forall r :: p(r) <==> r.event in {ChatReceived, MemoryWritten, KpiProposed}
    ensures Ramp(w) == Count(w, p)
  {
    if w != [] {
      RampIsCounted(w[..|w|-1], p);
    }
  }

  lemma RampIsTold(w: seq<Row>)
    ensures RampTells(w, Components(w).rampDelta)
  {
    RampIsCounted(w, (r: Row) => r.event in {ChatReceived, MemoryWritten, KpiProposed});
  }

  lemma {:induction false} ReactivitiesIff(w: seq<Row>, id: string)
    ensures id in ProposedIds(w) <==> ProposedIn(w, id)
    ensures id in ConfirmedIds(w) <==> ConfirmedIn(w, id)
  {
    if w != [] {
      var n := |w| - 1;
      ReactivitiesIff(w[..n], id);
      assert forall i :: 0 <= i < n ==> w[..n][i] == w[i];
      if ProposedIn(w, id) && w[n].event != ReactivityProposed(id) {
        var i :| 0 <= i < |w| && w[i].event == ReactivityProposed(id);
        assert w[..n][i].event == ReactivityProposed(id);
      }
      if ConfirmedIn(w, id) && w[n].event != ReactivityConfirmed(id) {
        var i :| 0 <= i < |w| && w[i].event == ReactivityConfirmed(id);
        assert w[..n][i].event == ReactivityConfirmed(id);
      }
    }
  }

  lemma ConfirmedAre(w: seq<Row>, id: string)
    ensures id in ProposedIds(w) * ConfirmedIds(w) <==> ProposedIn(w, id) && ConfirmedIn(w, id)
    ensures id in ProposedIds(w) - ConfirmedIds(w) <==> ProposedIn(w, id) && !ConfirmedIn(w, id)
  {
    ReactivitiesIff(w, id);
  }

  lemma ConfirmBySets(w: seq<Row>, x: real, both: set<string>, unconfirmed: set<string>)
    requires forall id :: id in both <==> ProposedIn(w, id) && ConfirmedIn(w, id)
    requires forall id :: id in unconfirmed <==> ProposedIn(w, id) && !ConfirmedIn(w, id)
    requires IsShare(x, |both|, |unconfirmed|)
    ensures ConfirmTells(w, x)
  {
  }

  lemma ConfirmIsTold(w: seq<Row>)
    ensures ConfirmTells(w, Components(w).confirmRate)
  {
    var both, unconfirmed := ProposedIds(w) * ConfirmedIds(w), ProposedIds(w) - ConfirmedIds(w);
    forall id ensures id in both <==> ProposedIn(w, id) && ConfirmedIn(w, id) {
      ConfirmedAre(w, id);
    }
    forall id ensures id in unconfirmed <==> ProposedIn(w, id) && !ConfirmedIn(w, id) {
      ConfirmedAre(w, id);
    }
    RatioIsShare(|both|, |unconfirmed|);
    ConfirmBySets(w, Ratio(|both|, |unconfirmed|), both, unconfirmed);
  }

  /** Each component is the share, or the capped number, of the rows it names. */
  lemma ComponentsAreTold(w: seq<Row>)
    ensures ComponentsTell(w, Components(w))
  {
    GateIsTold(w);
    KeepIsTold(w);
    RampIsTold(w);
    ConfirmIsTold(w);
  }

  lemma {:induction false} LatestIsLastGiven(rows: seq<Row>, height: int)
    ensures LastGiven(rows, height, LatestOverrides(InScope(rows, height)))
  {
    if rows != [] {
      var n := |rows| - 1;
      var front, r := rows[..n], rows[n];
      LatestIsLastGiven(front, height);
      LatestOfSnoc(InScope(front, height), r);
      var none := Overrides(None, None, None, None);
      var o := LatestOverrides(InScope(rows, height));
      if Gives(r) && r.seqNo <= height {
        assert rows[n].event.overrides == o;
      } else {
        assert InScope(front, height) + [] == InScope(front, height);
        LastGivenSnoc(rows, height, o);
      }
    }
  }

  lemma LatestOfSnoc(scope: seq<Row>, r: Row)
    ensures LatestOverrides(scope + [r]) == if Gives(r) then r.event.overrides else LatestOverrides(scope)
  {
    assert (scope + [r])[..|scope|] == scope;
  }

  lemma LastGivenSnoc(rows: seq<Row>, height: int, o: Overrides)
    requires rows != [] && LastGiven(rows[..|rows|-1], height, o)
    requires !(Gives(rows[|rows|-1]) && rows[|rows|-1].seqNo <= height)
    ensures LastGiven(rows, height, o)
  {
    var n := |rows| - 1;
    var front := rows[..n];
    assert forall j :: 0 <= j < n ==> front[j] == rows[j];
    if i :| 0 <= i < n && Gives(front[i]) && front[i].seqNo <= height && front[i].event.overrides == o
              && forall j :: i < j < n && Gives(front[j]) ==> front[j].seqNo > height {
      assert Gives(rows[i]) && rows[i].seqNo <= height && rows[i].event.overrides == o;
    }
  }

  lemma ShareTimes(a: real, t: real)
    requires t > 0.0
    ensures a / t * t == a
  {
  }

  lemma NormaliseIsProportional(m: Quad)
    ensures Proportional(m, Normalise(m))
  {
    if Total(m) > 0.0 {
      ShareTimes(m.gatePrecision, Total(m));
      ShareTimes(m.keepRatio, Total(m));
      ShareTimes(m.rampDelta, Total(m));
      ShareTimes(m.confirmRate, Total(m));
    }
  }

  lemma MergeIsMerged(o: Overrides)
    ensures MergedFrom(o, Merge(o))
  {
  }

  lemma WeightsByParts(rows: seq<Row>, height: int, o: Overrides, m: Quad, q: Quad)
    requires LastGiven(rows, height, o) && MergedFrom(o, m) && Proportional(m, q)
    ensures WeightsTell(rows, height, q)
  {
  }

  /** The weights at a height are the last numbers given up to it, over the defaults, in proportion. */
  lemma WeightsAreTold(rows: seq<Row>, height: int)
    ensures WeightsTell(rows, height, Weights(InScope(rows, height)))
  {
    var o := LatestOverrides(InScope(rows, height));
    LatestIsLastGiven(rows, height);
    MergeIsMerged(o);
    NormaliseIsProportional(Merge(o));
    WeightsByParts(rows, height, o, Merge(o), Normalise(Merge(o)));
  }

  lemma {:induction false} SinceOrdered(rows: seq<Row>, cutoff: int)
    requires Ordered(rows)
    ensures Ordered(Since(rows, cutoff))
  {
    if rows != [] {
      var n := |rows| - 1;
      SinceOrdered(rows[..n], cutoff);
      SinceSpec(rows[..n], cutoff);
      forall i | 0 <= i < |Since(rows[..n], cutoff)| ensures Since(rows[..n], cutoff)[i].seqNo < rows[n].seqNo {
        assert Since(rows[..n], cutoff)[i] in rows[..n];
      }
    }
  }

  lemma WindowIsTold(rows: seq<Row>, height: int, windowDays: int) returns (a: Row)
    requires Ordered(rows) && InScope(rows, height) != []
    ensures IsAnchor(rows, height, a) && a == InScope(rows, height)[|InScope(rows, height)|-1]
    ensures IsWindow(rows, height, a, windowDays, Window(rows, height, windowDays))
  {
    var scope := InScope(rows, height);
    a := scope[|scope|-1];
    ScopeSpec(rows, height);
    SinceSpec(scope, a.ts - windowDays * DAY_MS);
    SinceOrdered(scope, a.ts - windowDays * DAY_MS);
    assert a in scope;
    forall r | r in rows && r.seqNo <= height ensures r.seqNo <= a.seqNo {
      assert r in scope;
    }
  }

  lemma RangeIsTold(w: seq<Row>, p: Point)
    requires Ordered(w)
    requires p.seqLo == (if w == [] then p.height else MinSeq(w))
    requires p.seqHi == (if w == [] then p.height else MaxSeq(w))
    ensures RangeTells(w, p)
  {
    if w != [] {
      ExtremesOfOrdered(w);
    }
  }

  lemma ScoreIsTold(c: Quad, q: Quad)
    ensures ScoreTells(Clamp(Dot(c, q)), c, q)
  {
  }

  lemma PointByParts(rows: seq<Row>, w: seq<Row>, windowDays: int, collate: string -> int, p: Point, a: Row, q: Quad)
    requires IsAnchor(rows, p.height, a) && p.ts == a.ts && IsWindow(rows, p.height, a, windowDays, w)
    requires ComponentsTell(w, p.components) && TopTells(w, collate, p.topContributor) && RangeTells(w, p)
    requires WeightsTell(rows, p.height, q) && ScoreTells(p.score, p.components, q)
    ensures PointTells(rows, windowDays, collate, p)
  {
    assert PointOfWindow(rows, w, collate, p);
  }

  /** A point against the fields of the rows. */
  lemma PointIsTold(rows: seq<Row>, height: int, windowDays: int, collate: string -> int)
    requires Ordered(rows) && InScope(rows, height) != []
    ensures PointTells(rows, windowDays, collate, PointAt(rows, height, windowDays, collate))
  {
    var p, w := PointAt(rows, height, windowDays, collate), Window(rows, height, windowDays);
    var a := WindowIsTold(rows, height, windowDays);
    ComponentsAreTold(w);
    TopContributorIsTop(w, collate);
    RangeIsTold(w, p);
    WeightsAreTold(rows, height);
    ScoreIsTold(p.components, Weights(InScope(rows, height)));
    PointByParts(rows, w, windowDays, collate, p, a, Weights(InScope(rows, height)));
  }

  lemma PointsAreTold(rows: seq<Row>, windowDays: int, collate: string -> int, points: seq<Point>)
    requires Ordered(rows)
    requires forall i :: 0 <= i < |points| ==>
               InScope(rows, points[i].height) != []
               && points[i] == PointAt(rows, points[i].height, windowDays, collate)
    ensures forall i :: 0 <= i < |points| ==> PointTells(rows, windowDays, collate, points[i])
  {
    forall i | 0 <= i < |points| ensures PointTells(rows, windowDays, collate, points[i]) {
      PointIsTold(rows, points[i].height, windowDays, collate);
    }
  }

  // ---------------------------------------------------------------- the series

  /** The points run from the first seq to the last, ascending, and are as many as were asked for
      if the ledger spans that many seqs. */
  ghost predicate SpansLedger(rows: seq<Row>, points: seq<Point>, pointCount: int)
    requires rows != []
  {
    var lo, hi := rows[0].seqNo, rows[|rows|-1].seqNo;
    && |points| == Min(Max(2, pointCount), hi - lo + 1) && points != []
    && points[0].height == lo && points[|points|-1].height == hi
    && (forall i, j :: 0 <= i < j < |points| ==> points[i].height < points[j].height)
    && (forall k :: 0 <= k < |points| ==> Sampling.Sampled(lo, hi, Max(2, pointCount), points[k].height))
  }

  /** One point for each sampled height of a ledger that is not empty, and the weights in force at its end. */
  method GetCompositeScoreSeries(rows: seq<Row>, pointCount: int, windowDays: int, collate: string -> int)
    returns (points: seq<Point>, weights: Quad)
    requires Ordered(rows)
    ensures rows == [] <==> points == []
    ensures rows != [] ==> SpansLedger(rows, points, pointCount)
    ensures forall i :: 0 <= i < |points| ==> PointTells(rows, windowDays, collate, points[i])
    ensures rows == [] ==> weights == Quad(0.25, 0.25, 0.25, 0.25)
    ensures rows != [] ==> WeightsTell(rows, rows[|rows|-1].seqNo, weights)
  {
    points, weights := [], DEFAULT_WEIGHTS;
    if |rows| == 0 { return; }
    var sampled := SampleRows(rows, pointCount);
    points := MakePoints(rows, sampled, windowDays, collate);
    PointsAreTold(rows, windowDays, collate, points);
    PointsSpan(rows, points, sampled, pointCount);
    weights := ResolveWeights(rows);
    AllInScope(rows, rows[|rows|-1].seqNo);
    WeightsAreTold(rows, rows[|rows|-1].seqNo);
  }

  lemma PointsSpan(rows: seq<Row>, points: seq<Point>, sampled: seq<int>, pointCount: int)
    requires rows != [] && |points| == |sampled| && sampled != []
    requires forall i :: 0 <= i < |points| ==> points[i].height == sampled[i]
    requires |sampled| == Min(Max(2, pointCount), rows[|rows|-1].seqNo - rows[0].seqNo + 1)
    requires sampled[0] == rows[0].seqNo && sampled[|sampled|-1] == rows[|rows|-1].seqNo
    requires forall i, j :: 0 <= i < j < |sampled| ==> sampled[i] < sampled[j]
    requires forall k :: 0 <= k < |sampled| ==>
               Sampling.Sampled(rows[0].seqNo, rows[|rows|-1].seqNo, Max(2, pointCount), sampled[k])
    ensures SpansLedger(rows, points, pointCount)
  {
  }

  lemma {:induction false} AllInScope(rows: seq<Row>, height: int)
    requires forall r :: r in rows ==> r.seqNo <= height
    ensures InScope(rows, height) == rows
  {
    if rows != [] {
      AllInScope(rows[..|rows|-1], height);
      assert rows == rows[..|rows|-1] + [rows[|rows|-1]];
    }
  }

  /** The sampled heights of a ledger: each has rows at or below it. */
  method SampleRows(rows: seq<Row>, pointCount: int) returns (sampled: seq<int>)
    requires Ordered(rows) && rows != []
    ensures |sampled| == Min(Max(2, pointCount), rows[|rows|-1].seqNo - rows[0].seqNo + 1) && sampled != []
    ensures sampled[0] == rows[0].seqNo && sampled[|sampled|-1] == rows[|rows|-1].seqNo
    ensures forall i, j :: 0 <= i < j < |sampled| ==> sampled[i] < sampled[j]
    ensures forall k :: 0 <= k < |sampled| ==> InScope(rows, sampled[k]) != []
    ensures forall k :: 0 <= k < |sampled| ==>
              Sampling.Sampled(rows[0].seqNo, rows[|rows|-1].seqNo, Max(2, pointCount), sampled[k])
  {
    ExtremesOfOrdered(rows);
    var lo, hi := MinSeq(rows), MaxSeq(rows);
    sampled := Sampling.SampleHeights(lo, hi, pointCount);
    forall k | 0 <= k < |sampled| ensures InScope(rows, sampled[k]) != [] {
      assert sampled[k] in sampled;
      ScopeNotEmpty(rows, sampled[k]);
    }
  }

  method MakePoints(rows: seq<Row>, sampled: seq<int>, windowDays: int, collate: string -> int)
    returns (points: seq<Point>)
    requires forall k :: 0 <= k < |sampled| ==> InScope(rows, sampled[k]) != []
    ensures |points| == |sampled|
    ensures forall i :: 0 <= i < |points| ==>
              points[i].height == sampled[i] && points[i] == PointAt(rows, sampled[i], windowDays, collate)
  {
    points := [];
    for k := 0 to |sampled|
      invariant |points| == k
      invariant forall i :: 0 <= i < k ==> points[i] == PointAt(rows, sampled[i], windowDays, collate)
    {
      var p := MakePoint(rows, sampled[k], windowDays, collate);
      points := points + [p];
    }
    forall i | 0 <= i < |points| ensures points[i].height == sampled[i] {
    }
  }

  lemma ScopeNotEmpty(rows: seq<Row>, height: int)
    requires Ordered(rows) && rows != [] && rows[0].seqNo <= height
    ensures InScope(rows, height) != []
  {
    ScopeSpec(rows, height);
    assert rows[0] in InScope(rows, height);
  }

  lemma ExtremesOfOrdered(rows: seq<Row>)
    requires Ordered(rows) && rows != []
    ensures MinSeq(rows) == rows[0].seqNo && MaxSeq(rows) == rows[|rows|-1].seqNo
    ensures MinSeq(rows) <= MaxSeq(rows)
  {
    ExtremesSpec(rows);
    assert rows[0] in rows && rows[|rows|-1] in rows;
  }
}
