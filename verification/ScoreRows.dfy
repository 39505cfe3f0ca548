/** The ledger rows a composite score is taken from, the points of the series, and what a point owes the
    rows (apps/dashboard/lib/ledger-client.ts).  Everything here speaks of the fields of the rows and of
    the point; how a point is computed is in `CompositeScore`. */
module ScoreRows {
  import opened Sequences

  datatype Outcome = Keep | Discard | Undecided

  datatype Overrides = Overrides(gatePrecision: Option<real>, keepRatio: Option<real>, rampDelta: Option<real>,
                                 confirmRate: Option<real>)

  datatype Event =
    | GateFired(allowed: bool, subjectRef: string)
    | ExperimentResolved(experimentId: string, outcome: Outcome)
    | ChatReceived
    | MemoryWritten
    | KpiProposed
    | ReactivityProposed(proposedId: string)
    | ReactivityConfirmed(confirmedId: string)
    | ReactivityFired(firedId: string)
    | WeightsSet(overrides: Overrides)
    | Other

  datatype Row = Row(seqNo: nat, ts: int, event: Event)

  datatype Quad = Quad(gatePrecision: real, keepRatio: real, rampDelta: real, confirmRate: real)

  datatype Point = Point(height: int, ts: int, score: real, components: Quad, topContributor: string, seqLo: int,
                         seqHi: int)

  /** The rows come in ascending, distinct seqs. */
  ghost predicate Ordered(rows: seq<Row>) {
    forall i, j :: 0 <= i < j < |rows| ==> rows[i].seqNo < rows[j].seqNo
  }

  // ---------------------------------------------------------------- the components of a window

  /** `x` is the share of `part` in `part + rest`, and a half if there is nothing to share. */
  ghost predicate IsShare(x: real, part: nat, rest: nat) {
    if part + rest == 0 then x == 0.5 else x * (part + rest) as real == part as real
  }

  ghost predicate ResolvedAs(w: seq<Row>, id: string, o: Outcome) {
    id != "" && exists i :: 0 <= i < |w| && w[i].event == ExperimentResolved(id, o)
  }

  ghost predicate Upheld(w: seq<Row>, e: Event) {
    e.GateFired? && e.allowed && ResolvedAs(w, e.subjectRef, Keep)
  }

  ghost predicate Rejected(w: seq<Row>, e: Event) {
    e.GateFired? && e.allowed && ResolvedAs(w, e.subjectRef, Discard) && !ResolvedAs(w, e.subjectRef, Keep)
  }

  ghost predicate GateTells(w: seq<Row>, x: real) {
    IsShare(x, Count(w, (r: Row) => Upheld(w, r.event)), Count(w, (r: Row) => Rejected(w, r.event)))
  }

  ghost predicate KeepTells(w: seq<Row>, x: real) {
    IsShare(x, Count(w, (r: Row) => r.event.ExperimentResolved? && r.event.outcome == Keep),
            Count(w, (r: Row) => r.event.ExperimentResolved? && r.event.outcome == Discard))
  }

  ghost predicate RampTells(w: seq<Row>, x: real) {
    var n := Count(w, (r: Row) => r.event in {ChatReceived, MemoryWritten, KpiProposed});
    if n >= 30 then x == 1.0 else x * 30.0 == n as real
  }

  ghost predicate ProposedIn(w: seq<Row>, id: string) {
    id != "" && exists i :: 0 <= i < |w| && w[i].event == ReactivityProposed(id)
  }

  ghost predicate ConfirmedIn(w: seq<Row>, id: string) {
    id != "" && exists i :: 0 <= i < |w| && w[i].event == ReactivityConfirmed(id)
  }

  ghost predicate ConfirmTells(w: seq<Row>, x: real) {
    exists both: set<string>, unconfirmed: set<string> ::
      && (forall id :: id in both <==> ProposedIn(w, id) && ConfirmedIn(w, id))
      && (forall id :: id in unconfirmed <==> ProposedIn(w, id) && !ConfirmedIn(w, id))
      && IsShare(x, |both|, |unconfirmed|)
  }

  ghost predicate ComponentsTell(w: seq<Row>, c: Quad) {
    && GateTells(w, c.gatePrecision) && KeepTells(w, c.keepRatio)
    && RampTells(w, c.rampDelta) && ConfirmTells(w, c.confirmRate)
  }

  ghost function Firings(w: seq<Row>, id: string): nat {
    Count(w, (r: Row) => r.event == ReactivityFired(id))
  }

  /** No reactivity fired in the window; or this one did, and none more often, nor as often and before
      it in collation. */
  ghost predicate TopTells(w: seq<Row>, collate: string -> int, top: string) {
    if top == "" then forall id :: id != "" ==> Firings(w, id) == 0
    else
      && Firings(w, top) > 0
      && forall id :: id != "" && Firings(w, id) > 0 ==>
           Firings(w, id) < Firings(w, top) || (Firings(w, id) == Firings(w, top) && collate(top) <= collate(id))
  }

  // ---------------------------------------------------------------- the weights at a height

  ghost predicate Gives(r: Row) {
    r.event.WeightsSet? && r.event.overrides != Overrides(None, None, None, None)
  }

  /** `o` is what the last row up to the height that gives any number gives. */
  ghost predicate LastGiven(rows: seq<Row>, height: int, o: Overrides) {
    || (exists i :: 0 <= i < |rows| && Gives(rows[i]) && rows[i].seqNo <= height && rows[i].event.overrides == o
                      && forall j :: i < j < |rows| && Gives(rows[j]) ==> rows[j].seqNo > height)
    || (o == Overrides(None, None, None, None)
        && forall j :: 0 <= j < |rows| && Gives(rows[j]) ==> rows[j].seqNo > height)
  }

  ghost predicate MergedFrom(o: Overrides, m: Quad) {
    && (if o.gatePrecision == None then m.gatePrecision == 0.25 else o.gatePrecision == Some(m.gatePrecision))
    && (if o.keepRatio == None then m.keepRatio == 0.25 else o.keepRatio == Some(m.keepRatio))
    && (if o.rampDelta == None then m.rampDelta == 0.25 else o.rampDelta == Some(m.rampDelta))
    && (if o.confirmRate == None then m.confirmRate == 0.25 else o.confirmRate == Some(m.confirmRate))
  }

  /** The merged weights in proportion, or equal weights if they add up to nothing positive. */
  ghost predicate Proportional(m: Quad, q: Quad) {
    var t := m.gatePrecision + m.keepRatio + m.rampDelta + m.confirmRate;
    if t <= 0.0 then q == Quad(0.25, 0.25, 0.25, 0.25)
    else
      && q.gatePrecision * t == m.gatePrecision && q.keepRatio * t == m.keepRatio
      && q.rampDelta * t == m.rampDelta && q.confirmRate * t == m.confirmRate
  }

  ghost predicate WeightsTell(rows: seq<Row>, height: int, q: Quad) {
    exists o, m :: LastGiven(rows, height, o) && MergedFrom(o, m) && Proportional(m, q)
  }

  // ---------------------------------------------------------------- the point

  /** The weighted sum, brought into the unit interval. */
  ghost predicate ScoreTells(score: real, c: Quad, q: Quad) {
    var sum := c.gatePrecision * q.gatePrecision + c.keepRatio * q.keepRatio + c.rampDelta * q.rampDelta
               + c.confirmRate * q.confirmRate;
    && 0.0 <= score <= 1.0
    && (sum > score ==> score == 1.0) && (sum < score ==> score == 0.0)
  }

  /** The last row at or below a height. */
  ghost predicate IsAnchor(rows: seq<Row>, height: int, a: Row) {
    a in rows && a.seqNo <= height && forall r :: r in rows && r.seqNo <= height ==> r.seqNo <= a.seqNo
  }

  /** The rows at or below a height that are not older than the window before the anchor. */
  ghost predicate IsWindow(rows: seq<Row>, height: int, a: Row, windowDays: int, w: seq<Row>) {
    && Ordered(w)
    && forall r :: r in w <==> r in rows && r.seqNo <= height && a.ts - r.ts <= windowDays * 24 * 60 * 60 * 1000
  }

  ghost predicate RangeTells(w: seq<Row>, p: Point) {
    if w == [] then p.seqLo == p.seqHi == p.height else p.seqLo == w[0].seqNo && p.seqHi == w[|w|-1].seqNo
  }

  ghost predicate PointOfWindow(rows: seq<Row>, w: seq<Row>, collate: string -> int, p: Point) {
    && ComponentsTell(w, p.components) && TopTells(w, collate, p.topContributor) && RangeTells(w, p)
    && exists q :: WeightsTell(rows, p.height, q) && ScoreTells(p.score, p.components, q)
  }

  ghost predicate PointTells(rows: seq<Row>, windowDays: int, collate: string -> int, p: Point) {
    exists a, w ::
      && IsAnchor(rows, p.height, a) && p.ts == a.ts && IsWindow(rows, p.height, a, windowDays, w)
      && PointOfWindow(rows, w, collate, p)
  }
}
