/** `selectChainSteps` (apps/dashboard/lib/decision-chain.ts): from a recorded decision down to the bytes
    behind it, one slot per kind of row, each by a tight link or else by recency.

    Times are what `Date.parse` yields, None when it yields NaN.  A string argument that is missing is
    None.  The one-line summaries and links of the steps are not part of this model. */
module DecisionChain {
  import opened Sequences
  import opened Sorting

  datatype Kind = DecisionRecorded | ProcessMapProposed | KpiNode | SourceProposed | SourceBronzed

  datatype DecisionTime = Unset | Given(parsed: Option<int>)

  /** The arguments the selector looks at; `steps` holds the message id of each step, if it has one. */
  datatype Args = Args(decisionId: Option<string>, decisionAt: DecisionTime, evidenceIds: seq<string>,
                       steps: seq<Option<string>>, sourceIds: seq<string>, sourceId: Option<string>)

  datatype Row = Row(seqNo: nat, kind: Kind, ts: Option<int>, hash: string, args: Args)

  datatype Step = Step(row: Row, inferred: bool)

  datatype Chain = Chain(decision: Option<Step>, processMap: Option<Step>, kpi: Option<Step>, source: Option<Step>,
                         bronze: Option<Step>, missing: seq<Kind>)

  const NOT_FOUND := Chain(None, None, None, None, None, [DecisionRecorded])

  function OrEmpty(s: Option<string>): string {
    if s.Some? then s.value else ""
  }

  // ---------------------------------------------------------------- pickers

  function RowsOfKind(rows: seq<Row>, kind: Kind): seq<Row> {
    if rows == [] then []
    else
      var n := |rows| - 1;
      if rows[n].kind == kind then RowsOfKind(rows[..n], kind) + [rows[n]] else RowsOfKind(rows[..n], kind)
  }

  function Where(rows: seq<Row>, p: Row -> bool): seq<Row> {
    if rows == [] then []
    else
      var n := |rows| - 1;
      if p(rows[n]) then Where(rows[..n], p) + [rows[n]] else Where(rows[..n], p)
  }

  /** `rows.find(p)`. */
  function Find(rows: seq<Row>, p: Row -> bool): Option<Row> {
    if rows == [] then None else if p(rows[0]) then Some(rows[0]) else Find(rows[1..], p)
  }

  function BySeqDescending(r: Row): Key {
    Key(0 - r.seqNo as int, 0)
  }

  function PickMostRecent(rows: seq<Row>): Option<Row> {
    if rows == [] then None else Some(Sort(rows, BySeqDescending)[0])
  }

  function PickMostRecentBefore(rows: seq<Row>, cutoff: Option<int>): Option<Row> {
    if rows == [] || cutoff.None? then None
    else
      var before := Sort(Where(rows, NotAfter(cutoff)), BySeqDescending);
      if before == [] then None else Some(before[0])
  }

  function PickProcessMapByEvidence(rows: seq<Row>, evidenceIds: seq<string>): Option<Row> {
    if evidenceIds == [] then None else Find(rows, CitesAny(evidenceIds))
  }

  // ---------------------------------------------------------------- links

  function NotAfter(cutoff: Option<int>): Row -> bool {
    (r: Row) => cutoff.Some? && r.ts.Some? && r.ts.value <= cutoff.value
  }

  function CitesAny(evidenceIds: seq<string>): Row -> bool {
    (r: Row) => exists i :: 0 <= i < |r.args.steps| && r.args.steps[i].Some? && r.args.steps[i].value in evidenceIds
  }

  function HasSourceId(id: string): Row -> bool {
    (r: Row) => OrEmpty(r.args.sourceId) == id
  }

  function Records(decisionId: string): Row -> bool {
    (r: Row) => OrEmpty(r.args.decisionId) == decisionId
  }

  function Nothing(): Row -> bool { (r: Row) => false }
  function Anything(): Row -> bool { (r: Row) => true }

  function Cutoff(decision: Row): Option<int> {
    if decision.args.decisionAt.Given? then decision.args.decisionAt.parsed else decision.ts
  }

  /** The tight link from a kpi: to the first of its source ids. */
  function LinkFromKpi(kpi: Option<Step>): Row -> bool {
    if kpi.Some? && kpi.value.row.args.sourceIds != [] then HasSourceId(kpi.value.row.args.sourceIds[0]) else Nothing()
  }

  /** The tight link from a source: to its own id, where a missing id reads as the empty one. */
  function LinkFromSource(source: Option<Step>): Row -> bool {
    if source.Some? then HasSourceId(OrEmpty(source.value.row.args.sourceId)) else Nothing()
  }

  // ---------------------------------------------------------------- what a slot must hold

  predicate Wanted(r: Row, kind: Kind, link: Row -> bool) {
    r.kind == kind && link(r)
  }

  /** `r` is the row of the kind meeting the link that has the greatest seq. */
  ghost predicate Greatest(rows: seq<Row>, kind: Kind, link: Row -> bool, r: Row) {
    && r in rows && Wanted(r, kind, link)
    && forall i :: 0 <= i < |rows| && Wanted(rows[i], kind, link) ==> rows[i].seqNo <= r.seqNo
  }

  ghost predicate NoneWanted(rows: seq<Row>, kind: Kind, link: Row -> bool) {
    forall i :: 0 <= i < |rows| ==> !Wanted(rows[i], kind, link)
  }

  /** `r` is the row of the kind meeting the link that is listed first. */
  ghost predicate Foremost(rows: seq<Row>, kind: Kind, link: Row -> bool, r: Row) {
    exists i :: 0 <= i < |rows| && rows[i] == r && Wanted(r, kind, link) && NoneWanted(rows[..i], kind, link)
  }

  ghost predicate Picks(rows: seq<Row>, kind: Kind, link: Row -> bool, pick: Option<Row>) {
    if pick.Some? then Greatest(rows, kind, link, pick.value) else NoneWanted(rows, kind, link)
  }

  ghost predicate Finds(rows: seq<Row>, kind: Kind, link: Row -> bool, pick: Option<Row>) {
    if pick.Some? then Foremost(rows, kind, link, pick.value) else NoneWanted(rows, kind, link)
  }

  /** The newest row meeting the tight link, else, and then marked as inferred, the newest of the kind. */
  ghost predicate Fills(rows: seq<Row>, kind: Kind, link: Row -> bool, slot: Option<Step>) {
    && (slot.Some? && !slot.value.inferred ==> Greatest(rows, kind, link, slot.value.row))
    && FallsBack(rows, kind, link, slot)
  }

  /** The first row listed that meets the tight link, else, marked as inferred, the newest of the kind. */
  ghost predicate Lists(rows: seq<Row>, kind: Kind, link: Row -> bool, slot: Option<Step>) {
    && (slot.Some? && !slot.value.inferred ==> Foremost(rows, kind, link, slot.value.row))
    && FallsBack(rows, kind, link, slot)
  }

  ghost predicate FallsBack(rows: seq<Row>, kind: Kind, link: Row -> bool, slot: Option<Step>) {
    && (slot.Some? && slot.value.inferred ==>
          NoneWanted(rows, kind, link) && Greatest(rows, kind, Anything(), slot.value.row))
    && (slot.None? ==> NoneWanted(rows, kind, Anything()))
  }

  ghost predicate Descending(rows: seq<Row>) {
    forall i, j :: 0 <= i < j < |rows| ==> rows[i].seqNo > rows[j].seqNo
  }

  function Missing(c: Chain): seq<Kind> {
    (if c.processMap.None? then [ProcessMapProposed] else [])
    + (if c.kpi.None? then [KpiNode] else [])
    + (if c.source.None? then [SourceProposed] else [])
    + (if c.bronze.None? then [SourceBronzed] else [])
  }

  /** What the chain of a recorded decision must be, in terms of the rows alone. */
  ghost predicate ChainFor(rows: seq<Row>, decisionId: string, c: Chain) {
    if c.decision.None? then c == NOT_FOUND && NoneWanted(rows, DecisionRecorded, Records(decisionId))
    else
      var d := c.decision.value.row;
      && !c.decision.value.inferred
      && Greatest(rows, DecisionRecorded, Records(decisionId), d)
      && Fills(rows, ProcessMapProposed, CitesAny(d.args.evidenceIds), c.processMap)
      && Fills(rows, KpiNode, NotAfter(Cutoff(d)), c.kpi)
      && Fills(rows, SourceProposed, LinkFromKpi(c.kpi), c.source)
      && Fills(rows, SourceBronzed, LinkFromSource(c.source), c.bronze)
      && c.missing == Missing(c)
  }

  /** What the chain is for rows in any order: where the code calls `find`, the row listed first. */
  ghost predicate ChainListed(rows: seq<Row>, decisionId: string, c: Chain) {
    if c.decision.None? then c == NOT_FOUND && NoneWanted(rows, DecisionRecorded, Records(decisionId))
    else
      var d := c.decision.value.row;
      && !c.decision.value.inferred
      && Foremost(rows, DecisionRecorded, Records(decisionId), d)
      && Lists(rows, ProcessMapProposed, CitesAny(d.args.evidenceIds), c.processMap)
      && Fills(rows, KpiNode, NotAfter(Cutoff(d)), c.kpi)
      && Lists(rows, SourceProposed, LinkFromKpi(c.kpi), c.source)
      && Lists(rows, SourceBronzed, LinkFromSource(c.source), c.bronze)
      && c.missing == Missing(c)
  }

  // ---------------------------------------------------------------- the chain against the row fields

  /** A missing text reads as the empty one. */
  ghost predicate SameText(a: Option<string>, b: Option<string>) {
    a == b || (a in {None, Some("")} && b in {None, Some("")})
  }

  ghost predicate DecidedBy(r: Row, decisionId: string) {
    r.kind == DecisionRecorded && SameText(r.args.decisionId, Some(decisionId))
  }

  /** One of the map's steps is an evidence message of the decision. */
  ghost predicate Evidences(r: Row, d: Row) {
    r.kind == ProcessMapProposed
    && exists i, j :: 0 <= i < |r.args.steps| && 0 <= j < |d.args.evidenceIds|
                        && r.args.steps[i] == Some(d.args.evidenceIds[j])
  }

  /** A kpi not after the decision: after the time it gives, or else after the time it was recorded. */
  ghost predicate Precedes(r: Row, d: Row) {
    var at := match d.args.decisionAt case Unset => d.ts case Given(parsed) => parsed;
    r.kind == KpiNode && r.ts != None && at != None && r.ts.value <= at.value
  }

  ghost predicate SourceOf(r: Row, kpi: Option<Step>) {
    && r.kind == SourceProposed && kpi != None && kpi.value.row.args.sourceIds != []
    && SameText(r.args.sourceId, Some(kpi.value.row.args.sourceIds[0]))
  }

  ghost predicate BytesOf(r: Row, source: Option<Step>) {
    r.kind == SourceBronzed && source != None && SameText(r.args.sourceId, source.value.row.args.sourceId)
  }

  ghost predicate FirstOf(rows: seq<Row>, p: Row -> bool, r: Row) {
    exists i :: 0 <= i < |rows| && rows[i] == r && p(r) && forall j :: 0 <= j < i ==> !p(rows[j])
  }

  ghost predicate NewestOf(rows: seq<Row>, p: Row -> bool, r: Row) {
    r in rows && p(r) && forall i :: 0 <= i < |rows| && p(rows[i]) ==> rows[i].seqNo <= r.seqNo
  }

  ghost predicate PickTells(rows: seq<Row>, p: Row -> bool, r: Row, byListing: bool) {
    if byListing then FirstOf(rows, p, r) else NewestOf(rows, p, r)
  }

  /** A linked row if there is one; else, marked as inferred, the newest of its kind; else nothing. */
  ghost predicate SlotTells(rows: seq<Row>, kind: Kind, p: Row -> bool, slot: Option<Step>, byListing: bool) {
    match slot
    case Some(Step(r, false)) => PickTells(rows, p, r, byListing)
    case Some(Step(r, true)) =>
      (forall i :: 0 <= i < |rows| ==> !p(rows[i])) && NewestOf(rows, (x: Row) => x.kind == kind, r)
    case None => forall i :: 0 <= i < |rows| ==> rows[i].kind != kind
  }

  ghost predicate Above(a: Kind, b: Kind) {
    match b
    case KpiNode => a == ProcessMapProposed
    case SourceProposed => a in {ProcessMapProposed, KpiNode}
    case SourceBronzed => a in {ProcessMapProposed, KpiNode, SourceProposed}
    case _ => false
  }

  ghost predicate MissingTells(c: Chain) {
    && (ProcessMapProposed in c.missing <==> c.processMap == None) && (KpiNode in c.missing <==> c.kpi == None)
    && (SourceProposed in c.missing <==> c.source == None) && (SourceBronzed in c.missing <==> c.bronze == None)
    && DecisionRecorded !in c.missing
    && TopDown(c.missing)
  }

  ghost predicate TopDown(kinds: seq<Kind>) {
    forall i, j :: 0 <= i < j < |kinds| ==> Above(kinds[i], kinds[j])
  }

  /** The chain: by listing, linked rows are the first listed, the kpi always the newest; else all are the
      newest. */
  ghost predicate ChainTells(rows: seq<Row>, decisionId: string, c: Chain, byListing: bool) {
    if forall i :: 0 <= i < |rows| ==> !DecidedBy(rows[i], decisionId) then
      c == Chain(None, None, None, None, None, [DecisionRecorded])
    else
      && c.decision.Some? && !c.decision.value.inferred && MissingTells(c)
      && PickTells(rows, (r: Row) => DecidedBy(r, decisionId), c.decision.value.row, byListing)
      && SlotTells(rows, ProcessMapProposed, (r: Row) => Evidences(r, c.decision.value.row), c.processMap, byListing)
      && SlotTells(rows, KpiNode, (r: Row) => Precedes(r, c.decision.value.row), c.kpi, false)
      && SlotTells(rows, SourceProposed, (r: Row) => SourceOf(r, c.kpi), c.source, byListing)
      && SlotTells(rows, SourceBronzed, (r: Row) => BytesOf(r, c.source), c.bronze, byListing)
  }

  ghost predicate Matches(kind: Kind, link: Row -> bool, p: Row -> bool) {
    forall r :: Wanted(r, kind, link) <==> p(r)
  }

  lemma GreatestTells(rows: seq<Row>, kind: Kind, link: Row -> bool, p: Row -> bool, r: Row)
    requires Matches(kind, link, p) && Greatest(rows, kind, link, r)
    ensures NewestOf(rows, p, r)
  {
  }

  lemma ForemostTells(rows: seq<Row>, kind: Kind, link: Row -> bool, p: Row -> bool, r: Row)
    requires Matches(kind, link, p) && Foremost(rows, kind, link, r)
    ensures FirstOf(rows, p, r)
  {
    var i :| 0 <= i < |rows| && rows[i] == r && NoneWanted(rows[..i], kind, link);
    forall j | 0 <= j < i ensures !p(rows[j]) {
      assert !Wanted(rows[..i][j], kind, link);
    }
  }

  lemma FallbackTells(rows: seq<Row>, kind: Kind, link: Row -> bool, p: Row -> bool, slot: Option<Step>,
                      byListing: bool)
    requires Matches(kind, link, p) && FallsBack(rows, kind, link, slot)
    requires slot.Some? ==> slot.value.inferred
    ensures SlotTells(rows, kind, p, slot, byListing)
  {
    if slot.Some? {
      GreatestTells(rows, kind, Anything(), (x: Row) => x.kind == kind, slot.value.row);
    } else {
      assert forall i :: 0 <= i < |rows| ==> !Wanted(rows[i], kind, Anything());
    }
  }

  lemma FillsTells(rows: seq<Row>, kind: Kind, link: Row -> bool, p: Row -> bool, slot: Option<Step>)
    requires Matches(kind, link, p) && Fills(rows, kind, link, slot)
    ensures SlotTells(rows, kind, p, slot, false)
  {
    if slot.Some? && !slot.value.inferred {
      GreatestTells(rows, kind, link, p, slot.value.row);
    } else {
      FallbackTells(rows, kind, link, p, slot, false);
    }
  }

  lemma ListsTells(rows: seq<Row>, kind: Kind, link: Row -> bool, p: Row -> bool, slot: Option<Step>)
    requires Matches(kind, link, p) && Lists(rows, kind, link, slot)
    ensures SlotTells(rows, kind, p, slot, true)
  {
    if slot.Some? && !slot.value.inferred {
      ForemostTells(rows, kind, link, p, slot.value.row);
    } else {
      FallbackTells(rows, kind, link, p, slot, true);
    }
  }

  lemma DecisionMatches(decisionId: string)
    ensures Matches(DecisionRecorded, Records(decisionId), (r: Row) => DecidedBy(r, decisionId))
  {
  }

  lemma EvidenceMatches(d: Row)
    ensures Matches(ProcessMapProposed, CitesAny(d.args.evidenceIds), (r: Row) => Evidences(r, d))
  {
    forall r ensures Wanted(r, ProcessMapProposed, CitesAny(d.args.evidenceIds)) <==> Evidences(r, d) {
      if Wanted(r, ProcessMapProposed, CitesAny(d.args.evidenceIds)) {
        var i :| 0 <= i < |r.args.steps| && r.args.steps[i].Some? && r.args.steps[i].value in d.args.evidenceIds;
        var j :| 0 <= j < |d.args.evidenceIds| && d.args.evidenceIds[j] == r.args.steps[i].value;
        assert r.args.steps[i] == Some(d.args.evidenceIds[j]);
      }
    }
  }

  lemma KpiMatches(d: Row)
    ensures Matches(KpiNode, NotAfter(Cutoff(d)), (r: Row) => Precedes(r, d))
  {
  }

  lemma SourceMatches(kpi: Option<Step>)
    ensures Matches(SourceProposed, LinkFromKpi(kpi), (r: Row) => SourceOf(r, kpi))
  {
  }

  lemma BronzeMatches(source: Option<Step>)
    ensures Matches(SourceBronzed, LinkFromSource(source), (r: Row) => BytesOf(r, source))
  {
  }

  function Pair(x: Kind, lacksX: bool, y: Kind, lacksY: bool): seq<Kind> {
    (if lacksX then [x] else []) + (if lacksY then [y] else [])
  }

  lemma PairTells(x: Kind, lacksX: bool, y: Kind, lacksY: bool)
    requires Above(x, y)
    ensures TopDown(Pair(x, lacksX, y, lacksY))
    ensures forall k :: k in Pair(x, lacksX, y, lacksY) <==> (lacksX && k == x) || (lacksY && k == y)
  {
  }

  lemma JoinTells(a: seq<Kind>, b: seq<Kind>)
    requires TopDown(a) && TopDown(b)
    requires forall k, l :: k in a && l in b ==> Above(k, l)
    ensures TopDown(a + b) && forall k :: k in a + b <==> k in a || k in b
  {
  }

  lemma MissingIsTold(c: Chain)
    requires c.missing == Missing(c)
    ensures MissingTells(c)
  {
    var a := Pair(ProcessMapProposed, c.processMap.None?, KpiNode, c.kpi.None?);
    var b := Pair(SourceProposed, c.source.None?, SourceBronzed, c.bronze.None?);
    assert c.missing == a + b;
    PairTells(ProcessMapProposed, c.processMap.None?, KpiNode, c.kpi.None?);
    PairTells(SourceProposed, c.source.None?, SourceBronzed, c.bronze.None?);
    MissingOfPairs(c, a, b);
  }

  lemma MissingOfPairs(c: Chain, a: seq<Kind>, b: seq<Kind>)
    requires c.missing == a + b && TopDown(a) && TopDown(b)
    requires forall k :: k in a <==> (c.processMap.None? && k == ProcessMapProposed) || (c.kpi.None? && k == KpiNode)
    requires forall k :: k in b <==> (c.source.None? && k == SourceProposed) || (c.bronze.None? && k == SourceBronzed)
    ensures MissingTells(c)
  {
    JoinTells(a, b);
  }

  lemma NoDecisionTells(rows: seq<Row>, decisionId: string)
    ensures NoneWanted(rows, DecisionRecorded, Records(decisionId))
       <==> forall i :: 0 <= i < |rows| ==> !DecidedBy(rows[i], decisionId)
  {
    DecisionMatches(decisionId);
    assert forall i :: 0 <= i < |rows| ==>
        (Wanted(rows[i], DecisionRecorded, Records(decisionId)) <==> DecidedBy(rows[i], decisionId));
  }

  lemma SlotsTell(d: Row, c: Chain)
    ensures Matches(ProcessMapProposed, CitesAny(d.args.evidenceIds), (r: Row) => Evidences(r, d))
    ensures Matches(KpiNode, NotAfter(Cutoff(d)), (r: Row) => Precedes(r, d))
    ensures Matches(SourceProposed, LinkFromKpi(c.kpi), (r: Row) => SourceOf(r, c.kpi))
    ensures Matches(SourceBronzed, LinkFromSource(c.source), (r: Row) => BytesOf(r, c.source))
  {
    EvidenceMatches(d);
    KpiMatches(d);
    SourceMatches(c.kpi);
    BronzeMatches(c.source);
  }

  /** The chain by listing is told by the fields of the rows. */
  lemma ListedIsTold(rows: seq<Row>, decisionId: string, c: Chain)
    requires ChainListed(rows, decisionId, c)
    ensures ChainTells(rows, decisionId, c, true)
  {
    NoDecisionTells(rows, decisionId);
    if c.decision.Some? {
      var d := c.decision.value.row;
      DecisionMatches(decisionId);
      ForemostTells(rows, DecisionRecorded, Records(decisionId), (r: Row) => DecidedBy(r, decisionId), d);
      assert DecidedBy(d, decisionId) && d in rows;
      MissingIsTold(c);
      SlotsTell(d, c);
      ListsTells(rows, ProcessMapProposed, CitesAny(d.args.evidenceIds), (r: Row) => Evidences(r, d), c.processMap);
      FillsTells(rows, KpiNode, NotAfter(Cutoff(d)), (r: Row) => Precedes(r, d), c.kpi);
      ListsTells(rows, SourceProposed, LinkFromKpi(c.kpi), (r: Row) => SourceOf(r, c.kpi), c.source);
      ListsTells(rows, SourceBronzed, LinkFromSource(c.source), (r: Row) => BytesOf(r, c.source), c.bronze);
    }
  }

  /** So is the newest chain. */
  lemma NewestIsTold(rows: seq<Row>, decisionId: string, c: Chain)
    requires ChainFor(rows, decisionId, c)
    ensures ChainTells(rows, decisionId, c, false)
  {
    NoDecisionTells(rows, decisionId);
    if c.decision.Some? {
      var d := c.decision.value.row;
      DecisionMatches(decisionId);
      GreatestTells(rows, DecisionRecorded, Records(decisionId), (r: Row) => DecidedBy(r, decisionId), d);
      assert DecidedBy(d, decisionId) && d in rows;
      MissingIsTold(c);
      SlotsTell(d, c);
      FillsTells(rows, ProcessMapProposed, CitesAny(d.args.evidenceIds), (r: Row) => Evidences(r, d), c.processMap);
      FillsTells(rows, KpiNode, NotAfter(Cutoff(d)), (r: Row) => Precedes(r, d), c.kpi);
      FillsTells(rows, SourceProposed, LinkFromKpi(c.kpi), (r: Row) => SourceOf(r, c.kpi), c.source);
      FillsTells(rows, SourceBronzed, LinkFromSource(c.source), (r: Row) => BytesOf(r, c.source), c.bronze);
    }
  }

  // ---------------------------------------------------------------- the pickers meet it

  lemma {:induction false} KindIsSubset(rows: seq<Row>, kind: Kind)
    ensures forall r :: r in RowsOfKind(rows, kind) <==> r in rows && r.kind == kind
  {
    if rows != [] {
      var n := |rows| - 1;
      KindIsSubset(rows[..n], kind);
      assert rows == rows[..n] + [rows[n]];
    }
  }

  lemma {:induction false} WhereIsSubset(rows: seq<Row>, p: Row -> bool)
    ensures forall r :: r in Where(rows, p) <==> r in rows && p(r)
  {
    if rows != [] {
      var n := |rows| - 1;
      WhereIsSubset(rows[..n], p);
      assert rows == rows[..n] + [rows[n]];
    }
  }

  /** The rows of a kind are found in the order they are listed. */
  lemma {:induction false} FindOfKind(rows: seq<Row>, kind: Kind, link: Row -> bool)
    ensures Finds(rows, kind, link, Find(RowsOfKind(rows, kind), link))
  {
    if rows != [] {
      var n := |rows| - 1;
      var front := RowsOfKind(rows[..n], kind);
      FindOfKind(rows[..n], kind, link);
      if rows[n].kind == kind {
        FindSnoc(front, rows[n], link);
      }
      ForemostGrows(rows, kind, link, Find(front, link));
    }
  }

  lemma {:induction false} FindSnoc(rows: seq<Row>, r: Row, p: Row -> bool)
    ensures Find(rows + [r], p) == if Find(rows, p).Some? then Find(rows, p) else if p(r) then Some(r) else None
  {
    if rows == [] {
      assert [] + [r] == [r] && [r][1..] == [];
    } else {
      assert (rows + [r])[1..] == rows[1..] + [r];
      FindSnoc(rows[1..], r, p);
    }
  }

  lemma ForemostGrows(rows: seq<Row>, kind: Kind, link: Row -> bool, found: Option<Row>)
    requires rows != [] && Finds(rows[..|rows|-1], kind, link, found)
    ensures var r := rows[|rows|-1];
            Finds(rows, kind, link, if found.Some? then found else if Wanted(r, kind, link) then Some(r) else None)
  {
    var n := |rows| - 1;
    if found.Some? {
      var i :| 0 <= i < n && rows[..n][i] == found.value && NoneWanted(rows[..n][..i], kind, link);
      assert rows[..n][..i] == rows[..i];
    }
  }

  /** In descending seq, the row listed first is the newest. */
  lemma ForemostIsGreatest(rows: seq<Row>, kind: Kind, link: Row -> bool, r: Row)
    requires Descending(rows) && Foremost(rows, kind, link, r)
    ensures Greatest(rows, kind, link, r)
  {
    var i :| 0 <= i < |rows| && rows[i] == r && NoneWanted(rows[..i], kind, link);
    assert forall j :: 0 <= j < i ==> rows[..i][j] == rows[j];
  }

  lemma HeadIsGreatest(rows: seq<Row>)
    requires rows != []
    ensures var head := Sort(rows, BySeqDescending)[0];
            head in rows && forall r :: r in rows ==> r.seqNo <= head.seqNo
  {
    var s := Sort(rows, BySeqDescending);
    SortSorts(rows, BySeqDescending);
    SortPermutes(rows, BySeqDescending);
    assert s[0] in multiset(s);
    assert s[0] in multiset(rows);
    forall r | r in rows ensures r.seqNo <= s[0].seqNo {
      assert r in multiset(rows);
      assert r in multiset(s);
    }
  }

  lemma RecentPicks(rows: seq<Row>, kind: Kind)
    ensures Picks(rows, kind, Anything(), PickMostRecent(RowsOfKind(rows, kind)))
  {
    KindIsSubset(rows, kind);
    var of := RowsOfKind(rows, kind);
    if of != [] {
      HeadIsGreatest(of);
    }
  }

  lemma RecentBeforePicks(rows: seq<Row>, kind: Kind, cutoff: Option<int>)
    ensures Picks(rows, kind, NotAfter(cutoff), PickMostRecentBefore(RowsOfKind(rows, kind), cutoff))
  {
    KindIsSubset(rows, kind);
    var of := RowsOfKind(rows, kind);
    WhereIsSubset(of, NotAfter(cutoff));
    var before := Where(of, NotAfter(cutoff));
    if before != [] {
      HeadIsGreatest(before);
    }
  }

  /** The first process map listed that cites an evidence id, none exactly when none does. */
  lemma EvidenceFinds(rows: seq<Row>, evidenceIds: seq<string>)
    ensures Finds(rows, ProcessMapProposed, CitesAny(evidenceIds),
                  PickProcessMapByEvidence(RowsOfKind(rows, ProcessMapProposed), evidenceIds))
  {
    FindOfKind(rows, ProcessMapProposed, CitesAny(evidenceIds));
  }

  /** In descending seq it is the newest that does. */
  lemma EvidencePicks(rows: seq<Row>, evidenceIds: seq<string>)
    requires Descending(rows)
    ensures Picks(rows, ProcessMapProposed, CitesAny(evidenceIds),
                  PickProcessMapByEvidence(RowsOfKind(rows, ProcessMapProposed), evidenceIds))
  {
    EvidenceFinds(rows, evidenceIds);
    var pick := PickProcessMapByEvidence(RowsOfKind(rows, ProcessMapProposed), evidenceIds);
    if pick.Some? {
      ForemostIsGreatest(rows, ProcessMapProposed, CitesAny(evidenceIds), pick.value);
    }
  }

  // ---------------------------------------------------------------- the selector

  /** `tight ?? mostRecent`, marked as inferred when the tight link found nothing. */
  function Slot(tight: Option<Row>, recent: Option<Row>): Option<Step> {
    if tight.Some? then Some(Step(tight.value, false))
    else if recent.Some? then Some(Step(recent.value, true))
    else None
  }

  lemma SlotFills(rows: seq<Row>, kind: Kind, link: Row -> bool, tight: Option<Row>, recent: Option<Row>)
    requires Picks(rows, kind, Anything(), recent)
    ensures Picks(rows, kind, link, tight) ==> Fills(rows, kind, link, Slot(tight, recent))
    ensures Finds(rows, kind, link, tight) ==> Lists(rows, kind, link, Slot(tight, recent))
  {
  }

  method SelectSource(rows: seq<Row>, kpi: Option<Step>) returns (source: Option<Step>)
    ensures Lists(rows, SourceProposed, LinkFromKpi(kpi), source)
  {
    var sourceRows := RowsOfKind(rows, SourceProposed);
    var sourceRow: Option<Row> := None;
    var inferred := false;
    if kpi.Some? {
      var linked := kpi.value.row.args.sourceIds;
      if |linked| > 0 {
        sourceRow := Find(sourceRows, HasSourceId(linked[0]));
      }
    }
    FindOfKind(rows, SourceProposed, LinkFromKpi(kpi));
    RecentPicks(rows, SourceProposed);
    assert Finds(rows, SourceProposed, LinkFromKpi(kpi), sourceRow);
    if sourceRow.None? {
      sourceRow := PickMostRecent(sourceRows);
      inferred := sourceRow.Some?;
    }
    source := if sourceRow.Some? then Some(Step(sourceRow.value, inferred)) else None;
  }

  method SelectBronze(rows: seq<Row>, source: Option<Step>) returns (bronze: Option<Step>)
    ensures Lists(rows, SourceBronzed, LinkFromSource(source), bronze)
  {
    var bronzeRows := RowsOfKind(rows, SourceBronzed);
    var bronzeRow: Option<Row> := None;
    var inferred := false;
    if source.Some? {
      bronzeRow := Find(bronzeRows, HasSourceId(OrEmpty(source.value.row.args.sourceId)));
    }
    FindOfKind(rows, SourceBronzed, LinkFromSource(source));
    RecentPicks(rows, SourceBronzed);
    assert Finds(rows, SourceBronzed, LinkFromSource(source), bronzeRow);
    if bronzeRow.None? {
      bronzeRow := PickMostRecent(bronzeRows);
      inferred := bronzeRow.Some?;
    }
    bronze := if bronzeRow.Some? then Some(Step(bronzeRow.value, inferred)) else None;
  }

  method SelectProcessMap(rows: seq<Row>, d: Row) returns (processMap: Option<Step>)
    ensures Lists(rows, ProcessMapProposed, CitesAny(d.args.evidenceIds), processMap)
  {
    var maps := RowsOfKind(rows, ProcessMapProposed);
    var tight := PickProcessMapByEvidence(maps, d.args.evidenceIds);
    processMap := Slot(tight, PickMostRecent(maps));
    EvidenceFinds(rows, d.args.evidenceIds);
    RecentPicks(rows, ProcessMapProposed);
    SlotFills(rows, ProcessMapProposed, CitesAny(d.args.evidenceIds), tight, PickMostRecent(maps));
  }

  method SelectKpi(rows: seq<Row>, d: Row) returns (kpi: Option<Step>)
    ensures Fills(rows, KpiNode, NotAfter(Cutoff(d)), kpi)
  {
    var kpis := RowsOfKind(rows, KpiNode);
    var tight := PickMostRecentBefore(kpis, Cutoff(d));
    kpi := Slot(tight, PickMostRecent(kpis));
    RecentBeforePicks(rows, KpiNode, Cutoff(d));
    RecentPicks(rows, KpiNode);
    SlotFills(rows, KpiNode, NotAfter(Cutoff(d)), tight, PickMostRecent(kpis));
  }

  /** The four slots below a decision, and what is missing. */
  method SelectSteps(rows: seq<Row>, d: Row) returns (c: Chain)
    ensures c.decision == Some(Step(d, false)) && c.missing == Missing(c)
    ensures Lists(rows, ProcessMapProposed, CitesAny(d.args.evidenceIds), c.processMap)
    ensures Fills(rows, KpiNode, NotAfter(Cutoff(d)), c.kpi)
    ensures Lists(rows, SourceProposed, LinkFromKpi(c.kpi), c.source)
    ensures Lists(rows, SourceBronzed, LinkFromSource(c.source), c.bronze)
  {
    var missing := [];
    var processMap := SelectProcessMap(rows, d);
    if processMap.None? { missing := missing + [ProcessMapProposed]; }
    var kpi := SelectKpi(rows, d);
    if kpi.None? { missing := missing + [KpiNode]; }
    var source := SelectSource(rows, kpi);
    if source.None? { missing := missing + [SourceProposed]; }
    var bronze := SelectBronze(rows, source);
    if bronze.None? { missing := missing + [SourceBronzed]; }
    c := Chain(Some(Step(d, false)), processMap, kpi, source, bronze, missing);
  }

  method SelectChainSteps(rows: seq<Row>, decisionId: string) returns (c: Chain)
    ensures ChainListed(rows, decisionId, c) && ChainTells(rows, decisionId, c, true)
    ensures Descending(rows) ==> ChainFor(rows, decisionId, c) && ChainTells(rows, decisionId, c, false)
  {
    var decisionRow := Find(RowsOfKind(rows, DecisionRecorded), Records(decisionId));
    FindOfKind(rows, DecisionRecorded, Records(decisionId));
    c := NOT_FOUND;
    if decisionRow.Some? {
      c := SelectSteps(rows, decisionRow.value);
    }
    ListedIsTold(rows, decisionId, c);
    if Descending(rows) {
      ListedIsNewest(rows, decisionId, c);
      NewestIsTold(rows, decisionId, c);
    }
  }

  lemma ListsFills(rows: seq<Row>, kind: Kind, link: Row -> bool, slot: Option<Step>)
    requires Descending(rows) && Lists(rows, kind, link, slot)
    ensures Fills(rows, kind, link, slot)
  {
    if slot.Some? && !slot.value.inferred {
      ForemostIsGreatest(rows, kind, link, slot.value.row);
    }
  }

  /** For rows in descending seq the chain by listing is the chain by seq. */
  lemma ListedIsNewest(rows: seq<Row>, decisionId: string, c: Chain)
    requires Descending(rows) && ChainListed(rows, decisionId, c)
    ensures ChainFor(rows, decisionId, c)
  {
    if c.decision.Some? {
      var d := c.decision.value.row;
      ForemostIsGreatest(rows, DecisionRecorded, Records(decisionId), d);
      ListsFills(rows, ProcessMapProposed, CitesAny(d.args.evidenceIds), c.processMap);
      ListsFills(rows, SourceProposed, LinkFromKpi(c.kpi), c.source);
      ListsFills(rows, SourceBronzed, LinkFromSource(c.source), c.bronze);
    }
  }

  /** `getDecisionChain`: the query's rows, None when it fails.  For rows in text order of their seqs,
      as the query returns them, the chain is the newest exactly when for each of its four links that
      are found by listing the first row wanted is a longest one; so it is if the numbers of digits
      never increase along the rows. */
  method GetDecisionChain(queried: Option<seq<Row>>, decisionId: string) returns (c: Chain)
    ensures decisionId == "" || queried.None? ==> c == Chain(None, None, None, None, None, [DecisionRecorded])
    ensures decisionId != "" && queried.Some? ==>
              ChainListed(queried.value, decisionId, c) && ChainTells(queried.value, decisionId, c, true)
    ensures decisionId != "" && queried.Some? && InTextOrder(queried.value) ==>
              (ChainFor(queried.value, decisionId, c) <==> FirstsAreLongest(queried.value, decisionId, c))
    ensures decisionId != "" && queried.Some? && InTextOrder(queried.value) && DigitsNeverIncrease(queried.value) ==>
              ChainTells(queried.value, decisionId, c, false)
  {
    if decisionId == "" || queried.None? {
      return NOT_FOUND;
    }
    c := SelectChainSteps(queried.value, decisionId);
    if InTextOrder(queried.value) {
      TextOrderDescendsIff(queried.value);
      NewestIffFirstsAreLongest(queried.value, decisionId, c);
      if DigitsNeverIncrease(queried.value) {
        NewestIsTold(queried.value, decisionId, c);
      }
    }
  }

  // ---------------------------------------------------------------- the order of the query

  /** `ORDER BY seq DESC` where `seq` names the output column `seq::text`; seqs are distinct. */
  ghost predicate InTextOrder(rows: seq<Row>) {
    forall i, j :: 0 <= i < j < |rows| ==> TextLess(Decimal(rows[j].seqNo), Decimal(rows[i].seqNo))
  }

  ghost predicate DigitsNeverIncrease(rows: seq<Row>) {
    forall i, j :: 0 <= i < j < |rows| ==> |Decimal(rows[i].seqNo)| >= |Decimal(rows[j].seqNo)|
  }

  /** Rows in descending text order are in descending seq exactly when the numbers of digits never
      increase along them. */
  lemma TextOrderDescendsIff(rows: seq<Row>)
    requires InTextOrder(rows)
    ensures Descending(rows) <==> DigitsNeverIncrease(rows)
  {
    if Descending(rows) {
      forall i, j | 0 <= i < j < |rows| ensures |Decimal(rows[i].seqNo)| >= |Decimal(rows[j].seqNo)| {
        LongerIsGreater(rows[j].seqNo, rows[i].seqNo);
      }
    }
    if DigitsNeverIncrease(rows) {
      forall i, j | 0 <= i < j < |rows| ensures rows[i].seqNo > rows[j].seqNo {
        var m, n := rows[j].seqNo, rows[i].seqNo;
        if |Decimal(m)| == |Decimal(n)| {
          TextOrderOfEqualLength(m, n);
        } else if n <= m {
          LongerIsGreater(n, m);
        }
      }
    }
  }

  /** No row wanted has more digits than the first one listed. */
  ghost predicate FirstIsLongest(rows: seq<Row>, kind: Kind, link: Row -> bool) {
    forall i, j :: 0 <= i < j < |rows| && Leads(rows, i, kind, link) && Wanted(rows[j], kind, link) ==>
      |Decimal(rows[j].seqNo)| <= |Decimal(rows[i].seqNo)|
  }

  ghost predicate Leads(rows: seq<Row>, i: nat, kind: Kind, link: Row -> bool)
    requires i < |rows|
  {
    Wanted(rows[i], kind, link) && NoneWanted(rows[..i], kind, link)
  }

  /** In text order, the row listed first is the newest exactly when no other wanted has more digits. */
  lemma ForemostIsGreatestIff(rows: seq<Row>, kind: Kind, link: Row -> bool, r: Row)
    requires InTextOrder(rows) && Foremost(rows, kind, link, r)
    ensures Greatest(rows, kind, link, r) <==> FirstIsLongest(rows, kind, link)
  {
    var i :| 0 <= i < |rows| && rows[i] == r && Wanted(r, kind, link) && NoneWanted(rows[..i], kind, link);
    assert Leads(rows, i, kind, link);
    assert forall k :: 0 <= k < i ==> rows[..i][k] == rows[k];
    if FirstIsLongest(rows, kind, link) {
      forall j | 0 <= j < |rows| && Wanted(rows[j], kind, link) ensures rows[j].seqNo <= r.seqNo {
        if i < j {
          LaterIsLess(r.seqNo, rows[j].seqNo);
        }
      }
    }
    if Greatest(rows, kind, link, r) {
      forall k, j | 0 <= k < j < |rows| && Leads(rows, k, kind, link) && Wanted(rows[j], kind, link)
        ensures |Decimal(rows[j].seqNo)| <= |Decimal(rows[k].seqNo)|
      {
        OneLeader(rows, i, k, kind, link);
        LongerIsGreater(rows[j].seqNo, r.seqNo);
      }
    }
  }

  lemma LaterIsLess(first: nat, later: nat)
    requires TextLess(Decimal(later), Decimal(first)) && |Decimal(later)| <= |Decimal(first)|
    ensures later < first
  {
    if |Decimal(later)| == |Decimal(first)| {
      TextOrderOfEqualLength(later, first);
    } else if first <= later {
      LongerIsGreater(first, later);
    }
  }

  lemma OneLeader(rows: seq<Row>, i: nat, k: nat, kind: Kind, link: Row -> bool)
    requires i < |rows| && k < |rows| && Leads(rows, i, kind, link) && Leads(rows, k, kind, link)
    ensures i == k
  {
    assert forall m :: 0 <= m < k ==> rows[..k][m] == rows[m];
    assert forall m :: 0 <= m < i ==> rows[..i][m] == rows[m];
  }

  /** For each of the links found by listing, no row wanted has more digits than the first one listed.
      The kpi is picked by seq and needs nothing. */
  ghost predicate FirstsAreLongest(rows: seq<Row>, decisionId: string, c: Chain) {
    c.decision.Some? ==>
      && FirstIsLongest(rows, DecisionRecorded, Records(decisionId))
      && FirstIsLongest(rows, ProcessMapProposed, CitesAny(c.decision.value.row.args.evidenceIds))
      && FirstIsLongest(rows, SourceProposed, LinkFromKpi(c.kpi))
      && FirstIsLongest(rows, SourceBronzed, LinkFromSource(c.source))
  }

  lemma FillsIffFirstIsLongest(rows: seq<Row>, kind: Kind, link: Row -> bool, slot: Option<Step>)
    requires InTextOrder(rows) && Lists(rows, kind, link, slot)
    ensures Fills(rows, kind, link, slot) <==> FirstIsLongest(rows, kind, link)
  {
    if slot.Some? && !slot.value.inferred {
      ForemostIsGreatestIff(rows, kind, link, slot.value.row);
    }
  }

  /** In text order, the chain by listing is the newest exactly when its firsts are longest. */
  lemma NewestIffFirstsAreLongest(rows: seq<Row>, decisionId: string, c: Chain)
    requires InTextOrder(rows) && ChainListed(rows, decisionId, c)
    ensures ChainFor(rows, decisionId, c) <==> FirstsAreLongest(rows, decisionId, c)
  {
    if c.decision.Some? {
      var d := c.decision.value.row;
      ForemostIsGreatestIff(rows, DecisionRecorded, Records(decisionId), d);
      FillsIffFirstIsLongest(rows, ProcessMapProposed, CitesAny(d.args.evidenceIds), c.processMap);
      FillsIffFirstIsLongest(rows, SourceProposed, LinkFromKpi(c.kpi), c.source);
      FillsIffFirstIsLongest(rows, SourceBronzed, LinkFromSource(c.source), c.bronze);
    }
  }

  // ---------------------------------------------------------------- laws of a chain

  /** A bronze step that is not inferred is about the source step's own source. */
  lemma BronzeSharesItsSource(rows: seq<Row>, decisionId: string, c: Chain)
    requires ChainFor(rows, decisionId, c)
    requires c.bronze.Some? && !c.bronze.value.inferred
    ensures c.source.Some?
    ensures OrEmpty(c.bronze.value.row.args.sourceId) == OrEmpty(c.source.value.row.args.sourceId)
  {
  }

  lemma OneGreatest(rows: seq<Row>, kind: Kind, link: Row -> bool, r: Row, s: Row)
    requires Descending(rows) && Greatest(rows, kind, link, r) && Greatest(rows, kind, link, s)
    ensures r == s
  {
    var i :| 0 <= i < |rows| && rows[i] == r;
    var j :| 0 <= j < |rows| && rows[j] == s;
  }

  lemma OneFilling(rows: seq<Row>, kind: Kind, link: Row -> bool, a: Option<Step>, b: Option<Step>)
    requires Descending(rows) && Fills(rows, kind, link, a) && Fills(rows, kind, link, b)
    ensures a == b
  {
    if a.Some? && b.Some? {
      if a.value.inferred == b.value.inferred {
        OneGreatest(rows, kind, if a.value.inferred then Anything() else link, a.value.row, b.value.row);
      }
    }
  }

  /** The rows determine the chain: the law admits no other answer. */
  lemma ChainIsDetermined(rows: seq<Row>, decisionId: string, a: Chain, b: Chain)
    requires Descending(rows) && ChainFor(rows, decisionId, a)
    ensures ChainFor(rows, decisionId, b) ==> a == b
  {
    if ChainFor(rows, decisionId, b) && a.decision.Some? && b.decision.Some? {
      var d := a.decision.value.row;
      OneGreatest(rows, DecisionRecorded, Records(decisionId), d, b.decision.value.row);
      OneFilling(rows, ProcessMapProposed, CitesAny(d.args.evidenceIds), a.processMap, b.processMap);
      OneFilling(rows, KpiNode, NotAfter(Cutoff(d)), a.kpi, b.kpi);
      OneFilling(rows, SourceProposed, LinkFromKpi(a.kpi), a.source, b.source);
      OneFilling(rows, SourceBronzed, LinkFromSource(a.source), a.bronze, b.bronze);
    }
  }

  function Plain(seqNo: nat, decisionId: string): Row {
    Row(seqNo, DecisionRecorded, None, "", Args(Some(decisionId), Unset, [], [], [], None))
  }

  /** `find` trusts the order of the rows: in text order 9 comes before 10, the older of two decisions
      with one id is chosen, and the chain is not the newest. */
  lemma TextOrderChoosesTheOlder(id: string)
    ensures var rows := [Plain(9, id), Plain(10, id)];
            && InTextOrder(rows) && !DigitsNeverIncrease(rows)
            && Foremost(rows, DecisionRecorded, Records(id), rows[0])
            && !Greatest(rows, DecisionRecorded, Records(id), rows[0])
  {
    var rows := [Plain(9, id), Plain(10, id)];
    assert Decimal(9) == "9" && Decimal(10) == Decimal(1) + "0" == "10";
    assert rows[..0] == [];
    assert Wanted(rows[0], DecisionRecorded, Records(id)) && Wanted(rows[1], DecisionRecorded, Records(id));
    assert |Decimal(rows[0].seqNo)| < |Decimal(rows[1].seqNo)|;
  }
}
