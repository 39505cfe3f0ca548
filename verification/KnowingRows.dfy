/** The ledger rows `getFirstKnowings` reads, the entries it returns, and what an answer owes the rows
    (apps/dashboard/lib/ledger-client.ts): which rows are open, what an open row is shown as, and which
    of the open rows an answer has to hold.  Everything here speaks of the fields of the rows and of the
    entries; how the answer is computed is in `FirstKnowings`. */
module KnowingRows {
  import opened Sequences

  datatype Event =
    | Chat(channelId: string, sender: string, text: string)
    | Confirm(confirmedRef: string)
    | GapResolved(resolvedKey: string)
    | PersonArchived(archivedRef: string)
    | GapDetected(gapKind: string, noveltyKey: string, referencedInSeq: int, confidence: real)
    | Propose(targetKind: string, refId: string, proposedBy: string)
    | ExecuteProposed(executedKind: string, audience: string)
    | OtherRow

  datatype Row = Row(seqNo: nat, ts: int, hash: string, event: Event)

  datatype Kind = KpiGap | DomainGap | ProcessGap | ReactivityGap | PersonGap

  datatype Scope = Mine | Team | Company

  datatype ChatLine = ChatLine(seqNo: nat, ts: int, channelId: string, sender: string, text: string, isAnchor: bool)

  datatype Knowing = Knowing(kind: Kind, firstSeq: nat, firstTs: int, refId: string, referencedInSeq: int,
                             confidence: Option<real>, noveltyKey: string, proposedBy: string, targetKind: string,
                             scope: Scope, receiptHash: string, context: seq<ChatLine>)

  datatype Options = Options(kinds: set<Kind>, scope: Option<Scope>, recencyMs: Option<int>, limit: Option<int>,
                             now: int)

  ghost predicate Ordered(rows: seq<Row>) {
    forall i, j :: 0 <= i < j < |rows| ==> rows[i].seqNo < rows[j].seqNo
  }

  // ---------------------------------------------------------------- open rows

  ghost predicate Confirms(e: Event, ref: string) {
    e == Confirm(ref) || (e.GapResolved? && e.resolvedKey != "" && ref == "phenomenon_gap:" + e.resolvedKey)
  }

  ghost predicate ConfirmedIn(rows: seq<Row>, ref: string) {
    exists i :: 0 <= i < |rows| && Confirms(rows[i].event, ref)
  }

  ghost predicate ArchivedIn(rows: seq<Row>, ref: string) {
    exists i :: 0 <= i < |rows| && rows[i].event == PersonArchived(ref)
  }

  ghost predicate HexOrDash(c: char) {
    c == '-' || '0' <= c <= '9' || 'a' <= c <= 'f' || 'A' <= c <= 'F'
  }

  /** A name people or the platform sign with, as opposed to a worm's. */
  ghost predicate HumanName(s: string) {
    || s in {"", "admin", "human", "system"}
    || (|s| == 36 && forall i :: 0 <= i < |s| ==> HexOrDash(s[i]))
  }

  /** A row that names a target and a reference: a detected gap names its novelty key, or its seq for
      want of one. */
  ghost predicate Refers(row: Row, target: string, ref: string) {
    match row.event
    case GapDetected(_, "", _, _) =>
      target == "phenomenon_gap_detected" && ref == "phenomenon_gap:" + Decimal(row.seqNo)
    case GapDetected(_, key, _, _) => target == "phenomenon_gap_detected" && ref == "phenomenon_gap:" + key
    case Propose(t, r, _) => target == t && ref == r
    case _ => false
  }

  /** A detected gap of a named kind, or a worm's proposal of a person or a reactivity. */
  ghost predicate Eligible(row: Row) {
    match row.event
    case GapDetected(gapKind, _, _, _) => gapKind != ""
    case Propose(t, r, proposer) => r != "" && t in {"person_proposed", "reactivity_proposed"} && !HumanName(proposer)
    case _ => false
  }

  /** Nobody has confirmed what the row refers to and, if it is a proposal, nobody has archived it. */
  ghost predicate Pending(all: seq<Row>, row: Row, ref: string) {
    !ConfirmedIn(all, ref) && (row.event.Propose? ==> !ArchivedIn(all, ref))
  }

  ghost predicate Open(all: seq<Row>, i: nat, target: string, ref: string) {
    i < |all| && Eligible(all[i]) && Refers(all[i], target, ref) && Pending(all, all[i], ref)
  }

  /** The first open row for its target and reference. */
  ghost predicate FirstOpen(all: seq<Row>, i: nat, target: string, ref: string) {
    Open(all, i, target, ref) && forall j :: 0 <= j < i ==> !Open(all, j, target, ref)
  }

  // ---------------------------------------------------------------- what an open row is shown as

  /** Row `j` carries out what was proposed at `seqNo`: of the wanted kind, within eight seqs. */
  ghost predicate CarriesOut(rows: seq<Row>, j: nat, seqNo: nat, kind: string) {
    && j < |rows| && rows[j].event.ExecuteProposed? && rows[j].event.executedKind == kind
    && seqNo < rows[j].seqNo <= seqNo + 8
    && forall k :: 0 <= k < j ==> rows[k].seqNo <= seqNo + 8
  }

  /** `audience` is that of the first row carrying the proposal out; it is empty if there is none. */
  ghost predicate AudienceIs(rows: seq<Row>, seqNo: nat, kind: string, audience: string) {
    || (exists j: nat :: CarriesOut(rows, j, seqNo, kind) && rows[j].event.audience == audience
                           && forall k: nat :: k < j ==> !CarriesOut(rows, k, seqNo, kind))
    || (audience == "" && forall j: nat :: !CarriesOut(rows, j, seqNo, kind))
  }

  ghost predicate ScopeIs(audience: string, scope: Scope) {
    && (scope == Mine <==> "person:" <= audience)
    && (scope == Team <==> "team:" <= audience)
  }

  ghost predicate ProposalShown(all: seq<Row>, row: Row, k: Knowing)
    requires row.event.Propose?
  {
    && k.kind == (if row.event.targetKind == "person_proposed" then PersonGap else ReactivityGap)
    && k.referencedInSeq == 0 && k.confidence == None && k.noveltyKey == ""
    && k.proposedBy == row.event.proposedBy
    && (row.event.targetKind == "person_proposed" ==> k.scope == Mine)
    && (row.event.targetKind == "reactivity_proposed" ==>
          exists a :: AudienceIs(all, row.seqNo, "reactivity_proposed", a) && ScopeIs(a, k.scope))
  }

  ghost predicate GapShown(row: Row, k: Knowing)
    requires row.event.GapDetected?
  {
    && (k.kind == DomainGap <==> row.event.gapKind == "domain")
    && (k.kind == ProcessGap <==> row.event.gapKind == "process")
    && (k.kind == ReactivityGap <==> row.event.gapKind == "reactivity")
    && k.kind != PersonGap
    && k.referencedInSeq == row.event.referencedInSeq && k.confidence == Some(row.event.confidence)
    && k.noveltyKey == row.event.noveltyKey
    && k.proposedBy == "phenomenon_gap_detector" && k.scope == Company
  }

  ghost predicate IsChatAt(rows: seq<Row>, i: nat, s: nat) {
    i < |rows| && rows[i].event.Chat? && rows[i].seqNo == s
  }

  /** `line` repeats chat row `j`, and is flagged if that is the row looked for. */
  ghost predicate Repeats(line: ChatLine, rows: seq<Row>, j: nat, anchor: int) {
    && IsChatAt(rows, j, line.seqNo) && line.ts == rows[j].ts
    && Chat(line.channelId, line.sender, line.text) == rows[j].event
    && (line.isAnchor <==> line.seqNo == anchor)
  }

  /** A chat seq against a window with `b` lines below the anchor: it is outside only if the window is
      full on that side, or if the window is empty because no chat reaches the anchor. */
  ghost predicate Placed(w: seq<ChatLine>, b: nat, anchor: int, s: nat) {
    if w == [] then s < anchor
    else
      || (s < w[0].seqNo && b == 3)
      || (exists i :: 0 <= i < |w| && w[i].seqNo == s)
      || (w[|w|-1].seqNo < s && |w| == b + 4)
  }

  /** The lines ascend, the first `b` of them below the anchor; there are at most three of those and at
      most four others. */
  ghost predicate Centred(w: seq<ChatLine>, b: nat, anchor: int) {
    && b <= 3 && b <= |w| <= b + 4
    && (forall i :: 0 <= i < |w| ==> (w[i].seqNo < anchor <==> i < b))
    && (forall i, j :: 0 <= i < j < |w| ==> w[i].seqNo < w[j].seqNo)
  }

  ghost predicate RepeatsSome(line: ChatLine, rows: seq<Row>, anchor: int) {
    exists j: nat :: Repeats(line, rows, j, anchor)
  }

  ghost predicate AllRepeat(rows: seq<Row>, w: seq<ChatLine>, anchor: int) {
    forall i :: 0 <= i < |w| ==> RepeatsSome(w[i], rows, anchor)
  }

  ghost predicate AllPlaced(rows: seq<Row>, w: seq<ChatLine>, b: nat, anchor: int) {
    forall j: nat, s: nat :: IsChatAt(rows, j, s) ==> Placed(w, b, anchor, s)
  }

  /** The chat around the anchor: the last three rows below it, and the first four from it on. */
  ghost predicate Around(rows: seq<Row>, w: seq<ChatLine>, b: nat, anchor: int) {
    Centred(w, b, anchor) && AllRepeat(rows, w, anchor) && AllPlaced(rows, w, b, anchor)
  }

  /** `k` tells of row `i`, the first open row for its target and reference. */
  ghost predicate Tells(all: seq<Row>, i: nat, k: Knowing) {
    && FirstOpen(all, i, k.targetKind, k.refId)
    && k.firstSeq == all[i].seqNo && k.firstTs == all[i].ts
    && k.receiptHash <= all[i].hash && |k.receiptHash| == (if |all[i].hash| < 12 then |all[i].hash| else 12)
    && (all[i].event.Propose? ==> ProposalShown(all, all[i], k))
    && (all[i].event.GapDetected? ==> GapShown(all[i], k))
  }

  /** `k` tells of row `i`, and of the chat around the message it refers to. */
  ghost predicate Shows(all: seq<Row>, i: nat, k: Knowing) {
    && Tells(all, i, k)
    && (k.referencedInSeq <= 0 ==> k.context == [])
    && (k.referencedInSeq > 0 && Ordered(all) ==> exists b: nat :: Around(all, k.context, b, k.referencedInSeq))
  }

  // ---------------------------------------------------------------- the answer

  /** The entry passes the filter chips; an empty choice of kinds is every kind. */
  ghost predicate Wanted(k: Knowing, o: Options) {
    && (o.kinds == {} || k.kind in o.kinds)
    && (o.scope == None || o.scope == Some(k.scope))
    && (o.recencyMs.Some? ==> o.now - k.firstTs <= o.recencyMs.value)
  }

  /** At least one entry, fifty when nothing is asked for. */
  ghost predicate LimitIs(o: Options, limit: nat) {
    && (o.limit == None ==> limit == 50)
    && (o.limit.Some? ==> limit == if o.limit.value < 1 then 1 else o.limit.value)
  }

  /** `k` is among the entries, or is not wanted, or is no newer than any entry of a full answer. */
  ghost predicate Accounted(k: Knowing, o: Options, r: seq<Knowing>, limit: nat) {
    k in r || !Wanted(k, o) || (|r| == limit && forall x :: 0 <= x < |r| ==> r[x].firstSeq >= k.firstSeq)
  }

  ghost predicate Sound(all: seq<Row>, o: Options, r: seq<Knowing>) {
    forall x :: 0 <= x < |r| ==> Wanted(r[x], o) && exists i: nat :: Shows(all, i, r[x])
  }

  ghost predicate Complete(all: seq<Row>, o: Options, r: seq<Knowing>, limit: nat) {
    forall i: nat, target, ref :: FirstOpen(all, i, target, ref) ==>
      exists k :: Shows(all, i, k) && k.targetKind == target && k.refId == ref && Accounted(k, o, r, limit)
  }

  ghost predicate Descends(r: seq<Knowing>) {
    forall x, y :: 0 <= x < y < |r| ==> r[x].firstSeq >= r[y].firstSeq
  }

  /** The answer shows wanted open rows only, every one of them unless it is full, newest first. */
  ghost predicate Answers(all: seq<Row>, o: Options, r: seq<Knowing>, limit: nat) {
    && LimitIs(o, limit) && |r| <= limit
    && Sound(all, o, r) && Complete(all, o, r, limit)
    && Descends(r)
  }

  /** No proposal in an answer refers to what some row archives, and no entry to what some row
      confirms. */
  lemma SuppressedStayOut(all: seq<Row>, o: Options, r: seq<Knowing>, limit: nat, x: nat)
    requires Answers(all, o, r, limit) && x < |r|
    ensures !ConfirmedIn(all, r[x].refId)
    ensures r[x].targetKind != "phenomenon_gap_detected" ==> !ArchivedIn(all, r[x].refId)
  {
    var i: nat :| Shows(all, i, r[x]);
    assert Open(all, i, r[x].targetKind, r[x].refId);
  }

  /** A row that is not open, or not the first for its reference, makes no entry. */
  lemma OnlyFirstOpenRowsEnter(all: seq<Row>, o: Options, r: seq<Knowing>, limit: nat, j: nat, x: nat)
    requires Ordered(all) && Answers(all, o, r, limit) && j < |all| && x < |r| && r[x].firstSeq == all[j].seqNo
    ensures FirstOpen(all, j, r[x].targetKind, r[x].refId)
  {
    var i: nat :| Shows(all, i, r[x]);
    assert !(i < j) && !(j < i);
  }
}
