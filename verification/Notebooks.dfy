/** `foldNotebookRows` (apps/dashboard/lib/ledger-client.ts): notebooks and the list of their runs,
    folded side by side from the same rows, with one mutable state per notebook. */
module Notebooks {
  import opened Sequences
  import opened LifecycleRows

  datatype Cell = Cell(kind: string, source: string, language: Option<string>)

  datatype Proposal = Proposal(name: string, kernel: string, owner: Option<string>, domainId: Option<string>,
                               cells: seq<Cell>)

  datatype Event =
    | Proposed(proposal: Proposal)
    | Ran(runId: Option<string>, status: Option<string>, runBy: Option<string>, kernelStateHash: string,
          durationMs: int)
    | Published(publishedRunId: Option<string>, version: Option<string>, owner: Option<string>)
    | Archived

  type NotebookRow = Row<Event>

  datatype Status = IsProposed | IsRun | IsPublished | IsArchived

  datatype Notebook = Notebook(id: string, proposal: Proposal, status: Status, owner: Option<string>,
                               latestRunId: Option<string>, latestPublishedRunId: Option<string>,
                               version: Option<string>, lastHash: string)

  datatype Run = Run(runId: string, id: string, status: string, ts: int, runBy: string, kernelStateHash: string,
                     durationMs: int)

  function RunIdOf(row: NotebookRow): string {
    if row.event.Ran? && row.event.runId.Some? then row.event.runId.value else RunKey(row.id, row.seqNo)
  }

  function RunOf(row: NotebookRow): Run
    requires row.event.Ran?
  {
    var e := row.event;
    Run(RunIdOf(row), row.id, Or(e.status, "ok"), row.ts, Or(e.runBy, "worm"), e.kernelStateHash, e.durationMs)
  }

  // ---------------------------------------------------------------- the history

  predicate Proposes(e: Event) { e.Proposed? }
  predicate Executes(e: Event) { e.Ran? }
  predicate Publishes(e: Event) { e.Published? }
  predicate NamesOwner(e: Event) { e.Published? && e.owner.Some? }
  predicate Any(e: Event) { true }

  function StatusOf(e: Event): Status {
    match e
    case Proposed(_) => IsProposed
    case Ran(_, _, _, _, _) => IsRun
    case Published(_, _, _) => IsPublished
    case Archived => IsArchived
  }

  function PublishedRunOf(e: Event): string { if e.Published? then Or(e.publishedRunId, "") else "" }
  function VersionOf(e: Event): string { if e.Published? then Or(e.version, "1") else "1" }

  /** The last row of a kind, provided it came after the last proposal. */
  function Since(rows: seq<NotebookRow>, id: string, wanted: Event -> bool): (k: Option<nat>)
    ensures k.Some? ==> k.value < |rows| && rows[k.value].id == id && wanted(rows[k.value].event)
  {
    var p, w := LastRow(rows, id, Proposes), LastRow(rows, id, wanted);
    if p.Some? && w.Some? && p.value < w.value then w else None
  }

  /** The owner a publication named last, else the proposer; publishing an unowned notebook leaves "". */
  function OwnerOf(rows: seq<NotebookRow>, id: string, proposer: Option<string>): Option<string> {
    var named := Since(rows, id, NamesOwner);
    if named.Some? then rows[named.value].event.owner
    else if proposer.None? && Since(rows, id, Publishes).Some? then Some("")
    else proposer
  }

  /** What is known of a notebook once `rows` have been read, straight from the history. */
  function NotebookOf(rows: seq<NotebookRow>, id: string): Option<Notebook> {
    var p, l := LastRow(rows, id, Proposes), LastRow(rows, id, Any);
    if id == "" || p.None? || l.None? then None
    else
      var run, publication := Since(rows, id, Executes), Since(rows, id, Publishes);
      var proposal := rows[p.value].event.proposal;
      Some(Notebook(id, proposal, StatusOf(rows[l.value].event), OwnerOf(rows, id, proposal.owner),
                    if run.Some? then Some(RunIdOf(rows[run.value])) else None,
                    if publication.Some? then Some(PublishedRunOf(rows[publication.value].event)) else None,
                    if publication.Some? then Some(VersionOf(rows[publication.value].event)) else None,
                    rows[l.value].hash))
  }

  function Runs(rows: seq<NotebookRow>): seq<Run> {
    if rows == [] then []
    else
      var n := |rows| - 1;
      if rows[n].id != "" && rows[n].event.Ran? then Runs(rows[..n]) + [RunOf(rows[n])] else Runs(rows[..n])
  }

  // ---------------------------------------------------------------- the fold

  class NotebookState {
    const id: string
    const proposal: Proposal
    var status: Status
    var owner: Option<string>
    var latestRunId: Option<string>
    var latestPublishedRunId: Option<string>
    var version: Option<string>
    var lastHash: string

    constructor (row: NotebookRow)
      requires row.event.Proposed?
      ensures View() == Fresh(row)
    {
      id, proposal := row.id, row.event.proposal;
      status, owner, lastHash := IsProposed, row.event.proposal.owner, row.hash;
      latestRunId, latestPublishedRunId, version := None, None, None;
    }

    ghost function View(): Notebook
      reads this
    {
      Notebook(id, proposal, status, owner, latestRunId, latestPublishedRunId, version, lastHash)
    }

    /** The branches for a known notebook. */
    method Apply(row: NotebookRow)
      requires !row.event.Proposed?
      modifies this
      ensures View() == Applied(old(View()), row)
    {
      match row.event {
        case Ran(_, _, _, _, _) =>
          status := IsRun;
          latestRunId := Some(RunIdOf(row));
        case Published(publishedRunId, newVersion, newOwner) =>
          status := IsPublished;
          latestPublishedRunId := Some(Or(publishedRunId, ""));
          version := Some(Or(newVersion, "1"));
          owner := Some(Or(newOwner, Or(owner, "")));
        case Archived =>
          status := IsArchived;
      }
      lastHash := row.hash;
    }
  }

  function Fresh(row: NotebookRow): Notebook
    requires row.event.Proposed?
  {
    Notebook(row.id, row.event.proposal, IsProposed, row.event.proposal.owner, None, None, None, row.hash)
  }

  function Applied(s: Notebook, row: NotebookRow): Notebook {
    var t := s.(status := StatusOf(row.event), lastHash := row.hash);
    match row.event
    case Ran(_, _, _, _, _) => t.(latestRunId := Some(RunIdOf(row)))
    case Published(_, _, newOwner) =>
      t.(latestPublishedRunId := Some(PublishedRunOf(row.event)), version := Some(VersionOf(row.event)),
         owner := Some(Or(newOwner, Or(s.owner, ""))))
    case _ => t
  }

  /** What one more row does to the notebooks of the history. */
  function StepNotebook(s: Option<Notebook>, id: string, row: NotebookRow): Option<Notebook> {
    if row.id != id || id == "" then s
    else if row.event.Proposed? then Some(Fresh(row))
    else if s.None? then None
    else Some(Applied(s.value, row))
  }

  lemma {:induction false} ProposalsCount(rows: seq<NotebookRow>, id: string)
    ensures var p, l := LastRow(rows, id, Proposes), LastRow(rows, id, Any);
            p.Some? ==> l.Some? && p.value <= l.value
  {
    if rows != [] {
      ProposalsCount(rows[..|rows|-1], id);
    }
  }

  lemma SinceGrows(rows: seq<NotebookRow>, id: string, wanted: Event -> bool, row: NotebookRow)
    requires forall e: Event :: wanted(e) ==> !e.Proposed?
    ensures Since(rows + [row], id, wanted)
            == if row.id != id then Since(rows, id, wanted)
               else if row.event.Proposed? then None
               else if wanted(row.event) && LastRow(rows, id, Proposes).Some? then Some(|rows|)
               else Since(rows, id, wanted)
  {
    LastRowGrows(rows, id, Proposes, row);
    LastRowGrows(rows, id, wanted, row);
  }

  lemma OwnerGrows(rows: seq<NotebookRow>, id: string, row: NotebookRow, proposer: Option<string>)
    requires LastRow(rows, id, Proposes).Some?
    ensures OwnerOf(rows + [row], id, proposer)
            == if row.id != id then OwnerOf(rows, id, proposer)
               else match row.event
                    case Proposed(_) => proposer
                    case Published(_, _, owner) => Some(Or(owner, Or(OwnerOf(rows, id, proposer), "")))
                    case _ => OwnerOf(rows, id, proposer)
  {
    SinceGrows(rows, id, NamesOwner, row);
    SinceGrows(rows, id, Publishes, row);
  }

  /** The history read backwards and the rows applied one by one agree. */
  lemma NotebookGrows(rows: seq<NotebookRow>, id: string, row: NotebookRow)
    ensures NotebookOf(rows + [row], id) == StepNotebook(NotebookOf(rows, id), id, row)
  {
    var p := LastRow(rows, id, Proposes);
    LastRowGrows(rows, id, Proposes, row);
    LastRowGrows(rows, id, Any, row);
    SinceGrows(rows, id, Executes, row);
    SinceGrows(rows, id, Publishes, row);
    ProposalsCount(rows, id);
    if p.Some? {
      OwnerGrows(rows, id, row, rows[p.value].event.proposal.owner);
    }
    if row.event.Proposed? && row.id == id {
      SinceGrows(rows, id, NamesOwner, row);
    }
  }

  /** One object per notebook, each showing what the history says. */
  ghost predicate Folded(rows: seq<NotebookRow>, notebooks: map<string, NotebookState>)
    reads notebooks.Values
  {
    && (forall id :: id in notebooks ==> notebooks[id].id == id && NotebookOf(rows, id) == Some(notebooks[id].View()))
    && (forall id :: NotebookOf(rows, id).Some? ==> id in notebooks)
  }

  lemma NotebooksGrow(rows: seq<NotebookRow>, row: NotebookRow, notebooks: map<string, NotebookState>)
    requires Folded(rows, notebooks)
    ensures forall id :: NotebookOf(rows + [row], id)
                         == StepNotebook(if id in notebooks then Some(notebooks[id].View()) else None, id, row)
  {
    forall id ensures NotebookOf(rows + [row], id)
                      == StepNotebook(if id in notebooks then Some(notebooks[id].View()) else None, id, row)
    {
      NotebookGrows(rows, id, row);
    }
  }

  method UpdateKnown(row: NotebookRow, notebooks: map<string, NotebookState>, ghost rows: seq<NotebookRow>)
    requires row.id != "" && Folded(rows, notebooks) && !row.event.Proposed?
    modifies notebooks.Values
    ensures Folded(rows + [row], notebooks)
  {
    NotebooksGrow(rows, row, notebooks);
    if row.id in notebooks {
      notebooks[row.id].Apply(row);
    }
  }

  method AddProposed(row: NotebookRow, notebooks: map<string, NotebookState>, ghost rows: seq<NotebookRow>)
    returns (notebooks': map<string, NotebookState>)
    requires row.id != "" && Folded(rows, notebooks) && row.event.Proposed?
    ensures Folded(rows + [row], notebooks')
    ensures fresh(notebooks'.Values - notebooks.Values)
  {
    NotebooksGrow(rows, row, notebooks);
    var made := new NotebookState(row);
    notebooks' := notebooks[row.id := made];
  }

  lemma RunsGrow(rows: seq<NotebookRow>, row: NotebookRow)
    ensures Runs(rows + [row]) == if row.id != "" && row.event.Ran? then Runs(rows) + [RunOf(row)] else Runs(rows)
  {
    assert (rows + [row])[..|rows|] == rows;
  }

  lemma NamelessRow(rows: seq<NotebookRow>, row: NotebookRow)
    requires row.id == ""
    ensures forall id :: NotebookOf(rows + [row], id) == NotebookOf(rows, id)
  {
    forall id ensures NotebookOf(rows + [row], id) == NotebookOf(rows, id) {
      NotebookGrows(rows, id, row);
    }
  }

  /** The body of the loop. */
  method OnRow(row: NotebookRow, notebooks: map<string, NotebookState>, runs: seq<Run>, ghost rows: seq<NotebookRow>)
    returns (notebooks': map<string, NotebookState>, runs': seq<Run>)
    requires Folded(rows, notebooks) && runs == Runs(rows)
    modifies notebooks.Values
    ensures Folded(rows + [row], notebooks') && fresh(notebooks'.Values - notebooks.Values)
    ensures runs' == Runs(rows + [row])
  {
    notebooks', runs' := notebooks, runs;
    RunsGrow(rows, row);
    if row.id == "" {
      NamelessRow(rows, row);
      return;
    }
    if row.event.Ran? {
      runs' := runs + [RunOf(row)];
    }
    if row.event.Proposed? {
      notebooks' := AddProposed(row, notebooks, rows);
    } else {
      UpdateKnown(row, notebooks, rows);
    }
  }

  /** The run tells of its row; a run without an id is named after its notebook and seq. */
  ghost predicate RunTells(run: Run, row: NotebookRow) {
    && row.event.Ran? && run.id == row.id && run.ts == row.ts
    && (if row.event.runId == None then run.runId == row.id + "-" + Decimal(row.seqNo)
        else row.event.runId == Some(run.runId))
    && (if row.event.status == None then run.status == "ok" else row.event.status == Some(run.status))
    && (if row.event.runBy == None then run.runBy == "worm" else row.event.runBy == Some(run.runBy))
    && run.kernelStateHash == row.event.kernelStateHash && run.durationMs == row.event.durationMs
  }

  /** One run for each row that ran a notebook that is named, in order. */
  ghost predicate RunsTell(rows: seq<NotebookRow>, runs: seq<Run>) {
    exists places :: RunsTellOf(rows, runs, places)
  }

  ghost function RunRows(): NotebookRow -> bool {
    (r: NotebookRow) => r.id != "" && r.event.Ran?
  }

  ghost function TellRun(): (Run, NotebookRow) -> bool {
    (x: Run, r: NotebookRow) => RunTells(x, r)
  }

  ghost predicate RunsTellOf(rows: seq<NotebookRow>, runs: seq<Run>, places: seq<nat>) {
    TellsOf(rows, RunRows(), TellRun(), runs, places)
  }

  lemma RunIsTold(row: NotebookRow)
    requires row.event.Ran?
    ensures RunTells(RunOf(row), row)
  {
  }

  lemma {:induction false} RunsAreTold(rows: seq<NotebookRow>) returns (places: seq<nat>)
    ensures RunsTellOf(rows, Runs(rows), places)
  {
    places := [];
    if rows != [] {
      var n := |rows| - 1;
      var row := rows[n];
      places := RunsAreTold(rows[..n]);
      assert rows[..n] + [row] == rows;
      if row.id != "" && row.event.Ran? {
        RunIsTold(row);
        TellsMore(rows[..n], RunRows(), TellRun(), Runs(rows[..n]), places, row, RunOf(row));
        places := places + [n];
      } else {
        SelectsMore(rows[..n], RunRows(), places, row);
      }
    }
  }

  method FoldNotebookRows(rows: seq<NotebookRow>) returns (notebooks: map<string, NotebookState>, runs: seq<Run>)
    ensures Folded(rows, notebooks)
    ensures runs == Runs(rows) && RunsTell(rows, runs)
  {
    ghost var places := RunsAreTold(rows);
    notebooks, runs := map[], [];
    for i := 0 to |rows|
      invariant Folded(rows[..i], notebooks)
      invariant fresh(notebooks.Values)
      invariant runs == Runs(rows[..i])
    {
      notebooks, runs := OnRow(rows[i], notebooks, runs, rows[..i]);
      assert rows[..i+1] == rows[..i] + [rows[i]];
    }
    assert rows[..|rows|] == rows;
  }

  // ---------------------------------------------------------------- the two outputs together

  function IdOf(run: Run): string { run.id }

  /** The last element of what `getNotebookRuns` returns for `id`. */
  function LastRun(runs: seq<Run>, id: string): Option<Run> {
    LastRecord(runs, id, IdOf)
  }

  lemma {:induction false} LastRunIsLastRanRow(rows: seq<NotebookRow>, id: string)
    requires id != ""
    ensures var r := LastRow(rows, id, Executes);
            LastRun(Runs(rows), id) == if r.Some? then Some(RunOf(rows[r.value])) else None
  {
    if rows != [] {
      var n := |rows| - 1;
      LastRunIsLastRanRow(rows[..n], id);
      if rows[n].id != "" && rows[n].event.Ran? {
        assert Runs(rows)[..|Runs(rows)|-1] == Runs(rows[..n]);
      }
    }
  }

  /** A notebook's latest run is the last one recorded for it; it has none exactly when none is recorded
      or the notebook was proposed again after the last one. */
  lemma LatestRunIsLastRecorded(rows: seq<NotebookRow>, id: string)
    requires NotebookOf(rows, id).Some?
    ensures var s, run := NotebookOf(rows, id).value, LastRun(Runs(rows), id);
            var p, r := LastRow(rows, id, Proposes), LastRow(rows, id, Executes);
            && (s.latestRunId.Some? ==> run.Some? && s.latestRunId == Some(run.value.runId))
            && (s.latestRunId.None? <==> run.None? || (r.Some? && r.value < p.value))
  {
    LastRunIsLastRanRow(rows, id);
  }

  /** Some run recorded for `id` carries the run id. */
  ghost predicate Recorded(rows: seq<NotebookRow>, id: string, runId: string) {
    exists k :: 0 <= k < |Runs(rows)| && Runs(rows)[k].id == id && Runs(rows)[k].runId == runId
  }

  /** Row `i` ran the notebook `id` under the run id. */
  ghost predicate RanAs(rows: seq<NotebookRow>, i: int, id: string, runId: string) {
    0 <= i < |rows| && rows[i].id == id && rows[i].event.Ran? && RunIdOf(rows[i]) == runId
  }

  /** A run id is recorded for a notebook exactly when some row ran the notebook under it. */
  lemma {:induction false} RecordedIffRan(rows: seq<NotebookRow>, id: string, runId: string)
    requires id != ""
    ensures Recorded(rows, id, runId) <==> exists i :: RanAs(rows, i, id, runId)
  {
    if rows != [] {
      var n := |rows| - 1;
      var before := Runs(rows[..n]);
      RecordedIffRan(rows[..n], id, runId);
      assert forall i :: RanAs(rows[..n], i, id, runId) <==> i < n && RanAs(rows, i, id, runId);
      if rows[n].id != "" && rows[n].event.Ran? {
        assert Runs(rows) == before + [RunOf(rows[n])];
        RecordedSnoc(rows, id, runId);
      } else {
        assert Runs(rows) == before;
      }
    }
  }

  lemma RecordedSnoc(rows: seq<NotebookRow>, id: string, runId: string)
    requires rows != [] && rows[|rows|-1].id != "" && rows[|rows|-1].event.Ran?
    ensures var n := |rows| - 1;
            Recorded(rows, id, runId) <==> Recorded(rows[..n], id, runId) || RanAs(rows, n, id, runId)
  {
    var n := |rows| - 1;
    var before, all := Runs(rows[..n]), Runs(rows);
    assert all == before + [RunOf(rows[n])];
    if k :| 0 <= k < |before| && before[k].id == id && before[k].runId == runId {
      assert all[k] == before[k];
    }
    if RanAs(rows, n, id, runId) {
      assert all[|before|] == RunOf(rows[n]);
    }
    if k :| 0 <= k < |all| && all[k].id == id && all[k].runId == runId {
      assert k < |before| ==> before[k] == all[k];
    }
  }

  /** What a notebook shows as published is named by its last publication since its last proposal; it is
      a run recorded for it exactly when some row ran the notebook under the run id named there. */
  lemma PublishedIsRecordedIff(rows: seq<NotebookRow>, id: string)
    requires NotebookOf(rows, id).Some?
    ensures var shown, q := NotebookOf(rows, id).value.latestPublishedRunId, Since(rows, id, Publishes);
            && (shown.Some? <==> q.Some?)
            && (q.Some? ==>
                  var named := PublishedRunOf(rows[q.value].event);
                  && shown == Some(named)
                  && (Recorded(rows, id, named) <==> exists i :: RanAs(rows, i, id, named)))
  {
    var q := Since(rows, id, Publishes);
    if q.Some? {
      RecordedIffRan(rows, id, PublishedRunOf(rows[q.value].event));
    }
  }

  /** Every notebook that shows a published run shows one that is recorded for it. */
  ghost predicate AllRecorded(rows: seq<NotebookRow>) {
    forall id :: PublishedIsRecorded(rows, id)
  }

  ghost predicate PublishedIsRecorded(rows: seq<NotebookRow>, id: string) {
    NotebookOf(rows, id).Some? && NotebookOf(rows, id).value.latestPublishedRunId.Some? ==>
      Recorded(rows, id, NotebookOf(rows, id).value.latestPublishedRunId.value)
  }

  /** Row `i` publishes a notebook already proposed. */
  predicate PublishesKnown(rows: seq<NotebookRow>, i: nat)
    requires i < |rows|
  {
    rows[i].id != "" && rows[i].event.Published? && LastRow(rows[..i], rows[i].id, Proposes).Some?
  }

  /** The publication in row `i` names a run of its notebook recorded earlier. */
  ghost predicate NamesEarlierRun(rows: seq<NotebookRow>, i: nat)
    requires i < |rows|
  {
    Recorded(rows[..i], rows[i].id, PublishedRunOf(rows[i].event))
  }

  /** Every publication of a known notebook names a run of it recorded earlier. */
  ghost predicate Disciplined(rows: seq<NotebookRow>) {
    forall i :: 0 <= i < |rows| && PublishesKnown(rows, i) ==> NamesEarlierRun(rows, i)
  }

  lemma RecordedLater(rows: seq<NotebookRow>, n: nat, id: string, runId: string)
    requires n <= |rows| && id != "" && Recorded(rows[..n], id, runId)
    ensures Recorded(rows, id, runId)
  {
    RecordedIffRan(rows[..n], id, runId);
    RecordedIffRan(rows, id, runId);
    var i :| RanAs(rows[..n], i, id, runId);
    assert RanAs(rows, i, id, runId);
  }

  lemma {:induction false} LastRowOfPrefix(rows: seq<NotebookRow>, n: nat, id: string, wanted: Event -> bool, p: nat)
    requires n <= |rows| && p < n && LastRow(rows, id, wanted) == Some(p)
    ensures LastRow(rows[..n], id, wanted) == Some(p)
    decreases |rows|
  {
    if n == |rows| {
      assert rows[..n] == rows;
    } else {
      assert rows[..|rows|-1][..n] == rows[..n];
      LastRowOfPrefix(rows[..|rows|-1], n, id, wanted, p);
    }
  }

  /** If publications are disciplined, what a notebook shows as published is recorded. */
  lemma DisciplineSuffices(rows: seq<NotebookRow>, id: string)
    requires Disciplined(rows)
    ensures PublishedIsRecorded(rows, id)
  {
    var q := Since(rows, id, Publishes);
    if NotebookOf(rows, id).Some? && q.Some? {
      var p := LastRow(rows, id, Proposes).value;
      LastRowOfPrefix(rows, q.value, id, Proposes, p);
      assert PublishesKnown(rows, q.value) && NamesEarlierRun(rows, q.value);
      RecordedLater(rows, q.value, id, PublishedRunOf(rows[q.value].event));
    }
  }

  /** A publication shown as recorded right after it was made named an earlier run. */
  lemma DisciplineIsNeeded(rows: seq<NotebookRow>, i: nat)
    requires i < |rows| && PublishesKnown(rows, i) && PublishedIsRecorded(rows[..i+1], rows[i].id)
    ensures NamesEarlierRun(rows, i)
  {
    var id, runId := rows[i].id, PublishedRunOf(rows[i].event);
    assert rows[..i+1] == rows[..i] + [rows[i]];
    NotebookGrows(rows[..i], id, rows[i]);
    ProposalsCount(rows[..i], id);
    RecordedIffRan(rows[..i+1], id, runId);
    RecordedIffRan(rows[..i], id, runId);
    var j :| RanAs(rows[..i+1], j, id, runId);
    assert RanAs(rows[..i], j, id, runId);
  }

  /** After every part of a history what is shown as published is recorded, exactly when every
      publication of a known notebook names a run of it recorded earlier. */
  lemma AlwaysRecordedIffDisciplined(rows: seq<NotebookRow>)
    ensures (forall n :: 0 <= n <= |rows| ==> AllRecorded(rows[..n])) <==> Disciplined(rows)
  {
    if Disciplined(rows) {
      forall n, id | 0 <= n <= |rows| ensures PublishedIsRecorded(rows[..n], id) {
        DisciplinedPrefix(rows, n);
        DisciplineSuffices(rows[..n], id);
      }
    }
    if forall n :: 0 <= n <= |rows| ==> AllRecorded(rows[..n]) {
      forall i | 0 <= i < |rows| && PublishesKnown(rows, i) ensures NamesEarlierRun(rows, i) {
        assert AllRecorded(rows[..i+1]);
        DisciplineIsNeeded(rows, i);
      }
    }
  }

  lemma DisciplinedPrefix(rows: seq<NotebookRow>, n: nat)
    requires Disciplined(rows) && n <= |rows|
    ensures Disciplined(rows[..n])
  {
    forall i | 0 <= i < n && PublishesKnown(rows[..n], i) ensures NamesEarlierRun(rows[..n], i) {
      assert rows[..n][..i] == rows[..i];
      assert PublishesKnown(rows, i);
    }
  }

  /** A publication may name a run that was never recorded. */
  lemma PublishedRunMayBeUnrecorded()
    ensures var proposed := Row(1, 1, "h1", "nb", Proposed(Proposal("n", "python_local", None, None, [])));
            var rows := [proposed, Row(2, 2, "h2", "nb", Published(Some("r9"), None, None))];
            NotebookOf(rows, "nb").Some? && NotebookOf(rows, "nb").value.latestPublishedRunId == Some("r9")
                && Runs(rows) == []
  {
    var proposed := Row(1, 1, "h1", "nb", Proposed(Proposal("n", "python_local", None, None, [])));
    var published := Row(2, 2, "h2", "nb", Published(Some("r9"), None, None));
    NotebookGrows([], "nb", proposed);
    NotebookGrows([proposed], "nb", published);
    assert [] + [proposed] == [proposed] && [proposed] + [published] == [proposed, published];
    assert [proposed, published][..1] == [proposed] && [proposed][..0] == [];
    assert Runs([proposed]) == [];
    assert Runs([proposed, published]) == [];
  }
}
