/** `foldDataProductRows` (apps/dashboard/lib/ledger-client.ts): products and the list of their runs,
    folded side by side from the same rows, with one mutable state per product. */
module DataProducts {
  import opened Sequences
  import opened LifecycleRows

  datatype Proposal = Proposal(name: string, kind: string, requestedBy: string, domainId: Option<string>,
                               parameters: map<string, string>)

  datatype Event =
    | Proposed(proposal: Proposal)
    | Generated(generatedBy: Option<string>, sourceHashes: seq<string>, contentHash: Option<string>,
                contentsUri: Option<string>, durationMs: Option<int>)
    | Consumed(personId: string, surface: string, channel: Option<string>)
    | Archived

  type ProductRow = Row<Event>

  datatype Status = IsProposed | IsGenerated | IsArchived

  datatype Product = Product(id: string, proposal: Proposal, proposedAt: int, status: Status, generatedAt: Option<int>,
                             contentHash: Option<string>, contentsUri: Option<string>, lastHash: string)

  datatype Run = Run(runId: string, id: string, generatedBy: string, ts: int, sourceHashes: seq<string>,
                     contentHash: string, durationMs: int)

  datatype Consumption = Consumption(consumptionId: string, id: string, personId: string, surface: string,
                                     channel: Option<string>, ts: int)

  function RunOf(row: ProductRow): Run
    requires row.event.Generated?
  {
    var e := row.event;
    Run(RunKey(row.id, row.seqNo), row.id, Or(e.generatedBy, "worm"), row.ts, e.sourceHashes, Or(e.contentHash, ""),
        Or(e.durationMs, 0))
  }

  function ConsumptionOf(row: ProductRow): Consumption
    requires row.event.Consumed?
  {
    var e := row.event;
    Consumption(RunKey(row.id, row.seqNo), row.id, e.personId, e.surface, e.channel, row.ts)
  }

  // ---------------------------------------------------------------- the history

  predicate Proposes(e: Event) { e.Proposed? }
  predicate Generates(e: Event) { e.Generated? }
  predicate ChangesState(e: Event) { !e.Consumed? }

  function StatusOf(e: Event): Status
    requires ChangesState(e)
  {
    match e
    case Proposed(_) => IsProposed
    case Generated(_, _, _, _, _) => IsGenerated
    case Archived => IsArchived
  }

  /** What is known of a product once `rows` have been read, straight from the history: the proposal is
      the last one, the status and receipt come from the last row that changes it, and the contents come
      from the last generation, provided it came after that proposal. */
  function ProductOf(rows: seq<ProductRow>, id: string): Option<Product> {
    var p := LastRow(rows, id, Proposes);
    var l := LastRow(rows, id, ChangesState);
    if id == "" || p.None? || l.None? then None
    else
      var g := GeneratedSince(rows, id);
      var made := rows[p.value];
      var last := rows[l.value];
      Some(Product(id, made.event.proposal, made.ts, StatusOf(last.event), Contents(rows, g, (r: ProductRow) => r.ts),
                   Contents(rows, g, HashOf), Contents(rows, g, UriOf), last.hash))
  }

  function HashOf(row: ProductRow): string { if row.event.Generated? then Or(row.event.contentHash, "") else "" }
  function UriOf(row: ProductRow): string { if row.event.Generated? then Or(row.event.contentsUri, "") else "" }

  function Contents<T>(rows: seq<ProductRow>, g: Option<nat>, f: ProductRow -> T): Option<T>
    requires g.Some? ==> g.value < |rows|
  {
    if g.Some? then Some(f(rows[g.value])) else None
  }

  function GeneratedSince(rows: seq<ProductRow>, id: string): (g: Option<nat>)
    ensures g.Some? ==> g.value < |rows| && rows[g.value].id == id && rows[g.value].event.Generated?
  {
    var p, g := LastRow(rows, id, Proposes), LastRow(rows, id, Generates);
    if p.Some? && g.Some? && p.value < g.value then g else None
  }

  function Runs(rows: seq<ProductRow>): seq<Run> {
    if rows == [] then []
    else
      var n := |rows| - 1;
      if rows[n].id != "" && rows[n].event.Generated? then Runs(rows[..n]) + [RunOf(rows[n])] else Runs(rows[..n])
  }

  function Consumptions(rows: seq<ProductRow>): seq<Consumption> {
    if rows == [] then []
    else
      var n := |rows| - 1;
      if rows[n].id != "" && rows[n].event.Consumed? then Consumptions(rows[..n]) + [ConsumptionOf(rows[n])]
      else Consumptions(rows[..n])
  }

  // ---------------------------------------------------------------- the fold

  class ProductState {
    const id: string
    const proposal: Proposal
    const proposedAt: int
    var status: Status
    var generatedAt: Option<int>
    var contentHash: Option<string>
    var contentsUri: Option<string>
    var lastHash: string

    constructor (row: ProductRow)
      requires row.event.Proposed?
      ensures View() == Product(row.id, row.event.proposal, row.ts, IsProposed, None, None, None, row.hash)
    {
      id, proposal, proposedAt := row.id, row.event.proposal, row.ts;
      status, generatedAt, contentHash, contentsUri, lastHash := IsProposed, None, None, None, row.hash;
    }

    ghost function View(): Product
      reads this
    {
      Product(id, proposal, proposedAt, status, generatedAt, contentHash, contentsUri, lastHash)
    }

    /** The branches for a known product. */
    method Apply(row: ProductRow)
      requires !row.event.Proposed? && row.id == id && id != ""
      modifies this
      ensures Some(View()) == StepProduct(Some(old(View())), id, row)
    {
      match row.event {
        case Generated(_, _, contentHash', contentsUri', _) =>
          status := IsGenerated;
          generatedAt := Some(row.ts);
          contentHash := Some(Or(contentHash', ""));
          contentsUri := Some(Or(contentsUri', ""));
          lastHash := row.hash;
        case Archived =>
          status := IsArchived;
          lastHash := row.hash;
        case Consumed(_, _, _) =>
      }
    }
  }

  /** One object per product, each showing what the history says. */
  ghost predicate Folded(rows: seq<ProductRow>, products: map<string, ProductState>)
    reads products.Values
  {
    && (forall id :: id in products ==> products[id].id == id && ProductOf(rows, id) == Some(products[id].View()))
    && (forall id :: ProductOf(rows, id).Some? ==> id in products)
  }

  /** What one more row does to the products of the history. */
  function StepProduct(p: Option<Product>, id: string, row: ProductRow): Option<Product> {
    if row.id != id || id == "" then p
    else
      match row.event
      case Proposed(proposal) => Some(Product(id, proposal, row.ts, IsProposed, None, None, None, row.hash))
      case Generated(_, _, _, _, _) =>
        if p.None? then None
        else Some(p.value.(status := IsGenerated, generatedAt := Some(row.ts), contentHash := Some(HashOf(row)),
                           contentsUri := Some(UriOf(row)), lastHash := row.hash))
      case Archived => if p.None? then None else Some(p.value.(status := IsArchived, lastHash := row.hash))
      case Consumed(_, _, _) => p
  }

  lemma {:induction false} ProposalsChangeState(rows: seq<ProductRow>, id: string)
    ensures var p, l := LastRow(rows, id, Proposes), LastRow(rows, id, ChangesState);
            p.Some? ==> l.Some? && p.value <= l.value
  {
    if rows != [] {
      ProposalsChangeState(rows[..|rows|-1], id);
    }
  }

  /** The history read backwards and the rows applied one by one agree. */
  lemma ProductGrows(rows: seq<ProductRow>, id: string, row: ProductRow)
    ensures ProductOf(rows + [row], id) == StepProduct(ProductOf(rows, id), id, row)
  {
    LastRowGrows(rows, id, Proposes, row);
    LastRowGrows(rows, id, ChangesState, row);
    LastRowGrows(rows, id, Generates, row);
    ProposalsChangeState(rows, id);
  }

  lemma ProductsGrow(rows: seq<ProductRow>, row: ProductRow, products: map<string, ProductState>)
    requires Folded(rows, products)
    ensures forall id :: ProductOf(rows + [row], id)
                         == StepProduct(if id in products then Some(products[id].View()) else None, id, row)
  {
    forall id ensures ProductOf(rows + [row], id)
                      == StepProduct(if id in products then Some(products[id].View()) else None, id, row)
    {
      ProductGrows(rows, id, row);
    }
  }

  method UpdateKnown(row: ProductRow, products: map<string, ProductState>, ghost rows: seq<ProductRow>)
    requires row.id != "" && Folded(rows, products) && !row.event.Proposed?
    modifies products.Values
    ensures Folded(rows + [row], products)
  {
    ProductsGrow(rows, row, products);
    if row.id in products {
      products[row.id].Apply(row);
    }
  }

  method AddProposed(row: ProductRow, products: map<string, ProductState>, ghost rows: seq<ProductRow>)
    returns (products': map<string, ProductState>)
    requires row.id != "" && Folded(rows, products) && row.event.Proposed?
    ensures Folded(rows + [row], products')
    ensures fresh(products'.Values - products.Values)
  {
    ProductsGrow(rows, row, products);
    var made := new ProductState(row);
    products' := products[row.id := made];
  }

  lemma RecordsGrow(rows: seq<ProductRow>, row: ProductRow)
    ensures Runs(rows + [row])
            == if row.id != "" && row.event.Generated? then Runs(rows) + [RunOf(row)] else Runs(rows)
    ensures Consumptions(rows + [row])
            == if row.id != "" && row.event.Consumed? then Consumptions(rows) + [ConsumptionOf(row)]
                else Consumptions(rows)
  {
    assert (rows + [row])[..|rows|] == rows;
  }

  /** The branches that record a run or a consumption. */
  method Record(row: ProductRow, runs: seq<Run>, consumption: seq<Consumption>, ghost rows: seq<ProductRow>)
    returns (runs': seq<Run>, consumption': seq<Consumption>)
    requires row.id != "" && runs == Runs(rows) && consumption == Consumptions(rows)
    ensures runs' == Runs(rows + [row]) && consumption' == Consumptions(rows + [row])
  {
    RecordsGrow(rows, row);
    runs', consumption' := runs, consumption;
    if row.event.Generated? {
      runs' := runs + [RunOf(row)];
    } else if row.event.Consumed? {
      consumption' := consumption + [ConsumptionOf(row)];
    }
  }

  /** The body of the loop. */
  method OnRow(row: ProductRow, products: map<string, ProductState>, runs: seq<Run>, consumption: seq<Consumption>,
               ghost rows: seq<ProductRow>)
    returns (products': map<string, ProductState>, runs': seq<Run>, consumption': seq<Consumption>)
    requires Folded(rows, products) && runs == Runs(rows) && consumption == Consumptions(rows)
    modifies products.Values
    ensures Folded(rows + [row], products') && fresh(products'.Values - products.Values)
    ensures runs' == Runs(rows + [row]) && consumption' == Consumptions(rows + [row])
  {
    products', runs', consumption' := products, runs, consumption;
    if row.id == "" {
      NamelessRow(rows, row);
      return;
    }
    runs', consumption' := Record(row, runs, consumption, rows);
    if row.event.Proposed? {
      products' := AddProposed(row, products, rows);
    } else {
      UpdateKnown(row, products, rows);
    }
  }

  /** The run tells of the generation in its row. */
  ghost predicate RunTells(run: Run, row: ProductRow) {
    && row.event.Generated? && run.runId == row.id + "-" + Decimal(row.seqNo) && run.id == row.id && run.ts == row.ts
    && (if row.event.generatedBy == None then run.generatedBy == "worm"
        else row.event.generatedBy == Some(run.generatedBy))
    && run.sourceHashes == row.event.sourceHashes
    && (if row.event.contentHash == None then run.contentHash == "" else row.event.contentHash == Some(run.contentHash))
    && (if row.event.durationMs == None then run.durationMs == 0 else row.event.durationMs == Some(run.durationMs))
  }

  ghost predicate ConsumptionTells(c: Consumption, row: ProductRow) {
    && row.event == Consumed(c.personId, c.surface, c.channel)
    && c.consumptionId == row.id + "-" + Decimal(row.seqNo) && c.id == row.id && c.ts == row.ts
  }

  /** One run for each generation of a product that is named, in order. */
  ghost predicate RunsTell(rows: seq<ProductRow>, runs: seq<Run>) {
    exists places :: RunsTellOf(rows, runs, places)
  }

  ghost function Generations(): ProductRow -> bool {
    (r: ProductRow) => r.id != "" && r.event.Generated?
  }

  ghost function TellRun(): (Run, ProductRow) -> bool {
    (x: Run, r: ProductRow) => RunTells(x, r)
  }

  ghost predicate RunsTellOf(rows: seq<ProductRow>, runs: seq<Run>, places: seq<nat>) {
    TellsOf(rows, Generations(), TellRun(), runs, places)
  }

  ghost predicate ConsumptionsTell(rows: seq<ProductRow>, cs: seq<Consumption>) {
    exists places :: ConsumptionsTellOf(rows, cs, places)
  }

  ghost function Uses(): ProductRow -> bool {
    (r: ProductRow) => r.id != "" && r.event.Consumed?
  }

  ghost function TellUse(): (Consumption, ProductRow) -> bool {
    (x: Consumption, r: ProductRow) => ConsumptionTells(x, r)
  }

  ghost predicate ConsumptionsTellOf(rows: seq<ProductRow>, cs: seq<Consumption>, places: seq<nat>) {
    TellsOf(rows, Uses(), TellUse(), cs, places)
  }

  lemma RunIsTold(row: ProductRow)
    requires row.event.Generated?
    ensures RunTells(RunOf(row), row)
  {
  }

  lemma {:induction false} RunsAreTold(rows: seq<ProductRow>) returns (places: seq<nat>)
    ensures RunsTellOf(rows, Runs(rows), places)
  {
    places := [];
    if rows != [] {
      var n := |rows| - 1;
      var row := rows[n];
      places := RunsAreTold(rows[..n]);
      assert rows[..n] + [row] == rows;
      if row.id != "" && row.event.Generated? {
        RunIsTold(row);
        TellsMore(rows[..n], Generations(), TellRun(), Runs(rows[..n]), places, row, RunOf(row));
        places := places + [n];
      } else {
        SelectsMore(rows[..n], Generations(), places, row);
      }
    }
  }

  lemma ConsumptionIsTold(row: ProductRow)
    requires row.event.Consumed?
    ensures ConsumptionTells(ConsumptionOf(row), row)
  {
  }

  lemma {:induction false} ConsumptionsAreTold(rows: seq<ProductRow>) returns (places: seq<nat>)
    ensures ConsumptionsTellOf(rows, Consumptions(rows), places)
  {
    places := [];
    if rows != [] {
      var n := |rows| - 1;
      var row := rows[n];
      places := ConsumptionsAreTold(rows[..n]);
      assert rows[..n] + [row] == rows;
      if row.id != "" && row.event.Consumed? {
        ConsumptionIsTold(row);
        TellsMore(rows[..n], Uses(), TellUse(), Consumptions(rows[..n]), places, row, ConsumptionOf(row));
        places := places + [n];
      } else {
        SelectsMore(rows[..n], Uses(), places, row);
      }
    }
  }

  method FoldDataProductRows(rows: seq<ProductRow>)
    returns (products: map<string, ProductState>, runs: seq<Run>, consumption: seq<Consumption>)
    ensures Folded(rows, products)
    ensures runs == Runs(rows) && RunsTell(rows, runs)
    ensures consumption == Consumptions(rows) && ConsumptionsTell(rows, consumption)
  {
    ghost var generated := RunsAreTold(rows);
    ghost var consumed := ConsumptionsAreTold(rows);
    products, runs, consumption := map[], [], [];
    for i := 0 to |rows|
      invariant Folded(rows[..i], products)
      invariant fresh(products.Values)
      invariant runs == Runs(rows[..i]) && consumption == Consumptions(rows[..i])
    {
      products, runs, consumption := OnRow(rows[i], products, runs, consumption, rows[..i]);
      assert rows[..i+1] == rows[..i] + [rows[i]];
    }
    assert rows[..|rows|] == rows;
  }

  lemma NamelessRow(rows: seq<ProductRow>, row: ProductRow)
    requires row.id == ""
    ensures forall id :: ProductOf(rows + [row], id) == ProductOf(rows, id)
    ensures Runs(rows + [row]) == Runs(rows) && Consumptions(rows + [row]) == Consumptions(rows)
  {
    RecordsGrow(rows, row);
    forall id ensures ProductOf(rows + [row], id) == ProductOf(rows, id) {
      ProductGrows(rows, id, row);
    }
  }

  // ---------------------------------------------------------------- the two outputs together

  function IdOf(run: Run): string { run.id }

  /** The last element of what `getDataProductRuns` returns for `id`. */
  function LastRun(runs: seq<Run>, id: string): Option<Run> {
    LastRecord(runs, id, IdOf)
  }

  /** Runs are recorded for every id, known or not, and the last one is the last generation. */
  lemma {:induction false} LastRunIsLastGeneration(rows: seq<ProductRow>, id: string)
    requires id != ""
    ensures var g := LastRow(rows, id, Generates);
            LastRun(Runs(rows), id) == if g.Some? then Some(RunOf(rows[g.value])) else None
  {
    if rows != [] {
      var n := |rows| - 1;
      LastRunIsLastGeneration(rows[..n], id);
      if rows[n].id != "" && rows[n].event.Generated? {
        assert Runs(rows)[..|Runs(rows)|-1] == Runs(rows[..n]);
      }
    }
  }

  /** A product's contents are always those of the last run recorded for it; they are missing exactly
      when there is no run, or the product was proposed again after its last one. */
  lemma ContentsAreTheLastRuns(rows: seq<ProductRow>, id: string)
    requires ProductOf(rows, id).Some?
    ensures var s, run := ProductOf(rows, id).value, LastRun(Runs(rows), id);
            var p, g := LastRow(rows, id, Proposes), LastRow(rows, id, Generates);
            && (s.contentHash.Some? ==>
                  run.Some? && s.contentHash == Some(run.value.contentHash) && s.generatedAt == Some(run.value.ts))
            && (s.contentHash.None? <==> run.None? || (g.Some? && g.value < p.value))
            && (s.generatedAt.Some? <==> s.contentHash.Some?)
            && (s.contentsUri.Some? <==> s.contentHash.Some?)
            && (s.status == IsGenerated ==> s.contentHash.Some? && s.generatedAt.Some?)
  {
    LastRunIsLastGeneration(rows, id);
    StatusNeedsContents(rows, id);
  }

  lemma {:induction false} StatusNeedsContents(rows: seq<ProductRow>, id: string)
    ensures ProductOf(rows, id).Some? && ProductOf(rows, id).value.status == IsGenerated ==>
              GeneratedSince(rows, id).Some?
  {
    if rows != [] {
      var n := |rows| - 1;
      assert rows[..n] + [rows[n]] == rows;
      StatusNeedsContents(rows[..n], id);
      ProductGrows(rows[..n], id, rows[n]);
      LastRowGrows(rows[..n], id, Proposes, rows[n]);
      LastRowGrows(rows[..n], id, Generates, rows[n]);
    }
  }

  /** Rows with distinct seqs never produce two runs with one id. */
  lemma {:induction false} RunIdsDistinct(rows: seq<ProductRow>)
    requires forall i, j :: 0 <= i < j < |rows| ==> rows[i].seqNo != rows[j].seqNo
    ensures forall i, j :: 0 <= i < j < |Runs(rows)| ==> Runs(rows)[i].runId != Runs(rows)[j].runId
  {
    if rows != [] {
      var n := |rows| - 1;
      RunIdsDistinct(rows[..n]);
      if rows[n].id != "" && rows[n].event.Generated? {
        forall i | 0 <= i < |Runs(rows[..n])| ensures Runs(rows[..n])[i].runId != RunOf(rows[n]).runId {
          var k := RunHasRow(rows[..n], i);
          assert rows[k] == rows[..n][k];
          if RunKey(rows[k].id, rows[k].seqNo) == RunKey(rows[n].id, rows[n].seqNo) {
            RunKeyInjective(rows[k].id, rows[k].seqNo, rows[n].id, rows[n].seqNo);
          }
        }
      }
    }
  }

  lemma {:induction false} RunHasRow(rows: seq<ProductRow>, i: nat) returns (k: nat)
    requires i < |Runs(rows)|
    ensures k < |rows| && rows[k].event.Generated? && Runs(rows)[i] == RunOf(rows[k])
  {
    var n := |rows| - 1;
    if i < |Runs(rows[..n])| {
      k := RunHasRow(rows[..n], i);
    } else {
      k := n;
    }
  }
}
