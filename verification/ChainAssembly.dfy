/** `assembleChain` (apps/dashboard/lib/agent-query-chain.ts): normalises the gathered rows, finds
    the root's phases, derives the root's status, adds up measurements, and sorts by time.
    Costs add up exactly; the total is then printed with four decimals, as `toFixed(4)` does. */
module ChainAssembly {
  import opened Sequences
  import opened Sorting
  import opened AuditRows
  import opened AuditClosure

  datatype Entry = Entry(row: Row, kind: string, auditTrailId: Option<string>, causedBy: Option<string>,
                         phase: Option<Phase>)

  datatype Status = Denied | Reached(phase: Phase)

  datatype Chain = Chain(root: string, agentId: string, mcpTool: string, federate: bool, status: Status,
                         totalLatencyMs: Option<real>, totalCostUsd: Option<string>, entries: seq<Entry>)

  function Normalize(r: Row): Entry {
    Entry(r, EffectiveKind(r.envelopeKind, r.payload), PickAuditTrailId(r.payload), PickCausedBy(r.payload),
          PickPhase(r.payload))
  }

  function NormalizeAll(rows: seq<Row>): (es: seq<Entry>)
    ensures |es| == |rows| && forall i :: 0 <= i < |es| ==> es[i] == Normalize(rows[i])
  {
    seq(|rows|, i requires 0 <= i < |rows| => Normalize(rows[i]))
  }

  function EntryKey(e: Entry): Key {
    KeyOf(e.row)
  }

  predicate IsRootPhase(e: Entry, root: string) {
    e.auditTrailId == Some(root) && e.kind == "agent_query"
  }

  predicate Denies(e: Entry) {
    e.row.payload.passed == Some(false) || e.row.payload.status == Some("denied")
  }

  predicate Resolved(e: Entry) {
    e.kind == "agent_query" && e.phase == Some(Resolve)
  }

  function Identity(e: Entry): (string, string, bool) {
    (if e.row.payload.agentId.Some? then e.row.payload.agentId.value else "",
     if e.row.payload.mcpTool.Some? then e.row.payload.mcpTool.value else "",
     e.row.payload.routeMode == Some("federate"))
  }

  /** The agent-query rows of the root's own cycle. */
  function RootPhases(es: seq<Entry>, root: string): seq<Entry> {
    if es == [] then []
    else RootPhases(es[..|es|-1], root) + if IsRootPhase(es[|es|-1], root) then [es[|es|-1]] else []
  }

  lemma {:induction false} RootPhasesSpec(es: seq<Entry>, root: string)
    ensures forall e :: e in RootPhases(es, root) <==> e in es && IsRootPhase(e, root)
  {
    if es != [] {
      var n := |es| - 1;
      RootPhasesSpec(es[..n], root);
      assert es == es[..n] + [es[n]];
    }
  }

  // ---------------------------------------------------------------- what the parts mean

  predicate HasLatency(e: Entry) {
    Resolved(e) && e.row.payload.latencyMs.Some?
  }

  predicate HasCost(e: Entry) {
    Resolved(e) && e.row.payload.costUsd.Some?
  }

  function LatencySum(es: seq<Entry>): real {
    if es == [] then 0.0
    else LatencySum(es[..|es|-1]) + if HasLatency(es[|es|-1]) then es[|es|-1].row.payload.latencyMs.value else 0.0
  }

  function CostSum(es: seq<Entry>): real {
    if es == [] then 0.0
    else CostSum(es[..|es|-1]) + if HasCost(es[|es|-1]) then es[|es|-1].row.payload.costUsd.value else 0.0
  }

  function LatencyCount(es: seq<Entry>): nat {
    if es == [] then 0 else LatencyCount(es[..|es|-1]) + if HasLatency(es[|es|-1]) then 1 else 0
  }

  function CostCount(es: seq<Entry>): nat {
    if es == [] then 0 else CostCount(es[..|es|-1]) + if HasCost(es[|es|-1]) then 1 else 0
  }

  /** The sums over the resolve rows, or null when none of them was measured. */
  ghost predicate AreSums(es: seq<Entry>, latency: Option<real>, cost: Option<real>) {
    && latency == (if LatencyCount(es) > 0 then Some(LatencySum(es)) else None)
    && cost == (if CostCount(es) > 0 then Some(CostSum(es)) else None)
  }

  /** The same, the cost printed. */
  ghost predicate AreTotals(es: seq<Entry>, latency: Option<real>, cost: Option<string>) {
    && latency == (if LatencyCount(es) > 0 then Some(LatencySum(es)) else None)
    && cost == (if CostCount(es) > 0 then Some(ToFixed(CostSum(es))) else None)
  }

  // ---------------------------------------------------------------- four decimals

  /** The nearest number of ten-thousandths, the greater of two that are equally near. */
  function TenThousandths(x: real): nat
    requires x >= 0.0
  {
    (x * 10000.0 + 0.5).Floor
  }

  function FourDigits(m: nat): (s: string)
    requires m < 10000
    ensures |s| == 4
  {
    [Digit(m / 1000), Digit(m / 100 % 10), Digit(m / 10 % 10), Digit(m % 10)]
  }

  function FourPlaces(n: nat): string {
    Decimal(n / 10000) + "." + FourDigits(n % 10000)
  }

  /** `x.toFixed(4)`. */
  function ToFixed(x: real): string {
    if x < 0.0 then "-" + FourPlaces(TenThousandths(-x)) else FourPlaces(TenThousandths(x))
  }

  /** Rounding is to the nearest, ties away from zero. */
  lemma FixedIsNearest(x: real)
    requires x >= 0.0
    ensures -0.5 < TenThousandths(x) as real - x * 10000.0 <= 0.5
  {
  }

  lemma SplitAtPoint(a: string, p: string, b: string, q: string)
    requires |p| == |q| && a + "." + p == b + "." + q
    ensures a == b && p == q
  {
    var s := a + "." + p;
    assert s[..|a|] == a && s[..|b|] == b && s[|a|+1..] == p && s[|b|+1..] == q;
  }

  lemma HighDigits(a: nat)
    requires a < 10000
    ensures a == 10 * (a / 10) + a % 10 && a / 10 == 10 * (a / 100) + a / 10 % 10
              && a / 100 == 10 * (a / 1000) + a / 100 % 10
  {
  }

  lemma FourDigitsInjective(a: nat, b: nat)
    requires a < 10000 && b < 10000 && FourDigits(a) == FourDigits(b)
    ensures a == b
  {
    HighDigits(a);
    HighDigits(b);
    var s, t := FourDigits(a), FourDigits(b);
    assert s[0] == t[0] && s[1] == t[1] && s[2] == t[2] && s[3] == t[3];
    DigitsAscend(a / 1000, b / 1000);
    DigitsAscend(a / 100 % 10, b / 100 % 10);
    DigitsAscend(a / 10 % 10, b / 10 % 10);
    DigitsAscend(a % 10, b % 10);
  }

  /** The text determines the rounded number. */
  lemma FourPlacesInjective(m: nat, n: nat)
    requires FourPlaces(m) == FourPlaces(n)
    ensures m == n
  {
    SplitAtPoint(Decimal(m / 10000), FourDigits(m % 10000), Decimal(n / 10000), FourDigits(n % 10000));
    DecimalInjective(m / 10000, n / 10000);
    FourDigitsInjective(m % 10000, n % 10000);
  }

  /** Two costs that are not negative print alike exactly when they round alike. */
  lemma PrintAlikeIff(x: real, y: real)
    requires x >= 0.0 && y >= 0.0
    ensures ToFixed(x) == ToFixed(y) <==> TenThousandths(x) == TenThousandths(y)
  {
    if ToFixed(x) == ToFixed(y) {
      FourPlacesInjective(TenThousandths(x), TenThousandths(y));
    }
  }

  function Rank(p: Phase): nat {
    match p case Propose => 0 case Execute => 1 case Verify => 2 case Resolve => 3
  }

  /** Denied if any root row denies; otherwise the furthest phase a root row is in. */
  ghost predicate IsStatus(rootPhases: seq<Entry>, s: Status) {
    if exists e :: e in rootPhases && Denies(e) then s == Denied
    else
      && s.Reached?
      && (forall e :: e in rootPhases && e.phase.Some? ==> Rank(e.phase.value) <= Rank(s.phase))
      && (s.phase == Propose || exists e :: e in rootPhases && e.phase == Some(s.phase))
  }

  predicate Qualifies(e: Entry, root: string, proposing: bool) {
    IsRootPhase(e, root) && (proposing ==> e.phase == Some(Propose))
  }

  /** The first root row, or the first that is a proposal. */
  function First(es: seq<Entry>, root: string, proposing: bool): (r: Option<Entry>)
    ensures r.Some? ==> Qualifies(r.value, root, proposing)
  {
    if es == [] then None
    else
      var earlier := First(es[..|es|-1], root, proposing);
      if earlier.Some? then earlier
      else if Qualifies(es[|es|-1], root, proposing) then Some(es[|es|-1])
      else None
  }

  /** `First` finds the first of them, if there is any. */
  lemma {:induction false} FirstIsFirst(es: seq<Entry>, root: string, proposing: bool)
    ensures var r := First(es, root, proposing);
            if r.None? then forall i :: 0 <= i < |es| ==> !Qualifies(es[i], root, proposing)
            else exists i :: 0 <= i < |es| && es[i] == r.value && forall j :: 0 <= j < i ==>
                !Qualifies(es[j], root, proposing)
  {
    if es != [] {
      FirstIsFirst(es[..|es|-1], root, proposing);
    }
  }

  /** The root row that names agent, tool and route: the first proposal, or else the first. */
  function Spokesman(es: seq<Entry>, root: string): Option<Entry> {
    var proposal := First(es, root, true);
    if proposal.Some? then proposal else First(es, root, false)
  }

  /** What `assembleChain` promises of its result. */
  ghost predicate IsChain(rows: seq<Row>, root: string, c: Option<Chain>) {
    var es := NormalizeAll(rows);
    if RootPhases(es, root) == [] then c.None?
    else
      && c.Some? && c.value.root == root
      && c.value.entries == Sort(es, EntryKey)
      && IsStatus(RootPhases(es, root), c.value.status)
      && AreTotals(es, c.value.totalLatencyMs, c.value.totalCostUsd)
      && Spokesman(es, root).Some?
      && (c.value.agentId, c.value.mcpTool, c.value.federate) == Identity(Spokesman(es, root).value)
  }

  // ---------------------------------------------------------------- the code

  method RootStatus(rootPhases: seq<Entry>) returns (s: Status)
    ensures IsStatus(rootPhases, s)
  {
    var observed: set<Phase> := {};
    var denied := false;
    for i := 0 to |rootPhases|
      invariant forall p :: p in observed <==> exists e :: e in rootPhases[..i] && e.phase == Some(p)
      invariant denied <==> exists e :: e in rootPhases[..i] && Denies(e)
    {
      var e := rootPhases[i];
      assert rootPhases[..i+1] == rootPhases[..i] + [e];
      if e.phase.Some? { observed := observed + {e.phase.value}; }
      if Denies(e) { denied := true; }
    }
    assert rootPhases[..|rootPhases|] == rootPhases;
    if denied { return Denied; }
    if Resolve in observed { return Reached(Resolve); }
    if Verify in observed { return Reached(Verify); }
    if Execute in observed { return Reached(Execute); }
    return Reached(Propose);
  }

  method Totals(es: seq<Entry>) returns (latency: Option<real>, costText: Option<string>)
    ensures AreTotals(es, latency, costText)
  {
    var cost: Option<real> := None;
    latency := None;
    for i := 0 to |es|
      invariant AreSums(es[..i], latency, cost)
    {
      NoneSums(es[..i]);
      assert es[..i+1][..i] == es[..i];
      var e := es[i];
      if e.kind != "agent_query" { continue; }
      if e.phase != Some(Resolve) { continue; }
      if e.row.payload.latencyMs.Some? {
        latency := Some((if latency.Some? then latency.value else 0.0) + e.row.payload.latencyMs.value);
      }
      if e.row.payload.costUsd.Some? {
        cost := Some((if cost.Some? then cost.value else 0.0) + e.row.payload.costUsd.value);
      }
    }
    assert es[..|es|] == es;
    costText := if cost.Some? then Some(ToFixed(cost.value)) else None;
  }

  /** Without a measurement the sums are zero. */
  lemma {:induction false} NoneSums(es: seq<Entry>)
    ensures LatencyCount(es) == 0 ==> LatencySum(es) == 0.0
    ensures CostCount(es) == 0 ==> CostSum(es) == 0.0
  {
    if es != [] {
      NoneSums(es[..|es|-1]);
    }
  }

  lemma {:induction false} FirstOfRootPhases(es: seq<Entry>, root: string, proposing: bool)
    ensures First(RootPhases(es, root), root, proposing) == First(es, root, proposing)
  {
    if es != [] {
      var n := |es| - 1;
      FirstOfRootPhases(es[..n], root, proposing);
      var earlier := RootPhases(es[..n], root);
      if IsRootPhase(es[n], root) {
        assert (earlier + [es[n]])[..|earlier|] == earlier;
      } else {
        assert earlier + [] == earlier;
      }
    }
  }

  lemma {:induction false} FirstRootIsFirst(roots: seq<Entry>, root: string, es: seq<Entry>)
    requires roots == RootPhases(es, root) && roots != []
    ensures First(roots, root, false) == Some(roots[0])
  {
    RootPhasesSpec(es, root);
    FirstIsFirst(roots, root, false);
    assert roots[0] in roots;
  }

  method AssembleChain(rows: seq<Row>, root: string) returns (c: Option<Chain>)
    ensures IsChain(rows, root, c) && ChainTells(rows, root, c)
  {
    AnyChainIsTold(rows, root);
    if |rows| == 0 { return None; }
    var entries := NormalizeAll(rows);
    var rootPhases := RootPhases(entries, root);
    if |rootPhases| == 0 {
      return None;
    }
    FirstOfRootPhases(entries, root, true);
    FirstOfRootPhases(entries, root, false);
    var proposal := First(rootPhases, root, true);
    FirstRootIsFirst(rootPhases, root, entries);
    var speaker := if proposal.Some? then proposal.value else rootPhases[0];
    var (agentId, mcpTool, federate) := Identity(speaker);
    var status := RootStatus(rootPhases);
    var totalLatencyMs, totalCostUsd := Totals(entries);
    c := Some(Chain(root, agentId, mcpTool, federate, status, totalLatencyMs, totalCostUsd, Sort(entries, EntryKey)));
  }

  // ---------------------------------------------------------------- the chain against the row fields

  /** `r` is the first of three fields that is present and not empty. */
  ghost predicate FirstGiven(a: Option<string>, b: Option<string>, c: Option<string>, r: Option<string>) {
    if a !in {None, Some("")} then r == a
    else if b !in {None, Some("")} then r == b
    else if c !in {None, Some("")} then r == c
    else r == None
  }

  ghost predicate QueryRow(p: Payload) {
    p.auditTrailId != None && p.phase != None && p.mcpTool != None && p.routeMode != None
  }

  ghost predicate KindTells(kind: string, r: Row) {
    var p := r.payload;
    if QueryRow(p) then kind == "agent_query"
    else if p.credentialKind in {Some("data"), Some("model")} && p.ttlExpiresAt != None && p.issuedBy != None then
      kind == "credential"
    else if p.kind != None then p.kind == Some(kind)
    else kind == r.envelopeKind
  }

  ghost predicate PhaseTells(phase: Option<Phase>, text: Option<string>) {
    && (phase == Some(Propose) <==> text == Some("propose"))
    && (phase == Some(Execute) <==> text == Some("execute"))
    && (phase == Some(Verify) <==> text == Some("verify"))
    && (phase == Some(Resolve) <==> text == Some("resolve"))
  }

  ghost predicate EntryTells(e: Entry, r: Row) {
    && e.row == r && KindTells(e.kind, r) && PhaseTells(e.phase, r.payload.phase)
    && FirstGiven(r.payload.auditTrailId, r.payload.agentQueryId, r.payload.originalQueryId, e.auditTrailId)
    && FirstGiven(r.payload.causedBy, r.payload.originalQueryId, r.payload.agentQueryId, e.causedBy)
  }

  /** An agent-query row of the root. */
  ghost predicate RootRow(r: Row, root: string) {
    && KindTells("agent_query", r)
    && FirstGiven(r.payload.auditTrailId, r.payload.agentQueryId, r.payload.originalQueryId, Some(root))
  }

  ghost predicate RootRowIn(rows: seq<Row>, root: string, phase: string) {
    exists i :: 0 <= i < |rows| && RootRow(rows[i], root) && rows[i].payload.phase == Some(phase)
  }

  ghost predicate DeniedIn(rows: seq<Row>, root: string) {
    exists i :: 0 <= i < |rows| && RootRow(rows[i], root)
                  && (rows[i].payload.passed == Some(false) || rows[i].payload.status == Some("denied"))
  }

  ghost predicate StatusTells(rows: seq<Row>, root: string, s: Status) {
    if DeniedIn(rows, root) then s == Denied
    else if RootRowIn(rows, root, "resolve") then s == Reached(Resolve)
    else if RootRowIn(rows, root, "verify") then s == Reached(Verify)
    else if RootRowIn(rows, root, "execute") then s == Reached(Execute)
    else s == Reached(Propose)
  }

  /** Row `i` speaks for the root: its first proposal, or its first row if none is a proposal. */
  ghost predicate Speaks(rows: seq<Row>, root: string, i: nat) {
    && i < |rows| && RootRow(rows[i], root)
    && (RootRowIn(rows, root, "propose") ==> rows[i].payload.phase == Some("propose"))
    && forall j :: 0 <= j < i && RootRow(rows[j], root) ==>
         RootRowIn(rows, root, "propose") && rows[j].payload.phase != Some("propose")
  }

  ghost predicate SpokenBy(c: Chain, p: Payload) {
    && (if p.agentId == None then c.agentId == "" else p.agentId == Some(c.agentId))
    && (if p.mcpTool == None then c.mcpTool == "" else p.mcpTool == Some(c.mcpTool))
    && (c.federate <==> p.routeMode == Some("federate"))
  }

  /** The sum of what is there, or null if nothing is. */
  ghost function Added(xs: seq<Option<real>>): Option<real> {
    if xs == [] then None
    else
      var before, x := Added(xs[..|xs|-1]), xs[|xs|-1];
      if x == None then before else if before == None then x else Some(before.value + x.value)
  }

  ghost predicate Measured(r: Row) {
    KindTells("agent_query", r) && r.payload.phase == Some("resolve")
  }

  ghost function Latencies(rows: seq<Row>): seq<Option<real>> {
    seq(|rows|, i requires 0 <= i < |rows| =>
      if Measured(rows[i]) then rows[i].payload.latencyMs else None)
  }

  ghost function Costs(rows: seq<Row>): seq<Option<real>> {
    seq(|rows|, i requires 0 <= i < |rows| =>
      if Measured(rows[i]) then rows[i].payload.costUsd else None)
  }

  /** The text has four decimals and reads as the nearest number of ten-thousandths, the one further from
      zero of two that are equally near. */
  ghost predicate ReadsAs(text: string, x: real) {
    if x < 0.0 then "-" <= text && ReadsAsPositive(text[1..], -x) else ReadsAsPositive(text, x)
  }

  ghost predicate ReadsAsPositive(text: string, x: real) {
    var point := |text| - 5;
    && point > 0 && text[point] == '.' && Canonical(text[..point]) && AllDigits(text[point + 1..])
    && -0.5 < ReadNat(text[..point] + text[point + 1..]) as real - x * 10000.0 <= 0.5
  }

  ghost predicate TotalsTell(rows: seq<Row>, c: Chain) {
    && c.totalLatencyMs == Added(Latencies(rows))
    && (c.totalCostUsd == None <==> Added(Costs(rows)) == None)
    && (c.totalCostUsd.Some? && Added(Costs(rows)).Some? ==> ReadsAs(c.totalCostUsd.value, Added(Costs(rows)).value))
  }

  ghost predicate Chronological(es: seq<Entry>) {
    forall x, y :: 0 <= x < y < |es| ==>
      && es[x].row.ts <= es[y].row.ts
      && (es[x].row.ts == es[y].row.ts ==> es[x].row.seqNo <= es[y].row.seqNo)
  }

  function RowsOf(es: seq<Entry>): (rows: seq<Row>)
    ensures |rows| == |es|
  {
    seq(|es|, i requires 0 <= i < |es| => es[i].row)
  }

  ghost predicate EntriesTell(rows: seq<Row>, es: seq<Entry>) {
    && multiset(RowsOf(es)) == multiset(rows) && Chronological(es)
    && forall i :: 0 <= i < |es| ==> EntryTells(es[i], es[i].row)
  }

  /** The result against the fields of the rows: it exists exactly when some row is an agent-query row of
      the root, and then tells status, agent, tool, route, totals and entries. */
  ghost predicate ChainTells(rows: seq<Row>, root: string, c: Option<Chain>) {
    && (c == None <==> forall i :: 0 <= i < |rows| ==> !RootRow(rows[i], root))
    && (c.Some? ==>
          && c.value.root == root && StatusTells(rows, root, c.value.status)
          && (exists i: nat :: Speaks(rows, root, i) && SpokenBy(c.value, rows[i].payload))
          && TotalsTell(rows, c.value) && EntriesTell(rows, c.value.entries))
  }

  lemma NormalizeTells(r: Row)
    ensures EntryTells(Normalize(r), r)
  {
  }

  lemma RootRowIff(r: Row, root: string)
    ensures IsRootPhase(Normalize(r), root) <==> RootRow(r, root)
  {
  }

  /** The root rows among the entries are the normalised root rows. */
  lemma RootPhasesAre(rows: seq<Row>, root: string)
    ensures forall e :: e in RootPhases(NormalizeAll(rows), root) <==>
              exists i :: 0 <= i < |rows| && RootRow(rows[i], root) && e == Normalize(rows[i])
  {
    var es := NormalizeAll(rows);
    RootPhasesSpec(es, root);
    forall i | 0 <= i < |rows| ensures IsRootPhase(es[i], root) <==> RootRow(rows[i], root) {
      RootRowIff(rows[i], root);
    }
  }

  ghost predicate InPhase(roots: seq<Entry>, phase: Phase) {
    exists e :: e in roots && e.phase == Some(phase)
  }

  lemma StatusByPhase(roots: seq<Entry>, s: Status)
    requires IsStatus(roots, s)
    ensures (exists e :: e in roots && Denies(e)) ==> s == Denied
    ensures (forall e :: e in roots ==> !Denies(e)) ==>
              s == Reached(if InPhase(roots, Resolve) then Resolve
                           else if InPhase(roots, Verify) then Verify
                           else if InPhase(roots, Execute) then Execute
                           else Propose)
  {
  }

  lemma StatusIsTold(rows: seq<Row>, root: string, s: Status)
    requires IsStatus(RootPhases(NormalizeAll(rows), root), s)
    ensures StatusTells(rows, root, s)
  {
    StatusByPhase(RootPhases(NormalizeAll(rows), root), s);
    DeniedIsTold(rows, root);
    PhaseIsTold(rows, root, "execute", Execute);
    PhaseIsTold(rows, root, "verify", Verify);
    PhaseIsTold(rows, root, "resolve", Resolve);
  }

  lemma DeniedIsTold(rows: seq<Row>, root: string)
    ensures DeniedIn(rows, root) <==> exists e :: e in RootPhases(NormalizeAll(rows), root) && Denies(e)
  {
    RootPhasesAre(rows, root);
    if DeniedIn(rows, root) {
      var i :| 0 <= i < |rows| && RootRow(rows[i], root)
                 && (rows[i].payload.passed == Some(false) || rows[i].payload.status == Some("denied"));
      assert Normalize(rows[i]) in RootPhases(NormalizeAll(rows), root) && Denies(Normalize(rows[i]));
    }
  }

  lemma PhaseIsTold(rows: seq<Row>, root: string, text: string, phase: Phase)
    requires forall p :: PickPhase(p) == Some(phase) <==> p.phase == Some(text)
    ensures RootRowIn(rows, root, text) <==> InPhase(RootPhases(NormalizeAll(rows), root), phase)
  {
    RootPhasesAre(rows, root);
    if RootRowIn(rows, root, text) {
      var i :| 0 <= i < |rows| && RootRow(rows[i], root) && rows[i].payload.phase == Some(text);
      assert Normalize(rows[i]) in RootPhases(NormalizeAll(rows), root);
    }
  }

  lemma QualifiesIff(r: Row, root: string, proposing: bool)
    ensures Qualifies(Normalize(r), root, proposing)
       <==> RootRow(r, root) && (proposing ==> r.payload.phase == Some("propose"))
  {
    RootRowIff(r, root);
  }

  /** The first entry that qualifies comes from the first row that does. */
  lemma FirstIsTold(rows: seq<Row>, root: string, proposing: bool) returns (i: nat)
    requires First(NormalizeAll(rows), root, proposing).Some?
    ensures i < |rows| && First(NormalizeAll(rows), root, proposing) == Some(Normalize(rows[i]))
    ensures RootRow(rows[i], root) && (proposing ==> rows[i].payload.phase == Some("propose"))
    ensures forall j :: 0 <= j < i && RootRow(rows[j], root) ==> proposing && rows[j].payload.phase != Some("propose")
  {
    var es := NormalizeAll(rows);
    FirstIsFirst(es, root, proposing);
    i :| i < |es| && es[i] == First(es, root, proposing).value && forall j :: 0 <= j < i ==>
        !Qualifies(es[j], root, proposing);
    forall j | 0 <= j <= i
      ensures Qualifies(es[j], root, proposing)
         <==> RootRow(rows[j], root) && (proposing ==> rows[j].payload.phase == Some("propose"))
    {
      QualifiesIff(rows[j], root, proposing);
    }
  }

  lemma ProposalIsTold(rows: seq<Row>, root: string)
    ensures RootRowIn(rows, root, "propose") <==> First(NormalizeAll(rows), root, true).Some?
  {
    if First(NormalizeAll(rows), root, true).Some? {
      var i := FirstIsTold(rows, root, true);
    }
    if RootRowIn(rows, root, "propose") {
      var i :| 0 <= i < |rows| && RootRow(rows[i], root) && rows[i].payload.phase == Some("propose");
      QualifiesIff(rows[i], root, true);
      FirstIsFirst(NormalizeAll(rows), root, true);
      assert Qualifies(NormalizeAll(rows)[i], root, true);
    }
  }

  lemma SpeakerIsTold(rows: seq<Row>, root: string) returns (i: nat)
    requires RootPhases(NormalizeAll(rows), root) != []
    ensures Speaks(rows, root, i) && Spokesman(NormalizeAll(rows), root) == Some(Normalize(rows[i]))
  {
    SpokesmanIsRoot(NormalizeAll(rows), root);
    ProposalIsTold(rows, root);
    i := FirstIsTold(rows, root, First(NormalizeAll(rows), root, true).Some?);
  }

  lemma EntriesAreTold(rows: seq<Row>)
    ensures EntriesTell(rows, Sort(NormalizeAll(rows), EntryKey))
  {
    var es := NormalizeAll(rows);
    var sorted := Sort(es, EntryKey);
    SortSorts(es, EntryKey);
    SortPermutes(es, EntryKey);
    SortRows(es);
    assert RowsOf(es) == rows;
    forall x, y | 0 <= x < y < |sorted|
      ensures sorted[x].row.ts <= sorted[y].row.ts
      ensures sorted[x].row.ts == sorted[y].row.ts ==> sorted[x].row.seqNo <= sorted[y].row.seqNo
    {
      assert Le(EntryKey(sorted[x]), EntryKey(sorted[y]));
    }
    forall i | 0 <= i < |sorted| ensures EntryTells(sorted[i], sorted[i].row) {
      assert sorted[i] in multiset(sorted) && sorted[i] in es;
      var j :| 0 <= j < |es| && es[j] == sorted[i];
      NormalizeTells(rows[j]);
    }
  }

  lemma {:induction false} InsertRows(s: seq<Entry>, e: Entry)
    ensures multiset(RowsOf(Insert(s, e, EntryKey))) == multiset(RowsOf(s)) + multiset{e.row}
  {
    assert RowsOf(s + [e]) == RowsOf(s) + [e.row];
    if s != [] && !Le(EntryKey(s[|s|-1]), EntryKey(e)) {
      var n := |s| - 1;
      InsertRows(s[..n], e);
      assert RowsOf(Insert(s, e, EntryKey)) == RowsOf(Insert(s[..n], e, EntryKey)) + [s[n].row];
      assert RowsOf(s) == RowsOf(s[..n]) + [s[n].row];
    }
  }

  lemma {:induction false} SortRows(es: seq<Entry>)
    ensures multiset(RowsOf(Sort(es, EntryKey))) == multiset(RowsOf(es))
  {
    if es != [] {
      var n := |es| - 1;
      SortRows(es[..n]);
      InsertRows(Sort(es[..n], EntryKey), es[n]);
      assert RowsOf(es) == RowsOf(es[..n]) + [es[n].row];
    }
  }

  lemma MeasuredIff(r: Row)
    ensures Resolved(Normalize(r)) <==> Measured(r)
  {
  }

  lemma {:induction false} TotalsAreAdded(rows: seq<Row>)
    ensures AreSums(NormalizeAll(rows), Added(Latencies(rows)), Added(Costs(rows)))
  {
    if rows != [] {
      var n := |rows| - 1;
      TotalsAreAdded(rows[..n]);
      NoneSums(NormalizeAll(rows[..n]));
      MeasuredIff(rows[n]);
      assert NormalizeAll(rows)[..n] == NormalizeAll(rows[..n]);
      assert Latencies(rows)[..n] == Latencies(rows[..n]) && Costs(rows)[..n] == Costs(rows[..n]);
    }
  }

  lemma FourRead(s: string, a: nat, b: nat, c: nat, d: nat)
    requires a < 10 && b < 10 && c < 10 && d < 10
    ensures ReadNat(s + [Digit(a), Digit(b), Digit(c), Digit(d)])
         == 10000 * ReadNat(s) + 1000 * a + 100 * b + 10 * c + d
  {
    var x, y := s + [Digit(a)], s + [Digit(a)] + [Digit(b)];
    ReadSnoc(s, a);
    ReadSnoc(x, b);
    ReadSnoc(y, c);
    ReadSnoc(y + [Digit(c)], d);
    assert s + [Digit(a), Digit(b), Digit(c), Digit(d)] == y + [Digit(c)] + [Digit(d)];
  }

  lemma FourDigitsRead(s: string, m: nat)
    requires m < 10000
    ensures AllDigits(FourDigits(m)) && ReadNat(s + FourDigits(m)) == 10000 * ReadNat(s) + m
  {
    HighDigits(m);
    DigitsRead(m / 1000);
    DigitsRead(m / 100 % 10);
    DigitsRead(m / 10 % 10);
    DigitsRead(m % 10);
    FourRead(s, m / 1000, m / 100 % 10, m / 10 % 10, m % 10);
  }

  lemma FixedReads(x: real)
    ensures ReadsAs(ToFixed(x), x)
  {
    var y := if x < 0.0 then -x else x;
    var n := TenThousandths(y);
    var whole, f := Decimal(n / 10000), FourDigits(n % 10000);
    FixedIsNearest(y);
    DecimalReads(n / 10000);
    FourDigitsRead(whole, n % 10000);
    var text := FourPlaces(n);
    assert text[..|text| - 5] == whole && text[|text| - 4..] == f;
    assert ReadNat(whole + f) == 10000 * (n / 10000) + n % 10000 == n;
    assert ReadsAsPositive(text, y);
    assert x < 0.0 ==> ("-" + text)[1..] == text;
  }

  lemma TotalsAreTold(rows: seq<Row>, c: Chain)
    requires AreTotals(NormalizeAll(rows), c.totalLatencyMs, c.totalCostUsd)
    ensures TotalsTell(rows, c)
  {
    TotalsAreAdded(rows);
    FixedReads(CostSum(NormalizeAll(rows)));
  }

  /** What the code computes is told by the fields of the rows. */
  lemma ChainIsTold(rows: seq<Row>, root: string, c: Option<Chain>)
    requires IsChain(rows, root, c)
    ensures ChainTells(rows, root, c)
  {
    var es := NormalizeAll(rows);
    RootRowsExist(rows, root);
    if RootPhases(es, root) != [] {
      StatusIsTold(rows, root, c.value.status);
      TotalsAreTold(rows, c.value);
      EntriesAreTold(rows);
      var i := SpeakerIsTold(rows, root);
      assert Speaks(rows, root, i) && SpokenBy(c.value, rows[i].payload);
    }
  }

  lemma AnyChainIsTold(rows: seq<Row>, root: string)
    ensures forall c :: IsChain(rows, root, c) ==> ChainTells(rows, root, c)
  {
    forall c | IsChain(rows, root, c) ensures ChainTells(rows, root, c) {
      ChainIsTold(rows, root, c);
    }
  }

  lemma RootRowsExist(rows: seq<Row>, root: string)
    ensures RootPhases(NormalizeAll(rows), root) == [] <==> forall i :: 0 <= i < |rows| ==> !RootRow(rows[i], root)
  {
    var roots := RootPhases(NormalizeAll(rows), root);
    RootPhasesAre(rows, root);
    if roots != [] {
      assert roots[0] in roots;
    }
    forall i | 0 <= i < |rows| && RootRow(rows[i], root) ensures roots != [] {
      assert Normalize(rows[i]) in roots;
    }
  }

  // ---------------------------------------------------------------- the chain does not depend on order

  lemma {:induction false} SumsOfInsert(s: seq<Entry>, e: Entry)
    ensures LatencySum(Insert(s, e, EntryKey)) == LatencySum(s + [e])
    ensures CostSum(Insert(s, e, EntryKey)) == CostSum(s + [e])
    ensures LatencyCount(Insert(s, e, EntryKey)) == LatencyCount(s + [e])
    ensures CostCount(Insert(s, e, EntryKey)) == CostCount(s + [e])
  {
    if s != [] && !Le(EntryKey(s[|s|-1]), EntryKey(e)) {
      var n := |s| - 1;
      SumsOfInsert(s[..n], e);
    }
  }

  /** Sorting changes no sum. */
  lemma {:induction false} SumsOfSort(es: seq<Entry>)
    ensures LatencySum(Sort(es, EntryKey)) == LatencySum(es)
    ensures CostSum(Sort(es, EntryKey)) == CostSum(es)
    ensures LatencyCount(Sort(es, EntryKey)) == LatencyCount(es)
    ensures CostCount(Sort(es, EntryKey)) == CostCount(es)
  {
    if es != [] {
      var n := |es| - 1;
      SumsOfSort(es[..n]);
      SumsOfInsert(Sort(es[..n], EntryKey), es[n]);
    }
  }

  lemma SameTotals(es: seq<Entry>, es': seq<Entry>, l: Option<real>, c: Option<string>, l': Option<real>,
                   c': Option<string>)
    requires Sort(es, EntryKey) == Sort(es', EntryKey)
    requires AreTotals(es, l, c) && AreTotals(es', l', c')
    ensures l == l' && c == c'
  {
    SumsOfSort(es);
    SumsOfSort(es');
  }

  ghost predicate HasProposal(es: seq<Entry>, root: string) {
    exists e :: e in es && Qualifies(e, root, true)
  }

  /** A row that may name agent, tool and route: a root proposal if there is one, else any root row. */
  ghost predicate Candidate(es: seq<Entry>, root: string, e: Entry) {
    e in es && Qualifies(e, root, HasProposal(es, root))
  }

  ghost predicate RootsAgree(es: seq<Entry>, root: string) {
    forall a, b :: Candidate(es, root, a) && Candidate(es, root, b) ==> Identity(a) == Identity(b)
  }

  lemma {:induction false} NormalizePermutes(rows: seq<Row>, e: Entry)
    ensures multiset(NormalizeAll(rows))[e] == if Normalize(e.row) == e then multiset(rows)[e.row] else 0
  {
    if rows != [] {
      var n := |rows| - 1;
      NormalizePermutes(rows[..n], e);
      assert NormalizeAll(rows) == NormalizeAll(rows[..n]) + [Normalize(rows[n])];
      assert rows == rows[..n] + [rows[n]];
    }
  }

  lemma SameRowsSameEntries(rows: seq<Row>, rows': seq<Row>)
    requires multiset(rows) == multiset(rows')
    ensures multiset(NormalizeAll(rows)) == multiset(NormalizeAll(rows'))
  {
    forall e ensures multiset(NormalizeAll(rows))[e] == multiset(NormalizeAll(rows'))[e] {
      NormalizePermutes(rows, e);
      NormalizePermutes(rows', e);
    }
  }

  /** When no two rows share time and seq, and the rows that may name agent, tool and route agree on
      them, the result is the same whatever order the rows come in. */
  lemma OrderDoesNotMatter(rows: seq<Row>, rows': seq<Row>, root: string, c: Option<Chain>, c': Option<Chain>)
    requires IsChain(rows, root, c) && IsChain(rows', root, c')
    requires multiset(rows) == multiset(rows') && DistinctKeys(rows, KeyOf)
    requires RootsAgree(NormalizeAll(rows), root)
    ensures c == c'
  {
    var es, es' := NormalizeAll(rows), NormalizeAll(rows');
    SameRowsSameEntries(rows, rows');
    SameRoots(es, es', root);
    if RootPhases(es, root) != [] {
      var a, b := c.value, c'.value;
      assert a.entries == b.entries by { SortForgetsOrder(es, es', EntryKey); }
      SameTotals(es, es', a.totalLatencyMs, a.totalCostUsd, b.totalLatencyMs, b.totalCostUsd);
      SameStatus(RootPhases(es, root), RootPhases(es', root), a.status, b.status);
      SameElements(es, es');
      SameIdentity(es, es', root);
    }
  }

  lemma SameRoots(es: seq<Entry>, es': seq<Entry>, root: string)
    requires multiset(es) == multiset(es')
    ensures forall e :: e in RootPhases(es, root) <==> e in RootPhases(es', root)
    ensures RootPhases(es, root) == [] <==> RootPhases(es', root) == []
  {
    RootPhasesSpec(es, root);
    RootPhasesSpec(es', root);
    forall e ensures e in es <==> e in es' {
      assert e in es <==> e in multiset(es);
    }
    if RootPhases(es, root) != [] { assert RootPhases(es, root)[0] in RootPhases(es', root); }
    if RootPhases(es', root) != [] { assert RootPhases(es', root)[0] in RootPhases(es, root); }
  }

  lemma SpokesmanIsRoot(es: seq<Entry>, root: string)
    requires RootPhases(es, root) != []
    ensures Spokesman(es, root).Some? && Spokesman(es, root).value in RootPhases(es, root)
  {
    var proposing := First(es, root, true).Some?;
    FirstOfRootPhases(es, root, proposing);
    FirstIsFirst(RootPhases(es, root), root, proposing);
    FirstRootIsFirst(RootPhases(es, root), root, es);
    FirstOfRootPhases(es, root, false);
  }

  lemma SameElements<T>(es: seq<T>, es': seq<T>)
    requires multiset(es) == multiset(es')
    ensures forall e :: e in es <==> e in es'
  {
    forall e ensures e in es <==> e in es' {
      assert e in es <==> e in multiset(es);
    }
  }

  lemma SpokesmanIsCandidate(es: seq<Entry>, root: string)
    requires RootPhases(es, root) != []
    ensures Spokesman(es, root).Some? && Candidate(es, root, Spokesman(es, root).value)
  {
    SpokesmanIsRoot(es, root);
    FirstIsFirst(es, root, true);
    FirstIsFirst(es, root, false);
    assert HasProposal(es, root) <==> First(es, root, true).Some?;
  }

  lemma SameIdentity(es: seq<Entry>, es': seq<Entry>, root: string)
    requires RootPhases(es, root) != [] && RootPhases(es', root) != []
    requires forall e :: e in es <==> e in es'
    requires RootsAgree(es, root)
    ensures Spokesman(es, root).Some? && Spokesman(es', root).Some?
    ensures Identity(Spokesman(es, root).value) == Identity(Spokesman(es', root).value)
  {
    SpokesmanIsCandidate(es, root);
    SpokesmanIsCandidate(es', root);
    assert HasProposal(es, root) <==> HasProposal(es', root);
  }

  lemma SameStatus(roots: seq<Entry>, roots': seq<Entry>, s: Status, s': Status)
    requires forall e :: e in roots <==> e in roots'
    requires IsStatus(roots, s) && IsStatus(roots', s')
    ensures s == s'
  {
  }

  // ---------------------------------------------------------------- when order does matter

  /** A candidate that comes first is the one that speaks. */
  lemma LeaderSpeaks(es: seq<Entry>, root: string)
    requires es != [] && Candidate(es, root, es[0])
    ensures Spokesman(es, root) == Some(es[0])
  {
    FirstIsFirst(es, root, true);
    FirstIsFirst(es, root, false);
    if HasProposal(es, root) {
      var e :| e in es && Qualifies(e, root, true);
    }
  }

  /** The rows with `r` brought to the front. */
  lemma BringToFront(rows: seq<Row>, root: string, r: Row) returns (one: seq<Row>)
    requires r in rows && Candidate(NormalizeAll(rows), root, Normalize(r))
    ensures multiset(one) == multiset(rows)
    ensures RootPhases(NormalizeAll(one), root) != []
    ensures Spokesman(NormalizeAll(one), root) == Some(Normalize(r))
  {
    var i :| 0 <= i < |rows| && rows[i] == r;
    one := [r] + (rows[..i] + rows[i+1..]);
    assert rows == rows[..i] + [r] + rows[i+1..];
    var es, es' := NormalizeAll(rows), NormalizeAll(one);
    SameRowsSameEntries(rows, one);
    SameElements(es, es');
    assert HasProposal(es, root) <==> HasProposal(es', root);
    assert es'[0] == Normalize(r);
    LeaderSpeaks(es', root);
    RootPhasesSpec(es', root);
    assert es'[0] in RootPhases(es', root);
  }

  lemma StatusExists(roots: seq<Entry>) returns (s: Status)
    ensures IsStatus(roots, s)
  {
    if exists e :: e in roots && Denies(e) {
      s := Denied;
    } else if exists e :: e in roots && e.phase == Some(Resolve) {
      s := Reached(Resolve);
    } else if exists e :: e in roots && e.phase == Some(Verify) {
      s := Reached(Verify);
    } else if exists e :: e in roots && e.phase == Some(Execute) {
      s := Reached(Execute);
    } else {
      s := Reached(Propose);
    }
  }

  /** Rows with a root phase have a result, which names what the spokesman says. */
  lemma ChainExists(rows: seq<Row>, root: string) returns (c: Option<Chain>)
    requires RootPhases(NormalizeAll(rows), root) != []
    ensures IsChain(rows, root, c) && c.Some?
    ensures Spokesman(NormalizeAll(rows), root).Some?
    ensures (c.value.agentId, c.value.mcpTool, c.value.federate) == Identity(Spokesman(NormalizeAll(rows), root).value)
  {
    var es := NormalizeAll(rows);
    SpokesmanIsRoot(es, root);
    var (agentId, mcpTool, federate) := Identity(Spokesman(es, root).value);
    var s := StatusExists(RootPhases(es, root));
    c := Some(Chain(root, agentId, mcpTool, federate, s,
                    if LatencyCount(es) > 0 then Some(LatencySum(es)) else None,
                    if CostCount(es) > 0 then Some(ToFixed(CostSum(es))) else None, Sort(es, EntryKey)));
  }

  /** Whatever order the rows come in, there is one result. */
  ghost predicate OrderIsIdle(rows: seq<Row>, root: string) {
    forall one, other, c, d ::
      IsChain(one, root, c) && IsChain(other, root, d) && multiset(one) == multiset(rows)
          && multiset(other) == multiset(rows)
      ==> c == d
  }

  /** Two candidates that disagree can each be brought to the front, with different results. */
  lemma DisagreementMatters(rows: seq<Row>, root: string, r: Row, s: Row)
    requires r in rows && Candidate(NormalizeAll(rows), root, Normalize(r))
    requires s in rows && Candidate(NormalizeAll(rows), root, Normalize(s))
    requires Identity(Normalize(r)) != Identity(Normalize(s))
    ensures !OrderIsIdle(rows, root)
  {
    var one := BringToFront(rows, root, r);
    var other := BringToFront(rows, root, s);
    var c := ChainExists(one, root);
    var d := ChainExists(other, root);
    assert c != d;
  }

  /** With distinct times and seqs, order does not matter exactly when the candidates agree. */
  lemma OrderIsIdleIff(rows: seq<Row>, root: string)
    requires DistinctKeys(rows, KeyOf)
    ensures OrderIsIdle(rows, root) <==> RootsAgree(NormalizeAll(rows), root)
  {
    var es := NormalizeAll(rows);
    if RootsAgree(es, root) {
      forall one, other, c, d |
        IsChain(one, root, c) && IsChain(other, root, d) && multiset(one) == multiset(rows)
            && multiset(other) == multiset(rows)
        ensures c == d
      {
        OneIsAsGood(rows, one, root);
        OrderDoesNotMatter(one, other, root, c, d);
      }
    } else {
      var a, b :| Candidate(es, root, a) && Candidate(es, root, b) && Identity(a) != Identity(b);
      var i :| 0 <= i < |es| && es[i] == a;
      var j :| 0 <= j < |es| && es[j] == b;
      DisagreementMatters(rows, root, rows[i], rows[j]);
    }
  }

  /** Distinct keys and agreeing candidates do not depend on order. */
  lemma OneIsAsGood(rows: seq<Row>, one: seq<Row>, root: string)
    requires multiset(one) == multiset(rows) && DistinctKeys(rows, KeyOf)
    ensures DistinctKeys(one, KeyOf)
    ensures RootsAgree(NormalizeAll(rows), root) ==> RootsAgree(NormalizeAll(one), root)
  {
    DistinctKeysPermute(rows, one);
    SameRowsSameEntries(rows, one);
    SameElements(NormalizeAll(rows), NormalizeAll(one));
    assert HasProposal(NormalizeAll(rows), root) <==> HasProposal(NormalizeAll(one), root);
  }

  lemma DistinctKeysPermute(rows: seq<Row>, one: seq<Row>)
    requires multiset(one) == multiset(rows) && DistinctKeys(rows, KeyOf)
    ensures DistinctKeys(one, KeyOf)
  {
    forall i, j | 0 <= i < j < |one| ensures KeyOf(one[i]) != KeyOf(one[j]) {
      assert one[i] in multiset(one) && one[j] in multiset(one);
      var k :| 0 <= k < |rows| && rows[k] == one[i];
      var l :| 0 <= l < |rows| && rows[l] == one[j];
      if one[i] == one[j] {
        Twice(one, i, j);
        Once(rows, k);
      }
    }
  }

  lemma Twice<T>(s: seq<T>, i: nat, j: nat)
    requires i < j < |s| && s[i] == s[j]
    ensures multiset(s)[s[i]] >= 2
  {
    assert s == s[..j] + s[j..];
    assert s[..j][i] in multiset(s[..j]) && s[j..][0] in multiset(s[j..]);
  }

  lemma Once(rows: seq<Row>, k: nat)
    requires k < |rows| && DistinctKeys(rows, KeyOf)
    ensures multiset(rows)[rows[k]] == 1
  {
    assert rows == rows[..k] + [rows[k]] + rows[k+1..];
    assert rows[k] !in rows[..k] && rows[k] !in rows[k+1..];
  }

  /** The entries are the rows given, each normalised, in order of time and then seq. */
  lemma EntriesAreTheRowsSorted(rows: seq<Row>, root: string, c: Option<Chain>)
    requires IsChain(rows, root, c) && c.Some?
    ensures Sorted(c.value.entries, EntryKey)
    ensures multiset(c.value.entries) == multiset(NormalizeAll(rows))
  {
    SortSorts(NormalizeAll(rows), EntryKey);
    SortPermutes(NormalizeAll(rows), EntryKey);
  }

  /** There is a result exactly when some row is an agent-query row of the root. */
  lemma ChainIffRootRow(rows: seq<Row>, root: string, c: Option<Chain>)
    requires IsChain(rows, root, c)
    ensures c.Some? <==> exists i :: 0 <= i < |rows| && IsRootPhase(Normalize(rows[i]), root)
  {
    var es := NormalizeAll(rows);
    RootPhasesSpec(es, root);
    if c.Some? {
      assert RootPhases(es, root)[0] in RootPhases(es, root);
      var i :| 0 <= i < |es| && es[i] == RootPhases(es, root)[0];
      assert es[i] == Normalize(rows[i]);
    } else {
      forall i | 0 <= i < |rows| ensures !IsRootPhase(Normalize(rows[i]), root) {
        assert es[i] in es;
      }
    }
  }

  /** A total is null exactly when no agent-query row in the resolve phase carries the measurement. */
  lemma {:induction false} NullTotalsIffUnmeasured(es: seq<Entry>)
    ensures LatencyCount(es) == 0 <==> forall i :: 0 <= i < |es| ==> !HasLatency(es[i])
    ensures CostCount(es) == 0 <==> forall i :: 0 <= i < |es| ==> !HasCost(es[i])
  {
    if es != [] {
      NullTotalsIffUnmeasured(es[..|es|-1]);
    }
  }

  /** Gathering and assembling together: a chain is found exactly when the ledger has a row whose
      trail id, as the query computes it, is the root, and an agent-query row whose trail id, as the
      assembler computes it, is the root.  (The two computations differ when ids are empty, or when
      a row without a trail id names two queries.) */
  lemma ChainFoundIff(ledger: Ledger, rows: seq<Row>, root: string, c: Option<Chain>)
    requires forall r :: r in rows <==> r in Gather(ledger, root)
    requires IsChain(rows, root, c)
    ensures c.Some? <==> Seed(ledger, root) != {} && exists r :: r in ledger && IsRootPhase(Normalize(r), root)
  {
    ChainIffRootRow(rows, root, c);
    GatherIsLeastClosed(ledger, root);
    NoSeedNoRows(ledger, root);
    if c.Some? {
      var i :| 0 <= i < |rows| && IsRootPhase(Normalize(rows[i]), root);
      assert rows[i] in rows && rows[i] in ledger;
    }
    if Seed(ledger, root) != {} && exists r :: r in ledger && IsRootPhase(Normalize(r), root) {
      var r :| r in ledger && IsRootPhase(Normalize(r), root);
      RootRowsAreGathered(ledger, root, r);
      var i :| 0 <= i < |rows| && rows[i] == r;
    }
  }

  lemma RootRowsAreGathered(ledger: Ledger, root: string, r: Row)
    requires Seed(ledger, root) != {} && r in ledger && IsRootPhase(Normalize(r), root)
    ensures r in Gather(ledger, root)
  {
    GatherIsLeastClosed(ledger, root);
    var c :| c in Seed(ledger, root);
    assert c in Gather(ledger, root) && LinksTo(r.payload, Trail(c.payload));
    assert Touches(r, Gather(ledger, root));
  }
}
