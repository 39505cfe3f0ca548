/** `getFirstKnowings` (apps/dashboard/lib/ledger-client.ts): what the worm detected or proposed and
    nobody has confirmed, once per reference, newest first, each with a window of chat around the
    message it refers to.

    The clock is a parameter.  The rendered summary text is not part of this model. */
module FirstKnowings {
  import opened Sequences
  import opened Sorting
  import opened KnowingRows

  const GAP_TARGET := "phenomenon_gap_detected"
  const DETECTOR := "phenomenon_gap_detector"

  // ---------------------------------------------------------------- the index pass

  function ConfirmedBy(e: Event): set<string> {
    match e
    case Confirm(r) => if r != "" then {r} else {}
    case GapResolved(k) => if k != "" then {"phenomenon_gap:" + k} else {}
    case _ => {}
  }

  function ConfirmedRefs(rows: seq<Row>): set<string> {
    if rows == [] then {} else ConfirmedRefs(rows[..|rows|-1]) + ConfirmedBy(rows[|rows|-1].event)
  }

  function ArchivedRefs(rows: seq<Row>): set<string> {
    if rows == [] then {}
    else
      var e := rows[|rows|-1].event;
      ArchivedRefs(rows[..|rows|-1]) + if e.PersonArchived? && e.archivedRef != "" then {e.archivedRef} else {}
  }

  function ChatSeqs(rows: seq<Row>): seq<nat> {
    if rows == [] then []
    else if rows[|rows|-1].event.Chat? then ChatSeqs(rows[..|rows|-1]) + [rows[|rows|-1].seqNo]
    else ChatSeqs(rows[..|rows|-1])
  }

  function ChatBySeq(rows: seq<Row>): map<nat, Row> {
    if rows == [] then map[]
    else
      var row := rows[|rows|-1];
      if row.event.Chat? then ChatBySeq(rows[..|rows|-1])[row.seqNo := row] else ChatBySeq(rows[..|rows|-1])
  }

  method IndexRows(rows: seq<Row>)
    returns (confirmed: set<string>, archived: set<string>, chatBySeq: map<nat, Row>, chatSeqs: seq<nat>)
    ensures confirmed == ConfirmedRefs(rows) && archived == ArchivedRefs(rows)
    ensures chatBySeq == ChatBySeq(rows) && chatSeqs == ChatSeqs(rows)
  {
    confirmed, archived, chatBySeq, chatSeqs := {}, {}, map[], [];
    for i := 0 to |rows|
      invariant confirmed == ConfirmedRefs(rows[..i]) && archived == ArchivedRefs(rows[..i])
      invariant chatBySeq == ChatBySeq(rows[..i]) && chatSeqs == ChatSeqs(rows[..i])
    {
      assert rows[..i+1][..i] == rows[..i];
      var row := rows[i];
      match row.event
      case Chat(_, _, _) =>
        chatBySeq, chatSeqs := chatBySeq[row.seqNo := row], chatSeqs + [row.seqNo];
      case Confirm(r) => if r != "" { confirmed := confirmed + {r}; }
      case GapResolved(k) => if k != "" { confirmed := confirmed + {"phenomenon_gap:" + k}; }
      case PersonArchived(r) => if r != "" { archived := archived + {r}; }
      case _ =>
    }
    assert rows[..|rows|] == rows;
  }

  // ---------------------------------------------------------------- candidates

  predicate LooksLikeUuid(s: string) {
    |s| == 36 && forall i :: 0 <= i < |s| ==>
      s[i] == '-' || '0' <= s[i] <= '9' || 'A' <= s[i] <= 'F' || 'a' <= s[i] <= 'f'
  }

  predicate IsWormProposer(s: string) {
    s != "" && s != "admin" && s != "human" && s != "system" && !LooksLikeUuid(s)
  }

  function KindOfGap(gapKind: string): Kind {
    if gapKind == "domain" then DomainGap
    else if gapKind == "process" then ProcessGap
    else if gapKind == "reactivity" then ReactivityGap
    else KpiGap
  }

  function GapRef(row: Row): string
    requires row.event.GapDetected?
  {
    "phenomenon_gap:" + if row.event.noveltyKey != "" then row.event.noveltyKey else Decimal(row.seqNo)
  }

  /** The two passes over the ledger: detected gaps, then raw proposals. */
  datatype Pass = Gaps | Proposals

  function TargetOf(row: Row): string {
    if row.event.Propose? then row.event.targetKind else GAP_TARGET
  }

  function RefOf(row: Row): string {
    if row.event.Propose? then row.event.refId else if row.event.GapDetected? then GapRef(row) else ""
  }

  /** A row that may become a first-knowing. */
  predicate Qualifies(row: Row, pass: Pass, confirmed: set<string>, archived: set<string>) {
    match pass
    case Gaps => row.event.GapDetected? && row.event.gapKind != "" && GapRef(row) !in confirmed
    case Proposals =>
      && row.event.Propose? && row.event.refId != "" && IsWormProposer(row.event.proposedBy)
      && (row.event.targetKind == "person_proposed" || row.event.targetKind == "reactivity_proposed")
      && row.event.refId !in confirmed && row.event.refId !in archived
  }

  /** The first execute row of the wanted kind within eight seqs after the proposal. */
  function FindAudience(rows: seq<Row>, proposeSeq: nat, kind: string): string {
    if rows == [] then ""
    else
      var r := rows[0];
      if r.seqNo <= proposeSeq then FindAudience(rows[1..], proposeSeq, kind)
      else if r.seqNo > proposeSeq + 8 then ""
      else if r.event.ExecuteProposed? && r.event.executedKind == kind then r.event.audience
      else FindAudience(rows[1..], proposeSeq, kind)
  }

  function ScopeOfAudience(audience: string): Scope {
    if "person:" <= audience then Mine else if "team:" <= audience then Team else Company
  }

  function Receipt(row: Row): string {
    if |row.hash| <= 12 then row.hash else row.hash[..12]
  }

  function Make(all: seq<Row>, row: Row): Knowing {
    match row.event
    case GapDetected(gapKind, noveltyKey, inSeq, confidence) =>
      Knowing(KindOfGap(gapKind), row.seqNo, row.ts, GapRef(row), inSeq, Some(confidence), noveltyKey, DETECTOR,
              GAP_TARGET, Company, Receipt(row), [])
    case Propose(target, ref, proposer) =>
      var person := target == "person_proposed";
      Knowing(if person then PersonGap else ReactivityGap, row.seqNo, row.ts, ref, 0, None, "", proposer, target,
              if person then Mine else ScopeOfAudience(FindAudience(all, row.seqNo, target)), Receipt(row), [])
    case _ => Knowing(KpiGap, row.seqNo, row.ts, "", 0, None, "", "", "", Company, "", [])
  }

  predicate Seen(ks: seq<Knowing>, target: string, ref: string) {
    exists i :: 0 <= i < |ks| && ks[i].targetKind == target && ks[i].refId == ref
  }

  /** Each qualifying row whose target and reference no earlier qualifying row had. */
  function Collect(all: seq<Row>, rows: seq<Row>, pass: Pass, confirmed: set<string>,
                   archived: set<string>): seq<Knowing> {
    if rows == [] then []
    else
      var row := rows[|rows|-1];
      var earlier := Collect(all, rows[..|rows|-1], pass, confirmed, archived);
      if Qualifies(row, pass, confirmed, archived) && !Seen(earlier, TargetOf(row), RefOf(row)) then
        earlier + [Make(all, row)]
      else earlier
  }

  function DedupKey(target: string, ref: string): string {
    target + "::" + ref
  }

  predicate IsTarget(target: string) {
    target == GAP_TARGET || target == "person_proposed" || target == "reactivity_proposed"
  }

  /** The joined key tells targets and references apart. */
  lemma DedupKeyInjective(t: string, r: string, t': string, r': string)
    requires IsTarget(t) && IsTarget(t') && DedupKey(t, r) == DedupKey(t', r')
    ensures t == t' && r == r'
  {
    var k, k' := DedupKey(t, r), DedupKey(t', r');
    assert k[0] == t[0] && k[1] == t[1] && k'[0] == t'[0] && k'[1] == t'[1];
    assert r == k[|t|+2..] && r' == k'[|t'|+2..];
  }

  /** `seen` holds exactly the keys of `ks`. */
  ghost predicate KeysOf(seen: set<string>, ks: seq<Knowing>) {
    forall t, r {:trigger DedupKey(t, r)} :: IsTarget(t) ==> (DedupKey(t, r) in seen <==> Seen(ks, t, r))
  }

  ghost predicate AllTargets(ks: seq<Knowing>, pass: Pass) {
    forall i :: 0 <= i < |ks| ==> IsTarget(ks[i].targetKind) && (ks[i].targetKind == GAP_TARGET <==> pass == Gaps)
  }

  lemma KeysOfSnoc(seen: set<string>, ks: seq<Knowing>, k: Knowing)
    requires KeysOf(seen, ks) && IsTarget(k.targetKind)
    ensures KeysOf(seen + {DedupKey(k.targetKind, k.refId)}, ks + [k])
  {
    forall t, r {:trigger DedupKey(t, r)} | IsTarget(t)
      ensures DedupKey(t, r) in seen + {DedupKey(k.targetKind, k.refId)} <==> Seen(ks + [k], t, r)
    {
      if DedupKey(t, r) == DedupKey(k.targetKind, k.refId) {
        DedupKeyInjective(t, r, k.targetKind, k.refId);
        assert (ks + [k])[|ks|] == k;
      }
      SeenSnoc(ks, k, t, r);
    }
  }

  lemma SeenSnoc(ks: seq<Knowing>, k: Knowing, t: string, r: string)
    ensures Seen(ks + [k], t, r) <==> Seen(ks, t, r) || (k.targetKind == t && k.refId == r)
  {
    var more := ks + [k];
    assert more[|ks|] == k;
    if Seen(ks, t, r) {
      var i :| 0 <= i < |ks| && ks[i].targetKind == t && ks[i].refId == r;
      assert more[i] == ks[i];
    }
  }

  lemma MadeFrom(all: seq<Row>, row: Row, pass: Pass, confirmed: set<string>, archived: set<string>)
    requires Qualifies(row, pass, confirmed, archived)
    ensures var k := Make(all, row);
            && k.targetKind == TargetOf(row) && k.refId == RefOf(row) && k.firstSeq == row.seqNo && k.firstTs == row.ts
            && IsTarget(k.targetKind) && (k.targetKind == GAP_TARGET <==> pass == Gaps)
  {
  }

  /** One pass over the rows with the shared set of seen keys; `before` is what filled that set. */
  method CollectPass(all: seq<Row>, pass: Pass, confirmed: set<string>, archived: set<string>, seen0: set<string>,
                     ghost before: seq<Knowing>)
    returns (out: seq<Knowing>, seen: set<string>)
    requires KeysOf(seen0, before) && (before == [] || (pass == Proposals && AllTargets(before, Gaps)))
    ensures out == Collect(all, all, pass, confirmed, archived)
    ensures KeysOf(seen, before + out) && AllTargets(out, pass)
  {
    out, seen := [], seen0;
    assert before + [] == before;
    for i := 0 to |all|
      invariant out == Collect(all, all[..i], pass, confirmed, archived)
      invariant KeysOf(seen, before + out) && AllTargets(out, pass)
    {
      assert all[..i+1][..i] == all[..i];
      if Qualifies(all[i], pass, confirmed, archived) {
        MadeFrom(all, all[i], pass, confirmed, archived);
        out, seen := Consider(Make(all, all[i]), pass, out, seen, before);
      }
    }
    assert all[..|all|] == all;
  }

  /** The dedup step for a qualifying row. */
  method Consider(k: Knowing, pass: Pass, out: seq<Knowing>, seen: set<string>, ghost before: seq<Knowing>)
    returns (out': seq<Knowing>, seen': set<string>)
    requires KeysOf(seen, before + out) && AllTargets(out, pass)
    requires before == [] || (pass == Proposals && AllTargets(before, Gaps))
    requires IsTarget(k.targetKind) && (k.targetKind == GAP_TARGET <==> pass == Gaps)
    ensures out' == if Seen(out, k.targetKind, k.refId) then out else out + [k]
    ensures KeysOf(seen', before + out') && AllTargets(out', pass)
  {
    out', seen' := out, seen;
    SeenApart(before, out, pass, k.targetKind, k.refId);
    if DedupKey(k.targetKind, k.refId) !in seen {
      KeysOfSnoc(seen, before + out, k);
      seen' := seen + {DedupKey(k.targetKind, k.refId)};
      assert before + out + [k] == before + (out + [k]);
      out' := out + [k];
    }
  }

  lemma SeenApart(before: seq<Knowing>, out: seq<Knowing>, pass: Pass, target: string, ref: string)
    requires before == [] || (pass == Proposals && AllTargets(before, Gaps))
    requires target == GAP_TARGET <==> pass == Gaps
    ensures Seen(before + out, target, ref) <==> Seen(out, target, ref)
  {
    var all := before + out;
    if Seen(out, target, ref) {
      var i :| 0 <= i < |out| && out[i].targetKind == target && out[i].refId == ref;
      assert all[|before| + i] == out[i];
    }
    if Seen(all, target, ref) {
      var i :| 0 <= i < |all| && all[i].targetKind == target && all[i].refId == ref;
      assert i >= |before| ==> all[i] == out[i - |before|];
    }
  }

  /** Everything collected: gaps first, then proposals. */
  function Collected(all: seq<Row>): seq<Knowing> {
    CollectWith(all, ConfirmedRefs(all), ArchivedRefs(all))
  }

  function CollectWith(all: seq<Row>, confirmed: set<string>, archived: set<string>): seq<Knowing> {
    Collect(all, all, Gaps, confirmed, archived) + Collect(all, all, Proposals, confirmed, archived)
  }

  // ---------------------------------------------------------------- chips, order, chat context

  function Kinds(o: Options): set<Kind> {
    if o.kinds == {} then {KpiGap, DomainGap, ProcessGap, ReactivityGap, PersonGap} else o.kinds
  }

  predicate Shown(k: Knowing, o: Options) {
    && k.kind in Kinds(o)
    && (o.scope.Some? ==> k.scope == o.scope.value)
    && (o.recencyMs.Some? ==> k.firstTs >= o.now - o.recencyMs.value)
  }

  function ShownOnly(ks: seq<Knowing>, o: Options): seq<Knowing> {
    if ks == [] then []
    else if Shown(ks[|ks|-1], o) then ShownOnly(ks[..|ks|-1], o) + [ks[|ks|-1]]
    else ShownOnly(ks[..|ks|-1], o)
  }

  function NewestFirst(k: Knowing): Key {
    Key(0 - k.firstSeq as int, 0)
  }

  /** The first chat seq that is not below the anchor, or -1. */
  function AnchorPos(seqs: seq<nat>, anchor: int): (pos: int)
    ensures -1 <= pos < |seqs|
    ensures pos >= 0 ==> seqs[pos] >= anchor && forall i :: 0 <= i < pos ==> seqs[i] < anchor
    ensures pos < 0 ==> forall i :: 0 <= i < |seqs| ==> seqs[i] < anchor
  {
    if seqs == [] then -1
    else
      var before := AnchorPos(seqs[..|seqs|-1], anchor);
      if before >= 0 then before
      else if seqs[|seqs|-1] >= anchor then |seqs| - 1
      else -1
  }

  method FindAnchorPos(seqs: seq<nat>, anchor: int) returns (pos: int)
    ensures pos == AnchorPos(seqs, anchor)
  {
    for i := 0 to |seqs|
      invariant AnchorPos(seqs[..i], anchor) == -1
    {
      assert seqs[..i+1][..i] == seqs[..i];
      if seqs[i] == anchor || seqs[i] > anchor {
        return i;
      }
    }
    assert seqs[..|seqs|] == seqs;
    return -1;
  }

  function Line(chats: map<nat, Row>, s: nat, anchor: int): ChatLine {
    if s in chats && chats[s].event.Chat? then
      ChatLine(s, chats[s].ts, chats[s].event.channelId, chats[s].event.sender, chats[s].event.text, s == anchor)
    else ChatLine(s, 0, "", "", "", s == anchor)
  }

  function Slice(seqs: seq<nat>, anchor: int): seq<nat> {
    var pos := AnchorPos(seqs, anchor);
    if pos < 0 then [] else seqs[Max(0, pos - 3)..Min(|seqs|, pos + 4)]
  }

  /** The chat around an anchor, computed afresh. */
  function Window(chats: map<nat, Row>, seqs: seq<nat>, anchor: int): seq<ChatLine> {
    var slice := Slice(seqs, anchor);
    seq(|slice|, i requires 0 <= i < |slice| => Line(chats, slice[i], anchor))
  }

  function WithContext(chats: map<nat, Row>, seqs: seq<nat>, k: Knowing): Knowing {
    if k.referencedInSeq <= 0 then k else k.(context := Window(chats, seqs, k.referencedInSeq))
  }

  function AllWithContext(chats: map<nat, Row>, seqs: seq<nat>, ks: seq<Knowing>): (r: seq<Knowing>)
    ensures |r| == |ks| && forall i :: 0 <= i < |r| ==> r[i] == WithContext(chats, seqs, ks[i])
  {
    seq(|ks|, i requires 0 <= i < |ks| => WithContext(chats, seqs, ks[i]))
  }

  /** The memo loop: a window is computed once for each anchor and shared by the rows that name it. */
  method AttachContexts(ks: seq<Knowing>, chats: map<nat, Row>, seqs: seq<nat>) returns (r: seq<Knowing>)
    ensures r == AllWithContext(chats, seqs, ks)
  {
    var memo: map<int, seq<ChatLine>> := map[];
    r := ks;
    for i := 0 to |ks|
      invariant |r| == |ks|
      invariant forall j :: 0 <= j < i ==> r[j] == WithContext(chats, seqs, ks[j])
      invariant forall j :: i <= j < |ks| ==> r[j] == ks[j]
      invariant forall a :: a in memo ==> memo[a] == Window(chats, seqs, a)
    {
      var anchor := ks[i].referencedInSeq;
      if anchor <= 0 { continue; }
      if anchor in memo {
        r := r[i := r[i].(context := memo[anchor])];
        continue;
      }
      var pos := FindAnchorPos(seqs, anchor);
      var window := [];
      if pos >= 0 {
        var slice := seqs[Max(0, pos - 3)..Min(|seqs|, pos + 4)];
        window := seq(|slice|, k requires 0 <= k < |slice| => Line(chats, slice[k], anchor));
      }
      assert window == Window(chats, seqs, anchor);
      memo := memo[anchor := window];
      r := r[i := r[i].(context := window)];
    }
  }

  function BySeq(s: nat): Key {
    Key(s, 0)
  }

  function SortedChatSeqs(all: seq<Row>): seq<nat> {
    Sort(ChatSeqs(all), BySeq)
  }

  /** The result before the limit. */
  function Unlimited(all: seq<Row>, o: Options): seq<Knowing> {
    AllWithContext(ChatBySeq(all), SortedChatSeqs(all), Sort(ShownOnly(Collected(all), o), NewestFirst))
  }

  method GetFirstKnowings(all: seq<Row>, o: Options) returns (r: seq<Knowing>)
    ensures var limit := Max(1, if o.limit.Some? then o.limit.value else 50);
            && r == Cut(Unlimited(all, o), limit)
            && Answers(all, o, r, limit)
  {
    var limit := Max(1, if o.limit.Some? then o.limit.value else 50);
    UnlimitedAnswers(all, o, limit);
    if |all| == 0 { return []; }
    var confirmed, archived, chats, chatSeqs := IndexRows(all);
    var gaps, seen := CollectPass(all, Gaps, confirmed, archived, {}, []);
    assert [] + gaps == gaps;
    var proposals, seen' := CollectPass(all, Proposals, confirmed, archived, seen, gaps);
    var filtered := Sort(ShownOnly(gaps + proposals, o), NewestFirst);
    r := AttachContexts(filtered, chats, Sort(chatSeqs, BySeq));
    if |r| > limit { r := r[..limit]; }
  }

  // ---------------------------------------------------------------- what is collected

  /** Row `i` is the earliest qualifying row with its target and reference. */
  ghost predicate Earliest(rows: seq<Row>, i: nat, pass: Pass, confirmed: set<string>, archived: set<string>) {
    && i < |rows| && Qualifies(rows[i], pass, confirmed, archived)
    && forall j :: 0 <= j < i && Qualifies(rows[j], pass, confirmed, archived) ==>
         !(TargetOf(rows[j]) == TargetOf(rows[i]) && RefOf(rows[j]) == RefOf(rows[i]))
  }

  /** `k` is what row `i` makes, and row `i` is the earliest of its kind. */
  ghost predicate MadeBy(all: seq<Row>, rows: seq<Row>, k: Knowing, i: nat, pass: Pass, confirmed: set<string>,
                         archived: set<string>) {
    Earliest(rows, i, pass, confirmed, archived) && k == Make(all, rows[i])
  }

  lemma {:induction false} CollectSound(all: seq<Row>, rows: seq<Row>, pass: Pass, confirmed: set<string>,
                                        archived: set<string>, x: nat)
    returns (i: nat)
    requires x < |Collect(all, rows, pass, confirmed, archived)|
    ensures MadeBy(all, rows, Collect(all, rows, pass, confirmed, archived)[x], i, pass, confirmed, archived)
    decreases |rows|
  {
    var n := |rows| - 1;
    var earlier := Collect(all, rows[..n], pass, confirmed, archived);
    if x < |earlier| {
      i := CollectSound(all, rows[..n], pass, confirmed, archived, x);
      EarliestLonger(rows, n, i, pass, confirmed, archived);
    } else {
      i := n;
      LastIsEarliest(all, rows, pass, confirmed, archived);
    }
  }

  lemma EarliestLonger(rows: seq<Row>, n: nat, i: nat, pass: Pass, confirmed: set<string>, archived: set<string>)
    requires n <= |rows| && Earliest(rows[..n], i, pass, confirmed, archived)
    ensures Earliest(rows, i, pass, confirmed, archived) && rows[i] == rows[..n][i]
  {
    forall j | 0 <= j < i && Qualifies(rows[j], pass, confirmed, archived)
      ensures !(TargetOf(rows[j]) == TargetOf(rows[i]) && RefOf(rows[j]) == RefOf(rows[i]))
    {
      assert rows[..n][j] == rows[j];
    }
  }

  lemma LastIsEarliest(all: seq<Row>, rows: seq<Row>, pass: Pass, confirmed: set<string>, archived: set<string>)
    requires rows != [] && Qualifies(rows[|rows|-1], pass, confirmed, archived)
    requires !Seen(Collect(all, rows[..|rows|-1], pass, confirmed, archived), TargetOf(rows[|rows|-1]),
                   RefOf(rows[|rows|-1]))
    ensures Earliest(rows, |rows| - 1, pass, confirmed, archived)
  {
    var n := |rows| - 1;
    forall j | 0 <= j < n && Qualifies(rows[j], pass, confirmed, archived)
      ensures !(TargetOf(rows[j]) == TargetOf(rows[n]) && RefOf(rows[j]) == RefOf(rows[n]))
    {
      CollectComplete(all, rows[..n], pass, confirmed, archived, j);
    }
  }

  /** Every qualifying row's target and reference are collected. */
  lemma {:induction false} CollectComplete(all: seq<Row>, rows: seq<Row>, pass: Pass, confirmed: set<string>,
                                          archived: set<string>, j: nat)
    requires j < |rows| && Qualifies(rows[j], pass, confirmed, archived)
    ensures Seen(Collect(all, rows, pass, confirmed, archived), TargetOf(rows[j]), RefOf(rows[j]))
  {
    var n := |rows| - 1;
    var earlier := Collect(all, rows[..n], pass, confirmed, archived);
    if j < n {
      CollectComplete(all, rows[..n], pass, confirmed, archived, j);
    }
    SeenSnoc(earlier, Make(all, rows[n]), TargetOf(rows[j]), RefOf(rows[j]));
  }

  /** One entry of the result against the ledger: it never names a confirmed reference, and carries
      the seq and time of the earliest qualifying row with its target and reference. */
  ghost predicate Grounded(all: seq<Row>, k: Knowing) {
    var confirmed, archived := ConfirmedRefs(all), ArchivedRefs(all);
    exists i: nat, pass ::
      && Earliest(all, i, pass, confirmed, archived) && all[i].seqNo == k.firstSeq && all[i].ts == k.firstTs
      && TargetOf(all[i]) == k.targetKind && RefOf(all[i]) == k.refId
      && k.refId !in confirmed
  }

  lemma CollectedGrounded(all: seq<Row>, x: nat)
    requires x < |Collected(all)|
    ensures Grounded(all, Collected(all)[x])
  {
    var confirmed, archived := ConfirmedRefs(all), ArchivedRefs(all);
    var gaps := Collect(all, all, Gaps, confirmed, archived);
    var pass := if x < |gaps| then Gaps else Proposals;
    var y := if x < |gaps| then x else x - |gaps|;
    var i := CollectSound(all, all, pass, confirmed, archived, y);
    MadeFrom(all, all[i], pass, confirmed, archived);
    assert Earliest(all, i, pass, confirmed, archived);
  }

  /** A target and a reference have one earliest row. */
  lemma SameReferenceSameSeq(all: seq<Row>, a: Knowing, b: Knowing)
    requires Grounded(all, a) && Grounded(all, b)
    requires a.targetKind == b.targetKind && a.refId == b.refId
    ensures a.firstSeq == b.firstSeq
  {
    var confirmed, archived := ConfirmedRefs(all), ArchivedRefs(all);
    var i: nat, p: Pass :| Earliest(all, i, p, confirmed, archived) && all[i].seqNo == a.firstSeq
      && TargetOf(all[i]) == a.targetKind && RefOf(all[i]) == a.refId;
    var j: nat, q: Pass :| Earliest(all, j, q, confirmed, archived) && all[j].seqNo == b.firstSeq
      && TargetOf(all[j]) == b.targetKind && RefOf(all[j]) == b.refId;
    MadeFrom(all, all[i], p, confirmed, archived);
    MadeFrom(all, all[j], q, confirmed, archived);
    assert p == q;
    assert !(i < j) && !(j < i);
  }

  // ---------------------------------------------------------------- what is returned

  lemma {:induction false} ShownIsCollected(ks: seq<Knowing>, o: Options)
    ensures forall k :: k in ShownOnly(ks, o) <==> k in ks && Shown(k, o)
  {
    if ks != [] {
      ShownIsCollected(ks[..|ks|-1], o);
      assert ks == ks[..|ks|-1] + [ks[|ks|-1]];
    }
  }

  /** Before the limit: what is returned are collected entries that pass the chips, newest first, each
      with its context attached. */
  lemma ReturnedAreCollected(all: seq<Row>, o: Options, x: nat) returns (k: Knowing)
    requires x < |Unlimited(all, o)|
    ensures k in Collected(all) && Shown(k, o) && k == Sort(ShownOnly(Collected(all), o), NewestFirst)[x]
    ensures Unlimited(all, o)[x] == WithContext(ChatBySeq(all), SortedChatSeqs(all), k)
  {
    var shown := ShownOnly(Collected(all), o);
    k := Sort(shown, NewestFirst)[x];
    SortPermutes(shown, NewestFirst);
    assert k in multiset(Sort(shown, NewestFirst));
    assert k in multiset(shown);
    ShownIsCollected(Collected(all), o);
  }

  /** And every collected entry that passes the chips is returned. */
  lemma CollectedAreReturned(all: seq<Row>, o: Options, k: Knowing) returns (x: nat)
    requires k in Collected(all) && Shown(k, o)
    ensures x < |Unlimited(all, o)| && Unlimited(all, o)[x] == WithContext(ChatBySeq(all), SortedChatSeqs(all), k)
  {
    var shown := ShownOnly(Collected(all), o);
    var sorted := Sort(shown, NewestFirst);
    ShownIsCollected(Collected(all), o);
    SortPermutes(shown, NewestFirst);
    assert k in multiset(shown);
    assert k in multiset(sorted);
    x :| 0 <= x < |sorted| && sorted[x] == k;
  }

  /** A qualifying row has an entry for its target and reference; if the chips let that entry pass,
      the target and reference are among those returned. */
  lemma QualifyingIsReturned(all: seq<Row>, o: Options, j: nat, pass: Pass) returns (k: Knowing)
    requires j < |all| && Qualifies(all[j], pass, ConfirmedRefs(all), ArchivedRefs(all))
    ensures k in Collected(all) && k.targetKind == TargetOf(all[j]) && k.refId == RefOf(all[j])
    ensures Shown(k, o) ==> Seen(Unlimited(all, o), TargetOf(all[j]), RefOf(all[j]))
  {
    var confirmed, archived := ConfirmedRefs(all), ArchivedRefs(all);
    var ks := Collect(all, all, pass, confirmed, archived);
    CollectComplete(all, all, pass, confirmed, archived, j);
    var i :| 0 <= i < |ks| && ks[i].targetKind == TargetOf(all[j]) && ks[i].refId == RefOf(all[j]);
    k := ks[i];
    if Shown(k, o) {
      var x := CollectedAreReturned(all, o, k);
      assert Unlimited(all, o)[x].targetKind == k.targetKind && Unlimited(all, o)[x].refId == k.refId;
    }
  }

  /** Each returned entry carries the earliest qualifying seq of its target and reference, and
      never names a confirmed reference. */
  lemma ReturnedAreGrounded(all: seq<Row>, o: Options, x: nat)
    requires x < |Unlimited(all, o)|
    ensures Grounded(all, Unlimited(all, o)[x])
  {
    var k := ReturnedAreCollected(all, o, x);
    var y :| 0 <= y < |Collected(all)| && Collected(all)[y] == k;
    CollectedGrounded(all, y);
    GroundedIgnoresContext(all, k, Unlimited(all, o)[x]);
  }

  lemma GroundedIgnoresContext(all: seq<Row>, k: Knowing, k': Knowing)
    requires Grounded(all, k) && k' == k.(context := k'.context)
    ensures Grounded(all, k')
  {
    var confirmed, archived := ConfirmedRefs(all), ArchivedRefs(all);
    var i: nat, pass :|
      && Earliest(all, i, pass, confirmed, archived) && all[i].seqNo == k.firstSeq && all[i].ts == k.firstTs
      && TargetOf(all[i]) == k.targetKind && RefOf(all[i]) == k.refId;
    assert Earliest(all, i, pass, confirmed, archived) && all[i].seqNo == k'.firstSeq;
  }

  ghost predicate DistinctSeqs(ks: seq<Knowing>) {
    forall i, j :: 0 <= i < j < |ks| ==> ks[i].firstSeq != ks[j].firstSeq
  }

  lemma {:induction false} CollectFromRows(all: seq<Row>, rows: seq<Row>, pass: Pass, confirmed: set<string>,
                                          archived: set<string>)
    requires Ordered(rows)
    ensures var ks := Collect(all, rows, pass, confirmed, archived);
            && DistinctSeqs(ks)
            && forall x :: 0 <= x < |ks| ==> exists i :: 0 <= i < |rows| && rows[i].seqNo == ks[x].firstSeq
                                                         && Qualifies(rows[i], pass, confirmed, archived)
  {
    if rows != [] {
      var n := |rows| - 1;
      CollectFromRows(all, rows[..n], pass, confirmed, archived);
      var earlier := Collect(all, rows[..n], pass, confirmed, archived);
      forall x | 0 <= x < |earlier|
        ensures exists i :: 0 <= i < |rows| && rows[i].seqNo == earlier[x].firstSeq
                  && Qualifies(rows[i], pass, confirmed, archived)
        ensures earlier[x].firstSeq != rows[n].seqNo
      {
        var i :| 0 <= i < n && rows[..n][i].seqNo == earlier[x].firstSeq
            && Qualifies(rows[..n][i], pass, confirmed, archived);
        assert rows[i] == rows[..n][i];
      }
      if Qualifies(rows[n], pass, confirmed, archived) {
        MadeFrom(all, rows[n], pass, confirmed, archived);
      }
    }
  }

  lemma CollectedDistinctSeqs(all: seq<Row>)
    requires Ordered(all)
    ensures DistinctSeqs(Collected(all))
  {
    var c, a := ConfirmedRefs(all), ArchivedRefs(all);
    var gaps, proposals := Collect(all, all, Gaps, c, a), Collect(all, all, Proposals, c, a);
    CollectFromRows(all, all, Gaps, c, a);
    CollectFromRows(all, all, Proposals, c, a);
    forall x, y | 0 <= x < |gaps| && 0 <= y < |proposals| ensures gaps[x].firstSeq != proposals[y].firstSeq {
      var i :| 0 <= i < |all| && all[i].seqNo == gaps[x].firstSeq && Qualifies(all[i], Gaps, c, a);
      var j :| 0 <= j < |all| && all[j].seqNo == proposals[y].firstSeq && Qualifies(all[j], Proposals, c, a);
      assert i != j;
    }
  }

  lemma {:induction false} ShownDistinct(ks: seq<Knowing>, o: Options)
    requires DistinctSeqs(ks)
    ensures DistinctKeys(ShownOnly(ks, o), NewestFirst)
  {
    if ks != [] {
      var n := |ks| - 1;
      ShownDistinct(ks[..n], o);
      ShownIsCollected(ks[..n], o);
      forall i | 0 <= i < |ShownOnly(ks[..n], o)| ensures ShownOnly(ks[..n], o)[i].firstSeq != ks[n].firstSeq {
        assert ShownOnly(ks[..n], o)[i] in ks[..n];
      }
    }
  }

  /** The result descends strictly in seq, and no two entries share target and reference. */
  lemma ReturnedAreUnique(all: seq<Row>, o: Options, x: nat, y: nat)
    requires Ordered(all) && x < y < |Unlimited(all, o)|
    ensures Unlimited(all, o)[x].firstSeq > Unlimited(all, o)[y].firstSeq
    ensures !(Unlimited(all, o)[x].targetKind == Unlimited(all, o)[y].targetKind
              && Unlimited(all, o)[x].refId == Unlimited(all, o)[y].refId)
  {
    var shown := ShownOnly(Collected(all), o);
    var sorted := Sort(shown, NewestFirst);
    CollectedDistinctSeqs(all);
    ShownDistinct(Collected(all), o);
    SortDistinct(shown, NewestFirst);
    SortSorts(shown, NewestFirst);
    assert Le(NewestFirst(sorted[x]), NewestFirst(sorted[y]));
    ReturnedAreGrounded(all, o, x);
    ReturnedAreGrounded(all, o, y);
    var r := Unlimited(all, o);
    if r[x].targetKind == r[y].targetKind && r[x].refId == r[y].refId {
      SameReferenceSameSeq(all, r[x], r[y]);
    }
  }

  // ---------------------------------------------------------------- the answer owes the rows

  lemma {:induction false} ConfirmedRefsAre(rows: seq<Row>, ref: string)
    requires ref != ""
    ensures ref in ConfirmedRefs(rows) <==> ConfirmedIn(rows, ref)
  {
    if rows != [] {
      var n := |rows| - 1;
      ConfirmedRefsAre(rows[..n], ref);
      assert ref in ConfirmedBy(rows[n].event) <==> Confirms(rows[n].event, ref);
      if ConfirmedIn(rows[..n], ref) {
        var i :| 0 <= i < n && Confirms(rows[..n][i].event, ref);
        assert Confirms(rows[i].event, ref);
      }
      if ConfirmedIn(rows, ref) && !Confirms(rows[n].event, ref) {
        var i :| 0 <= i < |rows| && Confirms(rows[i].event, ref);
        assert Confirms(rows[..n][i].event, ref);
      }
    }
  }

  lemma {:induction false} ArchivedRefsAre(rows: seq<Row>, ref: string)
    requires ref != ""
    ensures ref in ArchivedRefs(rows) <==> ArchivedIn(rows, ref)
  {
    if rows != [] {
      var n := |rows| - 1;
      ArchivedRefsAre(rows[..n], ref);
      if ArchivedIn(rows[..n], ref) {
        var i :| 0 <= i < n && rows[..n][i].event == PersonArchived(ref);
        assert rows[i].event == PersonArchived(ref);
      }
      if ArchivedIn(rows, ref) && rows[n].event != PersonArchived(ref) {
        var i :| 0 <= i < |rows| && rows[i].event == PersonArchived(ref);
        assert rows[..n][i].event == PersonArchived(ref);
      }
    }
  }

  lemma HumanNamesAre(s: string)
    ensures IsWormProposer(s) <==> !HumanName(s)
  {
    if LooksLikeUuid(s) {
      assert forall i :: 0 <= i < |s| ==> HexOrDash(s[i]);
    } else if |s| == 36 {
      var i :| 0 <= i < |s| && !(s[i] == '-' || '0' <= s[i] <= '9' || 'A' <= s[i] <= 'F' || 'a' <= s[i] <= 'f');
      assert !HexOrDash(s[i]);
    }
  }

  /** A row qualifies in one of the passes exactly if it is open. */
  lemma QualifiesIffOpen(all: seq<Row>, i: nat, pass: Pass)
    requires i < |all|
    ensures Qualifies(all[i], pass, ConfirmedRefs(all), ArchivedRefs(all))
        <==> all[i].event.GapDetected? == pass.Gaps? && Open(all, i, TargetOf(all[i]), RefOf(all[i]))
  {
    var ref := RefOf(all[i]);
    if ref != "" {
      ConfirmedRefsAre(all, ref);
      ArchivedRefsAre(all, ref);
    }
    if all[i].event.Propose? {
      HumanNamesAre(all[i].event.proposedBy);
    }
  }

  lemma RefersTo(row: Row, target: string, ref: string)
    requires Refers(row, target, ref)
    ensures target == TargetOf(row) && ref == RefOf(row)
  {
  }

  lemma EarliestIsFirstOpen(all: seq<Row>, i: nat, pass: Pass)
    requires Earliest(all, i, pass, ConfirmedRefs(all), ArchivedRefs(all))
    ensures FirstOpen(all, i, TargetOf(all[i]), RefOf(all[i]))
  {
    var target, ref := TargetOf(all[i]), RefOf(all[i]);
    QualifiesIffOpen(all, i, pass);
    forall j | 0 <= j < i ensures !Open(all, j, target, ref) {
      QualifiesIffOpen(all, j, pass);
      if Open(all, j, target, ref) {
        RefersTo(all[j], target, ref);
      }
    }
  }

  lemma FirstOpenIsEarliest(all: seq<Row>, i: nat, target: string, ref: string) returns (pass: Pass)
    requires FirstOpen(all, i, target, ref)
    ensures target == TargetOf(all[i]) && ref == RefOf(all[i])
    ensures Earliest(all, i, pass, ConfirmedRefs(all), ArchivedRefs(all))
  {
    pass := if all[i].event.GapDetected? then Gaps else Proposals;
    RefersTo(all[i], target, ref);
    QualifiesIffOpen(all, i, pass);
    forall j | 0 <= j < i && Qualifies(all[j], pass, ConfirmedRefs(all), ArchivedRefs(all))
      ensures !(TargetOf(all[j]) == target && RefOf(all[j]) == ref)
    {
      QualifiesIffOpen(all, j, pass);
    }
  }

  lemma {:induction false} AudienceFound(rows: seq<Row>, seqNo: nat, kind: string)
    ensures AudienceIs(rows, seqNo, kind, FindAudience(rows, seqNo, kind))
  {
    if rows == [] || rows[0].seqNo > seqNo + 8 {
      assert forall j: nat :: !CarriesOut(rows, j, seqNo, kind);
    } else if CarriesOut(rows, 0, seqNo, kind) {
    } else {
      AudienceFound(rows[1..], seqNo, kind);
      AudienceLater(rows, seqNo, kind, FindAudience(rows[1..], seqNo, kind));
    }
  }

  lemma CarriesOutLater(rows: seq<Row>, j: nat, seqNo: nat, kind: string)
    requires rows != [] && rows[0].seqNo <= seqNo + 8
    ensures CarriesOut(rows, j + 1, seqNo, kind) <==> CarriesOut(rows[1..], j, seqNo, kind)
  {
    if CarriesOut(rows, j + 1, seqNo, kind) {
      assert forall k :: 0 <= k < j ==> rows[1..][k] == rows[k + 1];
    }
    if CarriesOut(rows[1..], j, seqNo, kind) {
      assert forall k :: 1 <= k < j + 1 ==> rows[k] == rows[1..][k - 1];
    }
  }

  lemma AudienceLater(rows: seq<Row>, seqNo: nat, kind: string, audience: string)
    requires rows != [] && rows[0].seqNo <= seqNo + 8 && !CarriesOut(rows, 0, seqNo, kind)
    requires AudienceIs(rows[1..], seqNo, kind, audience)
    ensures AudienceIs(rows, seqNo, kind, audience)
  {
    forall j: nat | CarriesOut(rows, j, seqNo, kind) ensures j > 0 && CarriesOut(rows[1..], j - 1, seqNo, kind) {
      if j > 0 {
        CarriesOutLater(rows, j - 1, seqNo, kind);
      }
    }
    if j: nat :| CarriesOut(rows[1..], j, seqNo, kind) && rows[1..][j].event.audience == audience
                   && forall k: nat :: k < j ==> !CarriesOut(rows[1..], k, seqNo, kind) {
      CarriesOutLater(rows, j, seqNo, kind);
      assert rows[j + 1].event.audience == audience;
    }
  }

  /** The earliest row makes the entry that tells of it. */
  lemma MakeTells(all: seq<Row>, i: nat, pass: Pass)
    requires Earliest(all, i, pass, ConfirmedRefs(all), ArchivedRefs(all))
    ensures Tells(all, i, Make(all, all[i])) && Make(all, all[i]).context == []
  {
    EarliestIsFirstOpen(all, i, pass);
    MadeFrom(all, all[i], pass, ConfirmedRefs(all), ArchivedRefs(all));
    var k := Make(all, all[i]);
    if all[i].event.Propose? {
      var kind := all[i].event.targetKind;
      AudienceFound(all, all[i].seqNo, kind);
      var audience := FindAudience(all, all[i].seqNo, kind);
      ScopesApart(audience);
      assert kind == "reactivity_proposed" ==>
          AudienceIs(all, all[i].seqNo, "reactivity_proposed", audience) && ScopeIs(audience, k.scope);
    }
  }

  lemma ScopesApart(audience: string)
    ensures ScopeIs(audience, ScopeOfAudience(audience))
  {
    assert "person:" <= audience ==> audience[0] == 'p';
    assert "team:" <= audience ==> audience[0] == 't';
  }

  lemma {:induction false} ChatBySeqGets(rows: seq<Row>, j: nat, s: nat)
    requires Ordered(rows) && IsChatAt(rows, j, s)
    ensures s in ChatBySeq(rows) && ChatBySeq(rows)[s] == rows[j]
  {
    var n := |rows| - 1;
    if j < n {
      ChatBySeqGets(rows[..n], j, s);
      assert rows[j].seqNo < rows[n].seqNo;
    }
  }

  /** `w` is the run at `lo`, which leaves seqs out only on a side where it is full. */
  ghost predicate Bounds(seqs: seq<nat>, w: seq<nat>, anchor: int, b: nat, lo: nat) {
    && lo + |w| <= |seqs| && w == seqs[lo..lo + |w|]
    && (w == [] ==> forall i :: 0 <= i < |seqs| ==> seqs[i] < anchor)
    && (w != [] ==> (lo == 0 || b == 3) && (lo + |w| == |seqs| || |w| == b + 4))
  }

  lemma RunAround(seqs: seq<nat>, anchor: int, pos: nat, lo: nat, hi: nat)
    requires StrictlyAscending(seqs) && pos < |seqs| && seqs[pos] >= anchor
    requires forall i :: 0 <= i < pos ==> seqs[i] < anchor
    requires lo == Max(0, pos - 3) && hi == Min(|seqs|, pos + 4)
    ensures var w := seqs[lo..hi];
            && StrictlyAscending(w) && Bounds(seqs, w, anchor, pos - lo, lo)
            && forall i :: 0 <= i < |w| ==> (w[i] < anchor <==> i < pos - lo)
  {
  }

  /** The slice around an anchor, with `b` seqs below it. */
  lemma SliceAround(seqs: seq<nat>, anchor: int) returns (b: nat, lo: nat)
    requires StrictlyAscending(seqs)
    ensures var w := Slice(seqs, anchor);
            && b <= 3 && b <= |w| <= b + 4 && StrictlyAscending(w)
            && (forall i :: 0 <= i < |w| ==> (w[i] < anchor <==> i < b))
            && Bounds(seqs, w, anchor, b, lo)
  {
    var pos := AnchorPos(seqs, anchor);
    b, lo := 0, 0;
    if pos >= 0 {
      lo := Max(0, pos - 3);
      b := pos - lo;
      RunAround(seqs, anchor, pos, lo, Min(|seqs|, pos + 4));
    }
  }

  /** The seqs are those of the chat rows, and the map finds their rows. */
  ghost predicate Indexed(all: seq<Row>, chats: map<nat, Row>, seqs: seq<nat>) {
    && StrictlyAscending(seqs)
    && (forall s :: s in seqs ==> exists j: nat :: IsChatAt(all, j, s) && s in chats && chats[s] == all[j])
    && (forall j: nat, s: nat :: IsChatAt(all, j, s) ==> s in seqs)
  }

  lemma LineRepeats(all: seq<Row>, chats: map<nat, Row>, seqs: seq<nat>, s: nat, anchor: int)
    requires Indexed(all, chats, seqs) && s in seqs
    ensures RepeatsSome(Line(chats, s, anchor), all, anchor)
  {
    var j: nat :| IsChatAt(all, j, s) && s in chats && chats[s] == all[j];
    assert Repeats(Line(chats, s, anchor), all, j, anchor);
  }

  lemma WindowRepeats(all: seq<Row>, chats: map<nat, Row>, seqs: seq<nat>, anchor: int)
    requires Indexed(all, chats, seqs)
    ensures AllRepeat(all, Window(chats, seqs, anchor), anchor)
  {
    var w, slice := Window(chats, seqs, anchor), Slice(seqs, anchor);
    forall i | 0 <= i < |w| ensures RepeatsSome(w[i], all, anchor) {
      assert slice[i] in seqs;
      LineRepeats(all, chats, seqs, slice[i], anchor);
    }
  }

  lemma WindowIsCentred(chats: map<nat, Row>, seqs: seq<nat>, anchor: int, b: nat)
    requires StrictlyAscending(Slice(seqs, anchor)) && b <= 3 && b <= |Slice(seqs, anchor)| <= b + 4
    requires forall i :: 0 <= i < |Slice(seqs, anchor)| ==> (Slice(seqs, anchor)[i] < anchor <==> i < b)
    ensures Centred(Window(chats, seqs, anchor), b, anchor)
  {
    var w, slice := Window(chats, seqs, anchor), Slice(seqs, anchor);
    assert forall i :: 0 <= i < |w| ==> w[i].seqNo == slice[i];
  }

  lemma WindowIsPlaced(all: seq<Row>, chats: map<nat, Row>, seqs: seq<nat>, anchor: int, b: nat, lo: nat)
    requires Indexed(all, chats, seqs) && Bounds(seqs, Slice(seqs, anchor), anchor, b, lo)
    ensures AllPlaced(all, Window(chats, seqs, anchor), b, anchor)
  {
    forall j: nat, s: nat | IsChatAt(all, j, s) ensures Placed(Window(chats, seqs, anchor), b, anchor, s) {
      var at :| 0 <= at < |seqs| && seqs[at] == s;
      SeqIsPlaced(chats, seqs, anchor, b, lo, at);
    }
  }

  lemma WindowIsAround(all: seq<Row>, chats: map<nat, Row>, seqs: seq<nat>, anchor: int) returns (b: nat)
    requires Indexed(all, chats, seqs)
    ensures Around(all, Window(chats, seqs, anchor), b, anchor)
  {
    var lo;
    b, lo := SliceAround(seqs, anchor);
    WindowRepeats(all, chats, seqs, anchor);
    WindowIsCentred(chats, seqs, anchor, b);
    WindowIsPlaced(all, chats, seqs, anchor, b, lo);
  }

  lemma ChatsAreIndexed(all: seq<Row>)
    requires Ordered(all)
    ensures Indexed(all, ChatBySeq(all), SortedChatSeqs(all))
  {
    ChatSeqsAscend(all);
    forall s | s in SortedChatSeqs(all)
      ensures exists j: nat :: IsChatAt(all, j, s) && s in ChatBySeq(all) && ChatBySeq(all)[s] == all[j]
    {
      var j: nat :| IsChatAt(all, j, s);
      ChatBySeqGets(all, j, s);
    }
  }

  lemma SeqIsPlaced(chats: map<nat, Row>, seqs: seq<nat>, anchor: int, b: nat, lo: nat, at: nat)
    requires StrictlyAscending(seqs) && at < |seqs|
    requires Bounds(seqs, Slice(seqs, anchor), anchor, b, lo)
    ensures Placed(Window(chats, seqs, anchor), b, anchor, seqs[at])
  {
    var w, slice := Window(chats, seqs, anchor), Slice(seqs, anchor);
    assert |w| == |slice| && forall i :: 0 <= i < |w| ==> w[i].seqNo == slice[i] == seqs[lo + i];
    if lo <= at < lo + |w| {
      assert w[at - lo].seqNo == seqs[at];
    }
  }

  lemma ContextShows(all: seq<Row>, i: nat, k: Knowing)
    requires Tells(all, i, k) && k.context == []
    ensures Shows(all, i, WithContext(ChatBySeq(all), SortedChatSeqs(all), k))
  {
    if k.referencedInSeq > 0 && Ordered(all) {
      ChatsAreIndexed(all);
      var b := WindowIsAround(all, ChatBySeq(all), SortedChatSeqs(all), k.referencedInSeq);
    }
  }

  lemma WantedIffShown(k: Knowing, o: Options)
    ensures Wanted(k, o) <==> Shown(k, o)
  {
    assert k.kind.KpiGap? || k.kind.DomainGap? || k.kind.ProcessGap? || k.kind.ReactivityGap? || k.kind.PersonGap?;
  }

  lemma UnlimitedIsSound(all: seq<Row>, o: Options, x: nat) returns (i: nat)
    requires x < |Unlimited(all, o)|
    ensures Wanted(Unlimited(all, o)[x], o) && Shows(all, i, Unlimited(all, o)[x])
  {
    var confirmed, archived := ConfirmedRefs(all), ArchivedRefs(all);
    var k := ReturnedAreCollected(all, o, x);
    var pass;
    i, pass := CollectedHasRow(all, k);
    MakeTells(all, i, pass);
    ContextShows(all, i, k);
    WantedIffShown(Unlimited(all, o)[x], o);
  }

  lemma CollectedHasRow(all: seq<Row>, k: Knowing) returns (i: nat, pass: Pass)
    requires k in Collected(all)
    ensures MadeBy(all, all, k, i, pass, ConfirmedRefs(all), ArchivedRefs(all))
  {
    var confirmed, archived := ConfirmedRefs(all), ArchivedRefs(all);
    var x :| 0 <= x < |Collected(all)| && Collected(all)[x] == k;
    var gaps := Collect(all, all, Gaps, confirmed, archived);
    pass := if x < |gaps| then Gaps else Proposals;
    i := CollectSound(all, all, pass, confirmed, archived, if x < |gaps| then x else x - |gaps|);
  }

  /** The entry of a first open row is returned if it is wanted. */
  lemma FirstOpenIsReturned(all: seq<Row>, o: Options, i: nat, target: string, ref: string) returns (k: Knowing)
    requires FirstOpen(all, i, target, ref)
    ensures Shows(all, i, k) && k.targetKind == target && k.refId == ref
    ensures Wanted(k, o) ==> k in Unlimited(all, o)
  {
    var confirmed, archived := ConfirmedRefs(all), ArchivedRefs(all);
    var pass := FirstOpenIsEarliest(all, i, target, ref);
    var made := QualifyingIsReturned(all, o, i, pass);
    var j, pass' := CollectedHasRow(all, made);
    MadeFrom(all, all[j], pass', confirmed, archived);
    MadeFrom(all, all[i], pass, confirmed, archived);
    assert pass' == pass;
    assert !(i < j) && !(j < i);
    MakeTells(all, i, pass);
    k := WithContext(ChatBySeq(all), SortedChatSeqs(all), made);
    ContextShows(all, i, made);
    WantedIffShown(k, o);
    if Wanted(k, o) {
      WantedIffShown(made, o);
      var x := CollectedAreReturned(all, o, made);
    }
  }

  lemma UnlimitedDescends(all: seq<Row>, o: Options)
    ensures Descends(Unlimited(all, o))
  {
    var sorted := Sort(ShownOnly(Collected(all), o), NewestFirst);
    SortSorts(ShownOnly(Collected(all), o), NewestFirst);
    forall x, y | 0 <= x < y < |sorted| ensures sorted[x].firstSeq >= sorted[y].firstSeq {
      assert Le(NewestFirst(sorted[x]), NewestFirst(sorted[y]));
    }
  }

  /** What is cut off is no newer than what stays. */
  lemma CutIsOlder(u: seq<Knowing>, limit: nat, o: Options, k: Knowing)
    requires Descends(u)
    requires Wanted(k, o) ==> k in u
    ensures Accounted(k, o, Cut(u, limit), limit)
  {
    if Wanted(k, o) && |u| > limit {
      var x :| 0 <= x < |u| && u[x] == k;
      assert x < limit ==> u[..limit][x] == k;
    }
  }

  function Cut(u: seq<Knowing>, limit: nat): seq<Knowing> {
    if |u| <= limit then u else u[..limit]
  }

  lemma CutDescends(u: seq<Knowing>, limit: nat)
    requires Descends(u)
    ensures Descends(Cut(u, limit)) && |Cut(u, limit)| <= limit
  {
  }

  lemma CutIsSound(all: seq<Row>, o: Options, limit: nat)
    ensures Sound(all, o, Cut(Unlimited(all, o), limit))
  {
    var u := Unlimited(all, o);
    var r := Cut(u, limit);
    forall x | 0 <= x < |r| ensures Wanted(r[x], o) && exists i: nat :: Shows(all, i, r[x]) {
      var i := UnlimitedIsSound(all, o, x);
      assert r[x] == u[x];
    }
  }

  lemma CutIsComplete(all: seq<Row>, o: Options, limit: nat)
    ensures Complete(all, o, Cut(Unlimited(all, o), limit), limit)
  {
    UnlimitedDescends(all, o);
    forall i: nat, target, ref | FirstOpen(all, i, target, ref)
      ensures exists k :: Shows(all, i, k) && k.targetKind == target && k.refId == ref
                            && Accounted(k, o, Cut(Unlimited(all, o), limit), limit)
    {
      var k := FirstOpenIsReturned(all, o, i, target, ref);
      CutIsOlder(Unlimited(all, o), limit, o, k);
    }
  }

  lemma UnlimitedAnswers(all: seq<Row>, o: Options, limit: nat)
    requires LimitIs(o, limit)
    ensures Answers(all, o, Cut(Unlimited(all, o), limit), limit)
  {
    UnlimitedDescends(all, o);
    CutDescends(Unlimited(all, o), limit);
    CutIsSound(all, o, limit);
    CutIsComplete(all, o, limit);
  }

  // ---------------------------------------------------------------- a confirmation lands

  function Without(ks: seq<Knowing>, ref: string): seq<Knowing> {
    if ks == [] then []
    else if ks[|ks|-1].refId != ref then Without(ks[..|ks|-1], ref) + [ks[|ks|-1]]
    else Without(ks[..|ks|-1], ref)
  }

  lemma {:induction false} WithoutConcat(a: seq<Knowing>, b: seq<Knowing>, ref: string)
    ensures Without(a + b, ref) == Without(a, ref) + Without(b, ref)
  {
    if b == [] {
      assert a + b == a;
    } else {
      assert (a + b)[..|a + b| - 1] == a + b[..|b|-1];
      WithoutConcat(a, b[..|b|-1], ref);
    }
  }

  lemma {:induction false} SeenWithout(ks: seq<Knowing>, ref: string, t: string, r: string)
    requires r != ref
    ensures Seen(Without(ks, ref), t, r) <==> Seen(ks, t, r)
  {
    if ks != [] {
      var n := |ks| - 1;
      SeenWithout(ks[..n], ref, t, r);
      assert ks == ks[..n] + [ks[n]];
      SeenSnoc(ks[..n], ks[n], t, r);
      SeenSnoc(Without(ks[..n], ref), ks[n], t, r);
    }
  }

  /** One more confirmed reference takes exactly its entries out of the collection. */
  lemma {:induction false} CollectWithout(all: seq<Row>, rows: seq<Row>, pass: Pass, confirmed: set<string>,
                                          archived: set<string>, ref: string)
    ensures Collect(all, rows, pass, confirmed + {ref}, archived)
              == Without(Collect(all, rows, pass, confirmed, archived), ref)
  {
    if rows != [] {
      var row := rows[|rows|-1];
      var earlier := Collect(all, rows[..|rows|-1], pass, confirmed, archived);
      CollectWithout(all, rows[..|rows|-1], pass, confirmed, archived, ref);
      if Qualifies(row, pass, confirmed, archived) {
        MadeFrom(all, row, pass, confirmed, archived);
        assert (earlier + [Make(all, row)])[..|earlier|] == earlier;
        if RefOf(row) != ref {
          SeenWithout(earlier, ref, TargetOf(row), RefOf(row));
        }
      }
    }
  }

  lemma {:induction false} AudienceIgnoresOthers(rows: seq<Row>, c: Row, proposeSeq: nat, kind: string)
    requires !c.event.ExecuteProposed?
    ensures FindAudience(rows + [c], proposeSeq, kind) == FindAudience(rows, proposeSeq, kind)
  {
    if rows == [] {
      assert (rows + [c])[1..] == [];
    } else {
      assert (rows + [c])[1..] == rows[1..] + [c];
      AudienceIgnoresOthers(rows[1..], c, proposeSeq, kind);
    }
  }

  lemma {:induction false} CollectIgnoresOthers(all: seq<Row>, c: Row, rows: seq<Row>, pass: Pass,
                                          confirmed: set<string>, archived: set<string>)
    requires !c.event.ExecuteProposed?
    ensures Collect(all + [c], rows, pass, confirmed, archived) == Collect(all, rows, pass, confirmed, archived)
  {
    if rows != [] {
      var row := rows[|rows|-1];
      CollectIgnoresOthers(all, c, rows[..|rows|-1], pass, confirmed, archived);
      if row.event.Propose? {
        AudienceIgnoresOthers(all, c, row.seqNo, row.event.targetKind);
      }
    }
  }

  lemma {:induction false} ShownWithout(ks: seq<Knowing>, o: Options, ref: string)
    ensures ShownOnly(Without(ks, ref), o) == Without(ShownOnly(ks, o), ref)
  {
    if ks != [] {
      var n := |ks| - 1;
      ShownWithout(ks[..n], o, ref);
      var w, s := Without(ks[..n], ref), ShownOnly(ks[..n], o);
      assert (w + [ks[n]])[..|w|] == w && (s + [ks[n]])[..|s|] == s;
    }
  }

  lemma WithoutSnoc(s: seq<Knowing>, e: Knowing, ref: string)
    ensures Without(s + [e], ref) == if e.refId != ref then Without(s, ref) + [e] else Without(s, ref)
  {
    assert (s + [e])[..|s|] == s;
  }

  lemma {:induction false} InsertWithout(s: seq<Knowing>, e: Knowing, ref: string)
    requires Sorted(s, NewestFirst)
    ensures Without(Insert(s, e, NewestFirst), ref)
         == if e.refId != ref then Insert(Without(s, ref), e, NewestFirst) else Without(s, ref)
  {
    if s == [] || Le(NewestFirst(s[|s|-1]), NewestFirst(e)) {
      WithoutSnoc(s, e, ref);
      WithoutBelow(s, ref, e);
    } else {
      var n := |s| - 1;
      var front, last := s[..n], s[n];
      assert front + [last] == s;
      InsertWithout(front, e, ref);
      InsertBelow(front, last, e);
      WithoutSnoc(Insert(front, e, NewestFirst), last, ref);
      WithoutSnoc(front, last, ref);
      InsertBelow(Without(front, ref), last, e);
    }
  }

  lemma InsertBelow(w: seq<Knowing>, x: Knowing, e: Knowing)
    requires !Le(NewestFirst(x), NewestFirst(e))
    ensures Insert(w + [x], e, NewestFirst) == Insert(w, e, NewestFirst) + [x]
  {
    assert (w + [x])[..|w|] == w;
  }

  /** In a sorted sequence, what is left after removal is still not above what was not below. */
  lemma {:induction false} WithoutBelow(s: seq<Knowing>, ref: string, e: Knowing)
    requires Sorted(s, NewestFirst) && (s == [] || Le(NewestFirst(s[|s|-1]), NewestFirst(e)))
    ensures var w := Without(s, ref); w == [] || Le(NewestFirst(w[|w|-1]), NewestFirst(e))
  {
    if s != [] && s[|s|-1].refId == ref {
      WithoutBelow(s[..|s|-1], ref, e);
    }
  }

  lemma {:induction false} SortWithout(ks: seq<Knowing>, ref: string)
    ensures Sort(Without(ks, ref), NewestFirst) == Without(Sort(ks, NewestFirst), ref)
  {
    if ks != [] {
      var n := |ks| - 1;
      SortWithout(ks[..n], ref);
      SortSorts(ks[..n], NewestFirst);
      InsertWithout(Sort(ks[..n], NewestFirst), ks[n], ref);
      var w := Without(ks[..n], ref);
      assert (w + [ks[n]])[..|w|] == w;
    }
  }

  lemma {:induction false} ContextWithout(chats: map<nat, Row>, seqs: seq<nat>, ks: seq<Knowing>, ref: string)
    ensures AllWithContext(chats, seqs, Without(ks, ref)) == Without(AllWithContext(chats, seqs, ks), ref)
  {
    if ks != [] {
      var n := |ks| - 1;
      ContextWithout(chats, seqs, ks[..n], ref);
      var r := AllWithContext(chats, seqs, ks);
      assert r[..n] == AllWithContext(chats, seqs, ks[..n]);
      var w := Without(ks[..n], ref);
      assert AllWithContext(chats, seqs, w + [ks[n]]) == AllWithContext(chats, seqs, w) + [r[n]];
    }
  }

  /** Appending a row that confirms a reference removes from the result, before the limit, exactly
      the entries with that reference, and changes nothing else. */
  lemma ConfirmationRemovesItsReference(all: seq<Row>, c: Row, ref: string, o: Options)
    requires ConfirmedBy(c.event) == {ref}
    ensures Unlimited(all + [c], o) == Without(Unlimited(all, o), ref)
  {
    var more := all + [c];
    assert more[..|more|-1] == all;
    assert c.event.Confirm? || c.event.GapResolved?;
    var confirmed, archived := ConfirmedRefs(all), ArchivedRefs(all);
    CollectedWithConfirmation(all, c, Gaps, ref);
    CollectedWithConfirmation(all, c, Proposals, ref);
    WithoutConcat(Collect(all, all, Gaps, confirmed, archived), Collect(all, all, Proposals, confirmed, archived), ref);
    ShownWithout(Collected(all), o, ref);
    SortWithout(ShownOnly(Collected(all), o), ref);
    ContextWithout(ChatBySeq(all), SortedChatSeqs(all), Sort(ShownOnly(Collected(all), o), NewestFirst), ref);
  }

  lemma CollectedWithConfirmation(all: seq<Row>, c: Row, pass: Pass, ref: string)
    requires ConfirmedBy(c.event) == {ref} && (c.event.Confirm? || c.event.GapResolved?)
    ensures Collect(all + [c], all + [c], pass, ConfirmedRefs(all + [c]), ArchivedRefs(all + [c]))
         == Without(Collect(all, all, pass, ConfirmedRefs(all), ArchivedRefs(all)), ref)
  {
    var more := all + [c];
    assert more[..|more|-1] == all && more[|more|-1] == c;
    assert ConfirmedRefs(more) == ConfirmedRefs(all) + {ref};
    assert ArchivedRefs(more) == ArchivedRefs(all);
    CollectIgnoresOthers(all, c, all, pass, ConfirmedRefs(more), ArchivedRefs(more));
    CollectWithout(all, all, pass, ConfirmedRefs(all), ArchivedRefs(all), ref);
  }

  // ---------------------------------------------------------------- the chat window

  lemma {:induction false} ChatSeqAt(rows: seq<Row>, k: nat) returns (i: nat)
    requires k < |ChatSeqs(rows)|
    ensures IsChatAt(rows, i, ChatSeqs(rows)[k])
  {
    var n := |rows| - 1;
    if k < |ChatSeqs(rows[..n])| {
      i := ChatSeqAt(rows[..n], k);
    } else {
      i := n;
    }
  }

  lemma {:induction false} ChatSeqsSpec(rows: seq<Row>)
    requires Ordered(rows)
    ensures StrictlyAscending(ChatSeqs(rows))
    ensures forall i :: 0 <= i < |rows| && rows[i].event.Chat? ==> rows[i].seqNo in ChatSeqs(rows)
  {
    if rows != [] {
      var n := |rows| - 1;
      ChatSeqsSpec(rows[..n]);
      forall k | 0 <= k < |ChatSeqs(rows[..n])| ensures ChatSeqs(rows[..n])[k] < rows[n].seqNo {
        var i := ChatSeqAt(rows[..n], k);
      }
    }
  }

  ghost predicate StrictlyAscending(s: seq<nat>) {
    forall i, j :: 0 <= i < j < |s| ==> s[i] < s[j]
  }

  /** The sorted chat seqs are the seqs of the chat rows, ascending. */
  lemma ChatSeqsAscend(rows: seq<Row>)
    requires Ordered(rows)
    ensures StrictlyAscending(SortedChatSeqs(rows))
    ensures forall s :: s in SortedChatSeqs(rows) ==> exists i: nat :: IsChatAt(rows, i, s)
    ensures forall i :: 0 <= i < |rows| && rows[i].event.Chat? ==> rows[i].seqNo in SortedChatSeqs(rows)
  {
    ChatSeqsSpec(rows);
    SortOfSorted(ChatSeqs(rows), BySeq);
    forall s | s in ChatSeqs(rows) ensures exists i: nat :: IsChatAt(rows, i, s) {
      var k :| 0 <= k < |ChatSeqs(rows)| && ChatSeqs(rows)[k] == s;
      var i := ChatSeqAt(rows, k);
    }
  }

  ghost predicate RunsFrom(w: seq<ChatLine>, seqs: seq<nat>, lo: nat) {
    lo + |w| <= |seqs| && forall i :: 0 <= i < |w| ==> w[i].seqNo == seqs[lo + i]
  }

  /** A window is a run of at most seven consecutive chat seqs; it is empty only when every chat seq
      is below the anchor. */
  lemma WindowIsARun(chats: map<nat, Row>, seqs: seq<nat>, anchor: int) returns (lo: nat)
    ensures |Window(chats, seqs, anchor)| <= 7 && RunsFrom(Window(chats, seqs, anchor), seqs, lo)
    ensures Window(chats, seqs, anchor) == [] <==> forall i :: 0 <= i < |seqs| ==> seqs[i] < anchor
  {
    var pos := AnchorPos(seqs, anchor);
    lo := if pos < 0 then 0 else Max(0, pos - 3);
  }

  lemma FlagIsTheSeq(chats: map<nat, Row>, seqs: seq<nat>, anchor: int)
    ensures var w := Window(chats, seqs, anchor);
            forall i :: 0 <= i < |w| ==> (w[i].isAnchor <==> w[i].seqNo == anchor) && w[i].seqNo in seqs
  {
    var slice := Slice(seqs, anchor);
    assert forall i :: 0 <= i < |slice| ==> slice[i] in seqs;
  }

  lemma CentredFlagsApart(w: seq<ChatLine>, b: nat, anchor: int)
    requires Centred(w, b, anchor)
    requires forall i :: 0 <= i < |w| ==> (w[i].isAnchor <==> w[i].seqNo == anchor)
    ensures forall i, j :: 0 <= i < j < |w| ==> !(w[i].isAnchor && w[j].isAnchor)
  {
  }

  /** The window flags the anchor, and nothing else, exactly once if the anchor is a chat seq, and
      flags nothing otherwise. */
  lemma AnchorFlaggedOnce(chats: map<nat, Row>, seqs: seq<nat>, anchor: int)
    requires StrictlyAscending(seqs)
    ensures var w := Window(chats, seqs, anchor);
            && (forall i, j :: 0 <= i < j < |w| ==> !(w[i].isAnchor && w[j].isAnchor))
            && (forall i :: 0 <= i < |w| ==> (w[i].isAnchor <==> w[i].seqNo == anchor))
            && ((exists i :: 0 <= i < |w| && w[i].isAnchor) <==> anchor in seqs)
  {
    var w := Window(chats, seqs, anchor);
    var b, lo := SliceAround(seqs, anchor);
    FlagIsTheSeq(chats, seqs, anchor);
    WindowIsCentred(chats, seqs, anchor, b);
    CentredFlagsApart(w, b, anchor);
    if anchor in seqs {
      var pos := AnchorPos(seqs, anchor);
      assert seqs[pos] == anchor;
      assert w[pos - Max(0, pos - 3)].seqNo == anchor;
    }
  }
}
