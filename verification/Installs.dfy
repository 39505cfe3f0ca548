/** `getInstalls` (apps/dashboard/lib/ledger-client.ts): one mutable row per completed install,
    reachable both from the map by platform and from the map by install id.

    A completion whose id or platform is missing or empty is skipped, as in the source.  The
    resolution of installer names from the people projection is not part of this model. */
module Installs {
  import opened Sequences
  import opened Sorting

  datatype Mode = Wizard | Bot

  datatype Event =
    | Completed(installId: string, platform: string, installer: Option<string>, scopes: seq<string>,
                botUserId: Option<string>, grantRef: string)
    | Revoke(revokedId: string)
    | SetupModeChosen(mode: Option<Mode>)
    | SetupCompleted

  datatype Row = Row(ts: int, hash: string, event: Event)

  datatype Status = Active | Revoked

  datatype Pairing = Connected | Disconnected | Paired | Expired

  datatype Info = Info(installId: string, platform: string, installer: Option<string>, scopes: seq<string>,
                       botUserId: Option<string>, grantRef: string, installedAt: int, receiptHash: string,
                       owner: string)

  class InstallRow {
    const info: Info
    var status: Status
    var pairing: Pairing
    var setupMode: Option<Mode>
    var setupCompletedAt: Option<int>

    constructor (info: Info, setupMode: Option<Mode>, setupCompletedAt: Option<int>)
      ensures this.info == info && status == Active && pairing == PairingOf(info.platform, Active)
      ensures this.setupMode == setupMode && this.setupCompletedAt == setupCompletedAt
    {
      this.info := info;
      status := Active;
      pairing := if info.platform == "whatsapp" then Paired else Connected;
      this.setupMode := setupMode;
      this.setupCompletedAt := setupCompletedAt;
    }
  }

  function PairingOf(platform: string, status: Status): Pairing {
    match status
    case Active => if platform == "whatsapp" then Paired else Connected
    case Revoked => if platform == "whatsapp" then Expired else Disconnected
  }

  predicate IsCompletion(r: Row) {
    r.event.Completed? && r.event.installId != "" && r.event.platform != ""
  }

  function Describe(r: Row): Info
    requires r.event.Completed?
  {
    var e := r.event;
    Info(e.installId, e.platform, e.installer, e.scopes, e.botUserId, e.grantRef, r.ts,
         if |r.hash| <= 12 then r.hash else r.hash[..12], if e.installer.Some? then e.installer.value else "system")
  }

  datatype View = View(info: Info, status: Status, pairing: Pairing, setupMode: Option<Mode>,
                       setupCompletedAt: Option<int>)

  // ---------------------------------------------------------------- what a row owes the history

  /** Row `c` completes an install of the platform under the id; one without id or platform is no install. */
  ghost predicate Completes(es: seq<Row>, c: nat, id: string, platform: string) {
    && c < |es| && es[c].event.Completed? && id != "" && platform != ""
    && es[c].event.installId == id && es[c].event.platform == platform
  }

  ghost predicate CompletedOn(es: seq<Row>, platform: string) {
    exists c: nat, id :: Completes(es, c, id, platform)
  }

  /** The last completion of the platform. */
  ghost predicate CompletesLast(es: seq<Row>, c: nat, id: string, platform: string) {
    Completes(es, c, id, platform) && forall k: nat, other :: c < k ==> !Completes(es, k, other, platform)
  }

  /** A later row revokes the id before another completion takes it over. */
  ghost predicate RevokedLater(es: seq<Row>, c: nat, id: string) {
    exists j :: c < j < |es| && es[j].event == Revoke(id) && Untaken(es, c, j, id)
  }

  ghost predicate Untaken(es: seq<Row>, c: nat, j: int, id: string) {
    forall k: nat, platform :: c < k < j ==> !Completes(es, k, id, platform)
  }

  ghost predicate CompletedBefore(es: seq<Row>, platform: string, j: int) {
    exists f: nat, id :: f < j && Completes(es, f, id, platform)
  }

  ghost predicate LastModeRow(es: seq<Row>, j: int) {
    0 <= j < |es| && es[j].event.SetupModeChosen? && forall k :: j < k < |es| ==> !es[k].event.SetupModeChosen?
  }

  ghost predicate LastDoneRow(es: seq<Row>, j: int) {
    0 <= j < |es| && es[j].event.SetupCompleted? && forall k :: j < k < |es| ==> !es[k].event.SetupCompleted?
  }

  /** What the last setup row of a kind says, unless the platform was completed only after it. */
  ghost predicate ModeTells(es: seq<Row>, platform: string, mode: Option<Mode>) {
    && (forall j :: LastModeRow(es, j) ==> mode == if CompletedBefore(es, platform, j) then es[j].event.mode else None)
    && ((forall j :: 0 <= j < |es| ==> !es[j].event.SetupModeChosen?) ==> mode == None)
  }

  ghost predicate CompletedAtTells(es: seq<Row>, platform: string, at: Option<int>) {
    && (forall j :: LastDoneRow(es, j) ==> at == if CompletedBefore(es, platform, j) then Some(es[j].ts) else None)
    && ((forall j :: 0 <= j < |es| ==> !es[j].event.SetupCompleted?) ==> at == None)
  }

  ghost predicate InfoTells(info: Info, r: Row)
    requires r.event.Completed?
  {
    && info.installId == r.event.installId && info.platform == r.event.platform
    && info.installer == r.event.installer && info.scopes == r.event.scopes
    && info.botUserId == r.event.botUserId && info.grantRef == r.event.grantRef && info.installedAt == r.ts
    && info.receiptHash <= r.hash && |info.receiptHash| == Min(12, |r.hash|)
    && (if r.event.installer == None then info.owner == "system" else Some(info.owner) == r.event.installer)
  }

  ghost predicate PairingTells(pairing: Pairing, platform: string, revoked: bool) {
    && (pairing == Paired <==> platform == "whatsapp" && !revoked)
    && (pairing == Expired <==> platform == "whatsapp" && revoked)
    && (pairing == Connected <==> platform != "whatsapp" && !revoked)
    && (pairing == Disconnected <==> platform != "whatsapp" && revoked)
  }

  /** What is shown tells of row `c`, the last completion of its platform. */
  ghost predicate TellsOf(es: seq<Row>, c: nat, v: View) {
    && CompletesLast(es, c, v.info.installId, v.info.platform) && InfoTells(v.info, es[c])
    && (v.status == Revoked <==> RevokedLater(es, c, v.info.installId))
    && PairingTells(v.pairing, v.info.platform, v.status == Revoked)
    && ModeTells(es, v.info.platform, v.setupMode) && CompletedAtTells(es, v.info.platform, v.setupCompletedAt)
  }

  ghost predicate InstallTells(es: seq<Row>, v: View) {
    exists c: nat :: TellsOf(es, c, v)
  }

  // ---------------------------------------------------------------- the history

  function LastCompletion(es: seq<Row>, platform: string): (c: Option<nat>)
    ensures c.Some? ==> c.value < |es| && IsCompletion(es[c.value]) && es[c.value].event.platform == platform
  {
    if es == [] then None
    else
      var n := |es| - 1;
      if IsCompletion(es[n]) && es[n].event.platform == platform then Some(n) else LastCompletion(es[..n], platform)
  }

  function LastOfId(es: seq<Row>, id: string): (c: Option<nat>)
    ensures c.Some? ==> c.value < |es| && IsCompletion(es[c.value]) && es[c.value].event.installId == id
  {
    if es == [] then None
    else
      var n := |es| - 1;
      if IsCompletion(es[n]) && es[n].event.installId == id then Some(n) else LastOfId(es[..n], id)
  }

  /** The platforms completed, in order of their first completion. */
  function Platforms(es: seq<Row>): seq<string> {
    if es == [] then []
    else
      var n := |es| - 1;
      Platforms(es[..n])
      + if IsCompletion(es[n]) && LastCompletion(es[..n], es[n].event.platform).None? then [es[n].event.platform]
          else []
  }

  /** Some revoke named the id of completion `c` while `c` was the latest completion of that id. */
  predicate RevokedAt(es: seq<Row>, c: nat) {
    es != [] &&
    var n := |es| - 1;
    RevokedAt(es[..n], c) || (es[n].event.Revoke? && LastOfId(es[..n], es[n].event.revokedId) == Some(c))
  }

  /** The mode chosen last while the platform had been completed at least once. */
  function SetupMode(es: seq<Row>, platform: string): Option<Mode> {
    if es == [] then None
    else
      var n := |es| - 1;
      if es[n].event.SetupModeChosen? && LastCompletion(es[..n], platform).Some? then es[n].event.mode
      else SetupMode(es[..n], platform)
  }

  function SetupCompletedAt(es: seq<Row>, platform: string): Option<int> {
    if es == [] then None
    else
      var n := |es| - 1;
      if es[n].event.SetupCompleted? && LastCompletion(es[..n], platform).Some? then Some(es[n].ts)
      else SetupCompletedAt(es[..n], platform)
  }

  // ---------------------------------------------------------------- the rows against the history

  datatype Maps = Maps(order: seq<string>, byPlatform: map<string, InstallRow>, byInstallId: map<string, InstallRow>)

  /** `objects` is the object made for each completion so far; both maps lead to those objects. */
  ghost predicate Linked(es: seq<Row>, m: Maps, objects: map<nat, InstallRow>) {
    && m.order == Platforms(es)
    && (forall c: nat :: c in objects <==> c < |es| && IsCompletion(es[c]))
    && (forall c :: c in objects ==> objects[c].info == Describe(es[c]))
    && (forall c, d :: c in objects && d in objects && objects[c] == objects[d] ==> c == d)
    && (forall p :: Leads(m.byPlatform, p, LastCompletion(es, p), objects))
    && (forall id :: Leads(m.byInstallId, id, LastOfId(es, id), objects))
  }

  ghost predicate Leads(m: map<string, InstallRow>, key: string, c: Option<nat>, objects: map<nat, InstallRow>) {
    && (key in m <==> c.Some?)
    && (c.Some? ==> c.value in objects && m[key] == objects[c.value])
  }

  ghost predicate StatusesRight(es: seq<Row>, objects: map<nat, InstallRow>)
    reads objects.Values
  {
    forall c :: c in objects ==> StatusRight(objects[c], if RevokedAt(es, c) then Revoked else Active)
  }

  ghost predicate StatusRight(r: InstallRow, status: Status)
    reads r
  {
    r.status == status && r.pairing == PairingOf(r.info.platform, status)
  }

  ghost predicate SetupsRight(es: seq<Row>, byPlatform: map<string, InstallRow>)
    reads byPlatform.Values
  {
    forall p :: p in byPlatform ==>
      byPlatform[p].setupMode == SetupMode(es, p) && byPlatform[p].setupCompletedAt == SetupCompletedAt(es, p)
  }

  lemma {:induction false} PlatformsSpec(es: seq<Row>)
    ensures Distinct(Platforms(es))
    ensures forall p :: p in Platforms(es) <==> LastCompletion(es, p).Some?
  {
    if es != [] {
      PlatformsSpec(es[..|es|-1]);
    }
  }

  lemma {:induction false} NoRevokeBefore(es: seq<Row>, c: nat)
    requires c >= |es|
    ensures !RevokedAt(es, c)
    decreases |es|
  {
    if es != [] {
      NoRevokeBefore(es[..|es|-1], c);
    }
  }

  // ---------------------------------------------------------------- one event at a time

  /** The history grown by one row. */
  lemma Grow(es: seq<Row>, row: Row)
    ensures var n := |es|; (es + [row])[..n] == es && (es + [row])[n] == row
  {
  }

  lemma LinkedAfterCompletion(es: seq<Row>, row: Row, m: Maps, objects: map<nat, InstallRow>, made: InstallRow)
    requires Linked(es, m, objects) && IsCompletion(row)
    requires made.info == Describe(row) && made !in objects.Values
    ensures var platform := row.event.platform;
            Linked(es + [row],
                   Maps(if platform in m.byPlatform then m.order else m.order + [platform],
                        m.byPlatform[platform := made], m.byInstallId[row.event.installId := made]),
                   objects[|es| := made])
  {
    Grow(es, row);
    assert Leads(m.byPlatform, row.event.platform, LastCompletion(es, row.event.platform), objects);
    var objects' := objects[|es| := made];
    forall p ensures Leads(m.byPlatform[row.event.platform := made], p, LastCompletion(es + [row], p), objects') {
      assert Leads(m.byPlatform, p, LastCompletion(es, p), objects);
    }
    forall id ensures Leads(m.byInstallId[row.event.installId := made], id, LastOfId(es + [row], id), objects') {
      assert Leads(m.byInstallId, id, LastOfId(es, id), objects);
    }
  }

  lemma LinkedAfterOther(es: seq<Row>, row: Row, m: Maps, objects: map<nat, InstallRow>)
    requires Linked(es, m, objects) && !IsCompletion(row)
    ensures Linked(es + [row], m, objects)
  {
    Grow(es, row);
    forall p ensures Leads(m.byPlatform, p, LastCompletion(es + [row], p), objects) {
      assert Leads(m.byPlatform, p, LastCompletion(es, p), objects);
    }
    forall id ensures Leads(m.byInstallId, id, LastOfId(es + [row], id), objects) {
      assert Leads(m.byInstallId, id, LastOfId(es, id), objects);
    }
  }

  method OnCompleted(row: Row, m: Maps, ghost es: seq<Row>, ghost objects: map<nat, InstallRow>)
    returns (m': Maps, made: InstallRow)
    requires IsCompletion(row) && Linked(es, m, objects)
    requires StatusesRight(es, objects) && SetupsRight(es, m.byPlatform)
    ensures fresh(made) && Linked(es + [row], m', objects[|es| := made])
    ensures StatusesRight(es + [row], objects[|es| := made]) && SetupsRight(es + [row], m'.byPlatform)
  {
    var platform := row.event.platform;
    var known := platform in m.byPlatform;
    made := new InstallRow(Describe(row), if known then m.byPlatform[platform].setupMode else None,
                           if known then m.byPlatform[platform].setupCompletedAt else None);
    m' := Maps(if known then m.order else m.order + [platform],
               m.byPlatform[platform := made], m.byInstallId[row.event.installId := made]);
    LinkedAfterCompletion(es, row, m, objects, made);
    StatusesAfterCompletion(es, row, objects, made);
    SetupsAfterCompletion(es, row, m, objects, made);
  }

  lemma StatusesAfterCompletion(es: seq<Row>, row: Row, objects: map<nat, InstallRow>, made: InstallRow)
    requires IsCompletion(row) && StatusesRight(es, objects) && StatusRight(made, Active)
    requires |es| !in objects
    ensures StatusesRight(es + [row], objects[|es| := made])
  {
    Grow(es, row);
    NoRevokeBefore(es, |es|);
    forall c | c in objects[|es| := made]
      ensures StatusRight(objects[|es| := made][c], if RevokedAt(es + [row], c) then Revoked else Active)
    {
      if c != |es| {
        assert c in objects;
      }
    }
  }

  lemma SetupsAfterCompletion(es: seq<Row>, row: Row, m: Maps, objects: map<nat, InstallRow>, made: InstallRow)
    requires IsCompletion(row) && Linked(es, m, objects) && SetupsRight(es, m.byPlatform)
    requires var platform := row.event.platform;
             if platform in m.byPlatform
             then made.setupMode == m.byPlatform[platform].setupMode
                  && made.setupCompletedAt == m.byPlatform[platform].setupCompletedAt
             else made.setupMode.None? && made.setupCompletedAt.None?
    ensures SetupsRight(es + [row], m.byPlatform[row.event.platform := made])
  {
    Grow(es, row);
    NoSetupBefore(es, row.event.platform);
    assert Leads(m.byPlatform, row.event.platform, LastCompletion(es, row.event.platform), objects);
  }

  lemma {:induction false} NoSetupBefore(es: seq<Row>, platform: string)
    ensures LastCompletion(es, platform).None? ==> SetupMode(es, platform).None? && SetupCompletedAt(es, platform).None?
  {
    if es != [] {
      NoSetupBefore(es[..|es|-1], platform);
    }
  }

  method OnRevoked(row: Row, m: Maps, ghost es: seq<Row>, ghost objects: map<nat, InstallRow>)
    requires row.event.Revoke? && Linked(es, m, objects)
    requires StatusesRight(es, objects) && SetupsRight(es, m.byPlatform)
    modifies objects.Values
    ensures StatusesRight(es + [row], objects) && SetupsRight(es + [row], m.byPlatform)
  {
    var id := row.event.revokedId;
    assert Leads(m.byInstallId, id, LastOfId(es, id), objects);
    Grow(es, row);
    if id in m.byInstallId {
      var target := m.byInstallId[id];
      target.status := Revoked;
      target.pairing := if target.info.platform == "whatsapp" then Expired else Disconnected;
    }
  }

  /** `for (const inst of byPlatform.values()) inst.setupMode = mode`. */
  method StampMode(m: Maps, mode: Option<Mode>, ghost es: seq<Row>, ghost objects: map<nat, InstallRow>)
    requires forall p :: p in m.order <==> p in m.byPlatform
    requires StatusesRight(es, objects)
    modifies m.byPlatform.Values`setupMode
    ensures StatusesRight(es, objects)
    ensures forall p :: p in m.byPlatform ==> m.byPlatform[p].setupMode == mode
  {
    for k := 0 to |m.order|
      invariant StatusesRight(es, objects)
      invariant forall j :: 0 <= j < k ==> m.byPlatform[m.order[j]].setupMode == mode
    {
      assert m.order[k] in m.order;
      m.byPlatform[m.order[k]].setupMode := mode;
    }
  }

  method StampCompletedAt(m: Maps, ts: int, ghost es: seq<Row>, ghost objects: map<nat, InstallRow>)
    requires forall p :: p in m.order <==> p in m.byPlatform
    requires StatusesRight(es, objects)
    modifies m.byPlatform.Values`setupCompletedAt
    ensures StatusesRight(es, objects)
    ensures forall p :: p in m.byPlatform ==> m.byPlatform[p].setupCompletedAt == Some(ts)
  {
    for k := 0 to |m.order|
      invariant StatusesRight(es, objects)
      invariant forall j :: 0 <= j < k ==> m.byPlatform[m.order[j]].setupCompletedAt == Some(ts)
    {
      assert m.order[k] in m.order;
      m.byPlatform[m.order[k]].setupCompletedAt := Some(ts);
    }
  }

  lemma OrderCovers(es: seq<Row>, m: Maps, objects: map<nat, InstallRow>)
    requires Linked(es, m, objects)
    ensures forall p :: p in m.order <==> p in m.byPlatform
    ensures forall p :: p in m.byPlatform ==> LastCompletion(es, p).Some? && m.byPlatform[p] in objects.Values
  {
    PlatformsSpec(es);
    forall p ensures p in m.order <==> p in m.byPlatform
      ensures p in m.byPlatform ==> LastCompletion(es, p).Some? && m.byPlatform[p] in objects.Values
    {
      assert Leads(m.byPlatform, p, LastCompletion(es, p), objects);
    }
  }

  method OnModeChosen(row: Row, m: Maps, ghost es: seq<Row>, ghost objects: map<nat, InstallRow>)
    requires row.event.SetupModeChosen? && (forall p :: p in m.order <==> p in m.byPlatform)
    requires forall p :: p in m.byPlatform ==> LastCompletion(es, p).Some?
    requires StatusesRight(es, objects) && SetupsRight(es, m.byPlatform)
    modifies m.byPlatform.Values`setupMode
    ensures StatusesRight(es + [row], objects) && SetupsRight(es + [row], m.byPlatform)
  {
    StampMode(m, row.event.mode, es, objects);
    Grow(es, row);
  }

  method OnSetupCompleted(row: Row, m: Maps, ghost es: seq<Row>, ghost objects: map<nat, InstallRow>)
    requires row.event.SetupCompleted? && (forall p :: p in m.order <==> p in m.byPlatform)
    requires forall p :: p in m.byPlatform ==> LastCompletion(es, p).Some?
    requires StatusesRight(es, objects) && SetupsRight(es, m.byPlatform)
    modifies m.byPlatform.Values`setupCompletedAt
    ensures StatusesRight(es + [row], objects) && SetupsRight(es + [row], m.byPlatform)
  {
    StampCompletedAt(m, row.ts, es, objects);
    Grow(es, row);
  }

  // ---------------------------------------------------------------- the whole fold

  /** What the row of a platform must say after the history `es`. */
  function Expected(es: seq<Row>, platform: string): View
    requires LastCompletion(es, platform).Some?
  {
    var c := LastCompletion(es, platform).value;
    var status := if RevokedAt(es, c) then Revoked else Active;
    View(Describe(es[c]), status, PairingOf(platform, status), SetupMode(es, platform), SetupCompletedAt(es, platform))
  }

  ghost function Read(r: InstallRow): View
    reads r
  {
    View(r.info, r.status, r.pairing, r.setupMode, r.setupCompletedAt)
  }

  ghost predicate Folded(es: seq<Row>, m: Maps, objects: map<nat, InstallRow>)
    reads objects.Values, m.byPlatform.Values
  {
    Linked(es, m, objects) && StatusesRight(es, objects) && SetupsRight(es, m.byPlatform)
  }

  /** The body of the loop for rows that make no object. */
  method OnOther(row: Row, m: Maps, ghost es: seq<Row>, ghost objects: map<nat, InstallRow>)
    requires Folded(es, m, objects) && !IsCompletion(row)
    modifies objects.Values
    ensures Folded(es + [row], m, objects)
  {
    LinkedAfterOther(es, row, m, objects);
    OrderCovers(es, m, objects);
    match row.event
    case Completed(_, _, _, _, _, _) =>
      Grow(es, row);
    case Revoke(_) =>
      OnRevoked(row, m, es, objects);
    case SetupModeChosen(_) =>
      OnModeChosen(row, m, es, objects);
    case SetupCompleted =>
      OnSetupCompleted(row, m, es, objects);
  }

  /** `Array.from(byPlatform.values())`. */
  method Values(m: Maps) returns (installs: seq<InstallRow>)
    requires forall p :: p in m.order ==> p in m.byPlatform
    ensures |installs| == |m.order|
    ensures forall j :: 0 <= j < |installs| ==> m.order[j] in m.byPlatform && installs[j] == m.byPlatform[m.order[j]]
  {
    installs := [];
    for k := 0 to |m.order|
      invariant |installs| == k
      invariant forall j :: 0 <= j < k ==> m.order[j] in m.byPlatform && installs[j] == m.byPlatform[m.order[j]]
    {
      assert m.order[k] in m.order;
      installs := installs + [m.byPlatform[m.order[k]]];
    }
  }

  /** The body of the loop. */
  method OnRow(row: Row, m: Maps, ghost es: seq<Row>, ghost objects: map<nat, InstallRow>)
    returns (m': Maps, ghost objects': map<nat, InstallRow>)
    requires Folded(es, m, objects)
    modifies objects.Values
    ensures Folded(es + [row], m', objects')
    ensures fresh(objects'.Values - objects.Values)
  {
    m', objects' := m, objects;
    if IsCompletion(row) {
      var made;
      m', made := OnCompleted(row, m, es, objects);
      objects' := objects[|es| := made];
      assert objects'.Values - objects.Values <= {made};
    } else {
      OnOther(row, m, es, objects);
    }
  }

  method FoldRows(es: seq<Row>) returns (m: Maps, ghost objects: map<nat, InstallRow>)
    ensures Folded(es, m, objects)
  {
    m, objects := Maps([], map[], map[]), map[];
    for i := 0 to |es|
      invariant Folded(es[..i], m, objects)
      invariant fresh(objects.Values)
    {
      m, objects := OnRow(es[i], m, es[..i], objects);
      assert es[..i+1] == es[..i] + [es[i]];
    }
    assert es[..|es|] == es;
  }

  function ByPlatform(collate: string -> int): InstallRow -> Key {
    (r: InstallRow) => Key(collate(r.info.platform), 0)
  }

  /** The rows in order of their platforms, one for each platform that was ever completed, each telling of
      the platform's last completion and of what befell it. */
  method GetInstalls(es: seq<Row>, collate: string -> int) returns (installs: seq<InstallRow>)
    ensures forall p :: CompletedOn(es, p) <==> exists k :: 0 <= k < |installs| && installs[k].info.platform == p
    ensures Apart(installs) && Collated(installs, collate)
    ensures forall k :: 0 <= k < |installs| ==> Says(es, installs[k])
  {
    var m;
    ghost var objects;
    m, objects := FoldRows(es);
    OrderCovers(es, m, objects);
    var rows := Values(m);
    RowsSay(es, m, objects, rows);
    installs := Sort(rows, ByPlatform(collate));
    PlatformsSpec(es);
    SortedPlatforms(rows, collate, m.order);
    forall p ensures CompletedOn(es, p) <==> p in m.order {
      CompletedIffLast(es, p);
    }
  }

  /** The row tells of its platform's last completion, and what the history says. */
  ghost predicate Says(es: seq<Row>, r: InstallRow)
    reads r
  {
    && LastCompletion(es, r.info.platform).Some? && Read(r) == Expected(es, r.info.platform)
    && InstallTells(es, Read(r))
  }

  lemma RowsSay(es: seq<Row>, m: Maps, objects: map<nat, InstallRow>, rows: seq<InstallRow>)
    requires Folded(es, m, objects) && |rows| == |m.order|
    requires forall j :: 0 <= j < |rows| ==> m.order[j] in m.byPlatform && rows[j] == m.byPlatform[m.order[j]]
    ensures forall k :: 0 <= k < |rows| ==> rows[k].info.platform == m.order[k] && Says(es, rows[k])
  {
    forall k | 0 <= k < |rows| ensures rows[k].info.platform == m.order[k] && Says(es, rows[k]) {
      ReadIsExpected(es, m, objects, m.order[k]);
      ExpectedTells(es, m.order[k]);
    }
  }

  ghost predicate Apart(rows: seq<InstallRow>) {
    forall i, j :: 0 <= i < j < |rows| ==> rows[i].info.platform != rows[j].info.platform
  }

  ghost predicate Collated(rows: seq<InstallRow>, collate: string -> int) {
    forall i, j :: 0 <= i < j < |rows| ==> collate(rows[i].info.platform) <= collate(rows[j].info.platform)
  }

  ghost predicate Within(a: seq<InstallRow>, b: seq<InstallRow>) {
    forall i :: 0 <= i < |a| ==> a[i] in b
  }

  lemma {:induction false} InsertApart(s: seq<InstallRow>, e: InstallRow, key: InstallRow -> Key)
    requires Apart(s) && forall i :: 0 <= i < |s| ==> s[i].info.platform != e.info.platform
    ensures var r := Insert(s, e, key); Apart(r) && Within(r, s + [e]) && Within(s + [e], r)
  {
    var r := Insert(s, e, key);
    if s != [] && !Le(key(s[|s|-1]), key(e)) {
      var n := |s| - 1;
      var front := Insert(s[..n], e, key);
      InsertApart(s[..n], e, key);
      forall i | 0 <= i < |front| ensures front[i] in s + [e] && front[i].info.platform != s[n].info.platform {
        assert front[i] in s[..n] + [e];
      }
      forall i | 0 <= i <= |s| ensures (s + [e])[i] in r {
        assert i < n ==> (s[..n] + [e])[i] in front;
        assert i == n ==> r[|r|-1] == s[n];
        assert i == |s| ==> (s[..n] + [e])[n] in front;
      }
    }
  }

  lemma {:induction false} SortApart(rows: seq<InstallRow>, key: InstallRow -> Key)
    requires Apart(rows)
    ensures var r := Sort(rows, key); Apart(r) && Within(r, rows) && Within(rows, r)
  {
    if rows != [] {
      var n := |rows| - 1;
      var front := Sort(rows[..n], key);
      SortApart(rows[..n], key);
      assert rows == rows[..n] + [rows[n]];
      forall i | 0 <= i < n ensures front[i].info.platform != rows[n].info.platform {
        assert front[i] in rows[..n];
      }
      InsertApart(front, rows[n], key);
      WithinBoth(rows, front, Sort(rows, key));
    }
  }

  lemma WithinBoth(rows: seq<InstallRow>, front: seq<InstallRow>, r: seq<InstallRow>)
    requires rows != [] && Within(front, rows[..|rows|-1]) && Within(rows[..|rows|-1], front)
    requires Within(r, front + [rows[|rows|-1]]) && Within(front + [rows[|rows|-1]], r)
    ensures Within(r, rows) && Within(rows, r)
  {
    var n := |rows| - 1;
    forall i | 0 <= i < |r| ensures r[i] in rows {
      assert r[i] in front + [rows[n]];
      if r[i] in front {
        assert r[i] in rows[..n];
      }
    }
    forall i | 0 <= i < |rows| ensures rows[i] in r {
      if i < n {
        assert rows[..n][i] in front;
        var k :| 0 <= k < |front| && front[k] == rows[i];
        assert (front + [rows[n]])[k] in r;
      } else {
        assert (front + [rows[n]])[|front|] in r;
      }
    }
  }

  /** Sorting rows of distinct platforms by platform. */
  lemma SortedPlatforms(rows: seq<InstallRow>, collate: string -> int, order: seq<string>)
    requires |rows| == |order| && Distinct(order)
    requires forall k :: 0 <= k < |rows| ==> rows[k].info.platform == order[k]
    ensures var s := Sort(rows, ByPlatform(collate));
            && Apart(s) && Collated(s, collate) && Within(s, rows)
            && (forall p :: p in order <==> exists k :: 0 <= k < |s| && s[k].info.platform == p)
  {
    var s := Sort(rows, ByPlatform(collate));
    SortApart(rows, ByPlatform(collate));
    SortSorts(rows, ByPlatform(collate));
    forall p | p in order ensures exists k :: 0 <= k < |s| && s[k].info.platform == p {
      var i :| 0 <= i < |order| && order[i] == p;
      assert rows[i] in s;
    }
    forall j, k | 0 <= j < k < |s| ensures collate(s[j].info.platform) <= collate(s[k].info.platform) {
      assert Le(ByPlatform(collate)(s[j]), ByPlatform(collate)(s[k]));
    }
    forall k | 0 <= k < |s| ensures s[k].info.platform in order {
      assert s[k] in rows;
    }
  }

  lemma ReadIsExpected(es: seq<Row>, m: Maps, objects: map<nat, InstallRow>, p: string)
    requires Folded(es, m, objects) && p in m.order
    ensures p in m.byPlatform && m.byPlatform[p] in objects.Values && LastCompletion(es, p).Some?
    ensures Read(m.byPlatform[p]) == Expected(es, p)
  {
    OrderCovers(es, m, objects);
    assert Leads(m.byPlatform, p, LastCompletion(es, p), objects);
    var c := LastCompletion(es, p).value;
    assert StatusRight(objects[c], if RevokedAt(es, c) then Revoked else Active);
  }

  // ---------------------------------------------------------------- what the history makes of a row

  predicate CompletesId(r: Row, id: string) {
    IsCompletion(r) && r.event.installId == id
  }

  predicate CompletesPlatform(r: Row, platform: string) {
    IsCompletion(r) && r.event.platform == platform
  }

  lemma {:induction false} LastOfIdSpec(es: seq<Row>, id: string)
    ensures LastOfId(es, id).None? ==> forall k :: 0 <= k < |es| ==> !CompletesId(es[k], id)
    ensures LastOfId(es, id).Some? ==> forall k :: LastOfId(es, id).value < k < |es| ==> !CompletesId(es[k], id)
  {
    if es != [] {
      LastOfIdSpec(es[..|es|-1], id);
    }
  }

  lemma {:induction false} LastCompletionSpec(es: seq<Row>, platform: string)
    ensures LastCompletion(es, platform).None? ==> forall k :: 0 <= k < |es| ==> !CompletesPlatform(es[k], platform)
    ensures LastCompletion(es, platform).Some? ==>
              forall k :: LastCompletion(es, platform).value < k < |es| ==> !CompletesPlatform(es[k], platform)
  {
    if es != [] {
      LastCompletionSpec(es[..|es|-1], platform);
    }
  }

  /** Row `j` revokes the id of completion `c`, which no other completion took over in between. */
  ghost predicate Revokes(es: seq<Row>, j: nat, c: nat)
    requires j < |es| && c < |es| && IsCompletion(es[c])
  {
    && c < j && es[j].event == Revoke(es[c].event.installId)
    && forall k :: c < k < j ==> !CompletesId(es[k], es[c].event.installId)
  }

  /** A completion is revoked exactly when a later revoke names its id before any other completion,
      on whatever platform, has taken the id over. */
  lemma {:induction false} RevokedIff(es: seq<Row>, c: nat)
    requires c < |es| && IsCompletion(es[c])
    ensures RevokedAt(es, c) <==> exists j: nat :: j < |es| && Revokes(es, j, c)
  {
    var n := |es| - 1;
    var id := es[c].event.installId;
    if c == n {
      NoRevokeBefore(es[..n], c);
    } else {
      RevokedIff(es[..n], c);
      forall j: nat | j < n ensures Revokes(es, j, c) <==> Revokes(es[..n], j, c) {
      }
      if es[n].event == Revoke(id) {
        LastOfIdSpec(es[..n], id);
        assert LastOfId(es[..n], id) == Some(c) <==> Revokes(es, n, c) by {
          assert CompletesId(es[..n][c], id);
        }
      }
    }
  }

  /** If an install id is completed on one platform only, the platform's row is revoked exactly when
      a revoke after the platform's last completion names that completion's id. */
  lemma RevokedIffNamedLater(es: seq<Row>, platform: string)
    requires LastCompletion(es, platform).Some?
    requires var id := es[LastCompletion(es, platform).value].event.installId;
             forall k :: 0 <= k < |es| && CompletesId(es[k], id) ==> es[k].event.platform == platform
    ensures var c := LastCompletion(es, platform).value;
            (Expected(es, platform).status == Revoked <==>
             exists j :: c < j < |es| && es[j].event == Revoke(es[c].event.installId))
  {
    var c := LastCompletion(es, platform).value;
    RevokedIff(es, c);
    LastCompletionSpec(es, platform);
    forall j: nat | c < j < |es| && es[j].event == Revoke(es[c].event.installId) ensures Revokes(es, j, c) {
      forall k | c < k < j ensures !CompletesId(es[k], es[c].event.installId) {
        assert !CompletesPlatform(es[k], platform);
      }
    }
  }

  /** An id completed on two platforms: its revoke reaches only the platform that completed it last,
      and the other platform's row stays active. */
  lemma SharedIdEscapesRevoke(id: string, p: string, q: string, t: int)
    requires id != "" && p != "" && q != "" && p != q
    ensures var es := [Row(t, "", Completed(id, p, None, [], None, "")),
                       Row(t, "", Completed(id, q, None, [], None, "")),
                       Row(t, "", Revoke(id))];
            && LastCompletion(es, p) == Some(0) && Expected(es, p).status == Active
            && LastCompletion(es, q) == Some(1) && Expected(es, q).status == Revoked
  {
    var es := [Row(t, "", Completed(id, p, None, [], None, "")),
               Row(t, "", Completed(id, q, None, [], None, "")),
               Row(t, "", Revoke(id))];
    LastCompletionSpec(es, p);
    LastCompletionSpec(es, q);
    assert CompletesPlatform(es[0], p) && CompletesPlatform(es[1], q);
    RevokedIff(es, 0);
    RevokedIff(es, 1);
    assert CompletesId(es[1], id);
    assert Revokes(es, 2, 1);
  }

  /** Revoking an id that is not that of the platform's last completion never touches its row. */
  lemma SupersededRevokeIgnored(es: seq<Row>, row: Row, platform: string)
    requires LastCompletion(es, platform).Some? && row.event.Revoke?
    requires row.event.revokedId != es[LastCompletion(es, platform).value].event.installId
    ensures LastCompletion(es + [row], platform).Some?
    ensures Expected(es + [row], platform) == Expected(es, platform)
  {
    Grow(es, row);
  }

  lemma {:induction false} ModeFromLastRow(es: seq<Row>, platform: string, j: nat)
    requires LastModeRow(es, j)
    ensures SetupMode(es, platform)
         == if exists f :: 0 <= f < j && CompletesPlatform(es[f], platform) then es[j].event.mode else None
  {
    var n := |es| - 1;
    if j < n {
      ModeFromLastRow(es[..n], platform, j);
    } else {
      LastCompletionSpec(es[..n], platform);
      NoSetupBefore(es[..n], platform);
    }
  }

  lemma {:induction false} DoneFromLastRow(es: seq<Row>, platform: string, j: nat)
    requires LastDoneRow(es, j)
    ensures SetupCompletedAt(es, platform)
         == if exists f :: 0 <= f < j && CompletesPlatform(es[f], platform) then Some(es[j].ts) else None
  {
    var n := |es| - 1;
    if j < n {
      DoneFromLastRow(es[..n], platform, j);
    } else {
      LastCompletionSpec(es[..n], platform);
      NoSetupBefore(es[..n], platform);
    }
  }

  /** The setup fields hold what the last setup row says, if it comes after the platform's first
      completion, and are null otherwise. */
  lemma SetupFromLastRow(es: seq<Row>, platform: string, j: nat)
    ensures LastModeRow(es, j) ==>
              SetupMode(es, platform)
              == if exists f :: 0 <= f < j && CompletesPlatform(es[f], platform) then es[j].event.mode else None
    ensures LastDoneRow(es, j) ==>
              SetupCompletedAt(es, platform)
              == if exists f :: 0 <= f < j && CompletesPlatform(es[f], platform) then Some(es[j].ts) else None
  {
    if LastModeRow(es, j) {
      ModeFromLastRow(es, platform, j);
    }
    if LastDoneRow(es, j) {
      DoneFromLastRow(es, platform, j);
    }
  }

  // ---------------------------------------------------------------- the history tells what is owed

  lemma CompletesAre(es: seq<Row>, k: nat, id: string, platform: string)
    ensures Completes(es, k, id, platform) <==> k < |es| && CompletesId(es[k], id) && CompletesPlatform(es[k], platform)
  {
  }

  lemma CompletedIffLast(es: seq<Row>, platform: string)
    ensures CompletedOn(es, platform) <==> LastCompletion(es, platform).Some?
  {
    LastCompletionSpec(es, platform);
    if CompletedOn(es, platform) {
      var c: nat, id :| Completes(es, c, id, platform);
      CompletesAre(es, c, id, platform);
    }
    if LastCompletion(es, platform).Some? {
      var c := LastCompletion(es, platform).value;
      assert Completes(es, c, es[c].event.installId, platform);
    }
  }

  lemma LastCompletes(es: seq<Row>, platform: string)
    requires LastCompletion(es, platform).Some?
    ensures var c := LastCompletion(es, platform).value; CompletesLast(es, c, es[c].event.installId, platform)
  {
    LastCompletionSpec(es, platform);
    var c := LastCompletion(es, platform).value;
    forall k: nat, other | c < k ensures !Completes(es, k, other, platform) {
      CompletesAre(es, k, other, platform);
    }
  }

  lemma RevokedIsTold(es: seq<Row>, c: nat)
    requires c < |es| && IsCompletion(es[c])
    ensures RevokedAt(es, c) <==> RevokedLater(es, c, es[c].event.installId)
  {
    RevokedIff(es, c);
    if RevokedAt(es, c) {
      var j: nat :| j < |es| && Revokes(es, j, c);
      RevokesIff(es, j, c);
    }
    if RevokedLater(es, c, es[c].event.installId) {
      var j :| c < j < |es| && es[j].event == Revoke(es[c].event.installId) && Untaken(es, c, j, es[c].event.installId);
      RevokesIff(es, j, c);
    }
  }

  lemma RevokesIff(es: seq<Row>, j: nat, c: nat)
    requires c < j < |es| && IsCompletion(es[c])
    ensures Revokes(es, j, c)
       <==> es[j].event == Revoke(es[c].event.installId) && Untaken(es, c, j, es[c].event.installId)
  {
    var id := es[c].event.installId;
    if Untaken(es, c, j, id) {
      forall k | c < k < j ensures !CompletesId(es[k], id) {
        if CompletesId(es[k], id) {
          assert Completes(es, k, id, es[k].event.platform);
        }
      }
    }
  }

  lemma BeforeIsTold(es: seq<Row>, platform: string, j: nat)
    requires j < |es|
    ensures CompletedBefore(es, platform, j) <==> exists f :: 0 <= f < j && CompletesPlatform(es[f], platform)
  {
    if f :| 0 <= f < j && CompletesPlatform(es[f], platform) {
      assert Completes(es, f, es[f].event.installId, platform);
    }
    if CompletedBefore(es, platform, j) {
      var f: nat, id :| f < j && Completes(es, f, id, platform);
      assert CompletesPlatform(es[f], platform);
    }
  }

  lemma {:induction false} NoSetupRows(es: seq<Row>, platform: string)
    ensures (forall j :: 0 <= j < |es| ==> !es[j].event.SetupModeChosen?) ==> SetupMode(es, platform) == None
    ensures (forall j :: 0 <= j < |es| ==> !es[j].event.SetupCompleted?) ==> SetupCompletedAt(es, platform) == None
  {
    if es != [] {
      NoSetupRows(es[..|es|-1], platform);
    }
  }

  lemma SetupIsTold(es: seq<Row>, platform: string)
    ensures ModeTells(es, platform, SetupMode(es, platform))
    ensures CompletedAtTells(es, platform, SetupCompletedAt(es, platform))
  {
    NoSetupRows(es, platform);
    forall j | 0 <= j < |es|
      ensures LastModeRow(es, j) ==>
                SetupMode(es, platform) == if CompletedBefore(es, platform, j) then es[j].event.mode else None
      ensures LastDoneRow(es, j) ==>
                SetupCompletedAt(es, platform) == if CompletedBefore(es, platform, j) then Some(es[j].ts) else None
    {
      SetupFromLastRow(es, platform, j);
      BeforeIsTold(es, platform, j);
    }
  }

  /** What the history says of a platform tells of its last completion. */
  lemma ExpectedTells(es: seq<Row>, platform: string)
    requires LastCompletion(es, platform).Some?
    ensures InstallTells(es, Expected(es, platform))
  {
    var c := LastCompletion(es, platform).value;
    LastCompletes(es, platform);
    RevokedIsTold(es, c);
    SetupIsTold(es, platform);
    assert TellsOf(es, c, Expected(es, platform));
  }
}
