/** The people projections (apps/dashboard/lib/ledger-client.ts): `foldPersonRows` over the whole
    ledger or over one person's rows, and the two folds written separately for the identities and
    the role grants of one person.

    Rows are those of the person tools, in ledger order; `pid` is `args.person_id`, if present. */
module People {
  import opened Sequences
  import opened OrderedMaps
  import opened PersonRows
  import opened MapRuns

  // ---------------------------------------------------------------- what each row does

  /** Effect on identities, in the whole fold and in the separate one alike. */
  function StepIdentities(m: Identities, row: Row): Identities {
    match row.event
    case Proposed(name, _, platform, userId, _, proposedBy) =>
      if NamesIdentity(platform, userId) then
        Set(m, IdentityKey(platform.value, userId.value),
            Identity(platform.value, userId.value, name, row.ts, proposedBy))
      else m
    case IdentityLinked(platform, userId, linkedBy) =>
      if NamesIdentity(platform, userId) && !Has(m, IdentityKey(platform.value, userId.value)) then
        Set(m, IdentityKey(platform.value, userId.value),
            Identity(platform.value, userId.value, None, row.ts, linkedBy))
      else m
    case IdentityUnlinked(platform, userId) =>
      if NamesIdentity(platform, userId) then Delete(m, IdentityKey(platform.value, userId.value)) else m
    case _ => m
  }

  function StepTenancy(m: Tenancy, row: Row): Tenancy {
    match row.event
    case RoleAssigned(role, grantor) =>
      if TenancyOf(role).Some? then Set(m, TenancyOf(role).value, Grant(grantor, row.ts)) else m
    case RoleRevoked(role) =>
      if TenancyOf(role).Some? then Delete(m, TenancyOf(role).value) else m
    case _ => m
  }

  function StepDomains(s: seq<DomainGrant>, row: Row): seq<DomainGrant> {
    match row.event
    case DomainRoleAssigned(domainId, role, grantor) => s + [DomainGrant(domainId, role, Grant(grantor, row.ts))]
    case _ => s
  }

  function StepResources(s: seq<ResourceGrant>, row: Row): seq<ResourceGrant> {
    match row.event
    case ResourceRoleAssigned(resourceId, resourceType, role, grantor) =>
      s + [ResourceGrant(resourceId, resourceType, role, Grant(grantor, row.ts))]
    case _ => s
  }

  /** The state of one person after one of that person's rows; nothing happens before a proposal. */
  function StepPerson(p: Option<Person>, id: string, row: Row): Option<Person> {
    if row.event.Proposed? then
      if id == "" then p
      else
        var e := row.event;
        var name := if e.name.Some? then e.name.value else if e.email.Some? then e.email.value else id;
        Some(Person(id, name, e.email, e.position, IsProposed,
                    if p.Some? then p.value.tenancy else [],
                    StepIdentities(if p.Some? then p.value.identities else [], row),
                    if p.Some? then p.value.domains else [],
                    if p.Some? then p.value.resources else [], row.hash))
    else if p.None? then None
    else
      var s := p.value;
      Some(s.(status := if row.event.Confirmed? then IsActive else if row.event.Archived? then IsArchived else s.status,
              identities := StepIdentities(s.identities, row), tenancy := StepTenancy(s.tenancy, row),
              domains := StepDomains(s.domains, row), resources := StepResources(s.resources, row),
              lastHash := if Touches(row.event) then row.hash else s.lastHash))
  }

  function PersonAfter(rows: seq<Row>, id: string): Option<Person> {
    if rows == [] then None
    else
      var row := rows[|rows|-1];
      var before := PersonAfter(rows[..|rows|-1], id);
      if row.pid == Some(id) then StepPerson(before, id, row) else before
  }

  function IdentitiesAfter(rows: seq<Row>): Identities {
    if rows == [] then [] else StepIdentities(IdentitiesAfter(rows[..|rows|-1]), rows[|rows|-1])
  }

  function TenancyAfter(rows: seq<Row>): Tenancy {
    if rows == [] then [] else StepTenancy(TenancyAfter(rows[..|rows|-1]), rows[|rows|-1])
  }

  function DomainsAfter(rows: seq<Row>): seq<DomainGrant> {
    if rows == [] then [] else StepDomains(DomainsAfter(rows[..|rows|-1]), rows[|rows|-1])
  }

  function ResourcesAfter(rows: seq<Row>): seq<ResourceGrant> {
    if rows == [] then [] else StepResources(ResourcesAfter(rows[..|rows|-1]), rows[|rows|-1])
  }

  // ---------------------------------------------------------------- the whole-ledger fold

  class PersonState {
    const id: string
    var displayName: string
    var email: Option<string>
    var position: Option<string>
    var status: Status
    var tenancy: Tenancy
    var identities: Identities
    var domains: seq<DomainGrant>
    var resources: seq<ResourceGrant>
    var lastHash: string

    constructor (p: Person)
      ensures View() == p
    {
      id, displayName, email, position, status := p.id, p.displayName, p.email, p.position, p.status;
      tenancy, identities, domains, resources, lastHash := p.tenancy, p.identities, p.domains, p.resources, p.lastHash;
    }

    ghost function View(): Person
      reads this
    {
      Person(id, displayName, email, position, status, tenancy, identities, domains, resources, lastHash)
    }

    /** The branches for a known person, other than a proposal. */
    method Apply(row: Row)
      requires !row.event.Proposed?
      modifies this
      ensures Some(View()) == StepPerson(Some(old(View())), id, row)
    {
      match row.event
      case Confirmed =>
        status := IsActive;
        lastHash := row.hash;
      case Archived =>
        status := IsArchived;
        lastHash := row.hash;
      case IdentityLinked(platform, userId, linkedBy) =>
        if NamesIdentity(platform, userId) {
          var key := IdentityKey(platform.value, userId.value);
          if !Has(identities, key) {
            identities := Set(identities, key, Identity(platform.value, userId.value, None, row.ts, linkedBy));
          }
          lastHash := row.hash;
        }
      case IdentityUnlinked(platform, userId) =>
        if NamesIdentity(platform, userId) {
          identities := Delete(identities, IdentityKey(platform.value, userId.value));
          lastHash := row.hash;
        }
      case RoleAssigned(role, grantor) =>
        if TenancyOf(role).Some? {
          tenancy := Set(tenancy, TenancyOf(role).value, Grant(grantor, row.ts));
          lastHash := row.hash;
        }
      case RoleRevoked(role) =>
        if TenancyOf(role).Some? {
          tenancy := Delete(tenancy, TenancyOf(role).value);
          lastHash := row.hash;
        }
      case DomainRoleAssigned(domainId, role, grantor) =>
        domains := domains + [DomainGrant(domainId, role, Grant(grantor, row.ts))];
        lastHash := row.hash;
      case ResourceRoleAssigned(resourceId, resourceType, role, grantor) =>
        resources := resources + [ResourceGrant(resourceId, resourceType, role, Grant(grantor, row.ts))];
        lastHash := row.hash;
    }
  }

  /** One object per person, each showing the state of that person after `rows`. */
  ghost predicate Folded(rows: seq<Row>, persons: map<string, PersonState>)
    reads persons.Values
  {
    && (forall a, b :: a in persons && b in persons && persons[a] == persons[b] ==> a == b)
    && (forall id :: id in persons ==> PersonAfter(rows, id) == Some(persons[id].View()))
    && (forall id :: PersonAfter(rows, id).Some? ==> id in persons)
  }

  /** The branch for a proposal: a new object replaces the old, carrying its grants and identities over. */
  method Propose(row: Row, id: string, persons: map<string, PersonState>) returns (made: PersonState)
    requires row.event.Proposed? && id != ""
    ensures fresh(made)
    ensures Some(made.View()) == StepPerson(if id in persons then Some(persons[id].View()) else None, id, row)
  {
    var e := row.event;
    var initial := [];
    if NamesIdentity(e.platform, e.userId) {
      initial := [(IdentityKey(e.platform.value, e.userId.value),
                   Identity(e.platform.value, e.userId.value, e.name, row.ts, e.proposedBy))];
    }
    var name := if e.name.Some? then e.name.value else if e.email.Some? then e.email.value else id;
    if id in persons {
      var prior := persons[id];
      made := new PersonState(Person(id, name, e.email, e.position, IsProposed, prior.tenancy,
                                     SetAll(prior.identities, initial), prior.domains, prior.resources, row.hash));
      assert SetAll(prior.identities, initial) == StepIdentities(prior.identities, row);
    } else {
      made := new PersonState(Person(id, name, e.email, e.position, IsProposed, [], initial, [], [], row.hash));
    }
  }

  method FoldPersonRows(rows: seq<Row>) returns (persons: map<string, PersonState>)
    ensures Folded(rows, persons)
    ensures forall id :: id in persons <==> id != "" && FirstProposal(RowsOf(rows, id)).Some?
    ensures forall id :: id in persons ==> Told(RowsOf(rows, id), persons[id].View())
  {
    persons := map[];
    for i := 0 to |rows|
      invariant Folded(rows[..i], persons)
      invariant forall id :: id in persons ==> fresh(persons[id])
    {
      var row := rows[i];
      assert rows[..i+1][..i] == rows[..i];
      if row.pid.Some? {
        var id := row.pid.value;
        assert PersonAfter(rows[..i], id) == if id in persons then Some(persons[id].View()) else None;
        if row.event.Proposed? {
          if id == "" { continue; }
          var made := Propose(row, id, persons);
          persons := persons[id := made];
        } else if id in persons {
          persons[id].Apply(row);
        }
      }
    }
    assert rows[..|rows|] == rows;
    FoldedIsTold(rows, persons);
  }

  lemma FoldedIsTold(rows: seq<Row>, persons: map<string, PersonState>)
    requires Folded(rows, persons)
    ensures forall id :: id in persons <==> id != "" && FirstProposal(RowsOf(rows, id)).Some?
    ensures forall id :: id in persons ==> Told(RowsOf(rows, id), persons[id].View())
  {
    forall id
      ensures id in persons <==> id != "" && FirstProposal(RowsOf(rows, id)).Some?
      ensures id in persons ==> Told(RowsOf(rows, id), persons[id].View())
    {
      PersonFromHistory(rows, id);
    }
  }

  // ---------------------------------------------------------------- projection and accessors

  /** The highest-priority role among the grants. */
  function TopTenancy(m: Tenancy): (top: Option<TenancyRole>)
    ensures top.None? <==> m == []
    ensures top.Some? ==> exists i :: 0 <= i < |m| && m[i].0 == top.value
    ensures top.Some? ==> forall i :: 0 <= i < |m| ==> Priority(m[i].0) <= Priority(top.value)
  {
    if m == [] then None
    else
      var n := |m| - 1;
      var t := TopTenancy(m[..n]);
      if t.None? || Priority(m[n].0) > Priority(t.value) then Some(m[n].0) else t
  }

  method TopTenancyRole(m: Tenancy) returns (top: Option<TenancyRole>)
    ensures top == TopTenancy(m)
    ensures RanksAmong(m, top)
  {
    top := None;
    var topPri := 0;
    for i := 0 to |m|
      invariant top == TopTenancy(m[..i])
      invariant topPri == if top.None? then 0 else Priority(top.value)
    {
      assert m[..i+1][..i] == m[..i];
      var p := Priority(m[i].0);
      if p > topPri {
        top, topPri := Some(m[i].0), p;
      }
    }
    assert m[..|m|] == m;
    TopRanks(m, top);
  }

  /** Installer before admin before member before observer. */
  ghost predicate RanksAmong(m: Tenancy, top: Option<TenancyRole>) {
    && (top == Some(Installer) <==> Installer in Keys(m))
    && (top == Some(Admin) <==> Admin in Keys(m) && Installer !in Keys(m))
    && (top == Some(Member) <==> Member in Keys(m) && Admin !in Keys(m) && Installer !in Keys(m))
    && (top == Some(Observer) <==> m != [] && forall i :: 0 <= i < |m| ==> m[i].0 == Observer)
  }

  lemma KeysAreFirsts(m: Tenancy)
    ensures forall role :: role in Keys(m) <==> exists i :: 0 <= i < |m| && m[i].0 == role
  {
    forall i | 0 <= i < |m| ensures m[i].0 in Keys(m) {
      assert Keys(m)[i] == m[i].0;
    }
  }

  lemma TopRanks(m: Tenancy, top: Option<TenancyRole>)
    requires top == TopTenancy(m)
    ensures RanksAmong(m, top)
  {
    KeysAreFirsts(m);
    assert forall role: TenancyRole :: role.Installer? || role.Admin? || role.Member? || role.Observer?;
  }

  datatype IdentityRow = IdentityRow(platform: string, userId: string, proposedBy: Option<string>, addedAt: int)

  datatype PersonRow = PersonRow(
    id: string, displayName: string, email: Option<string>, position: Option<string>, status: Status,
    tenancyRole: Option<TenancyRole>, identities: seq<IdentityRow>, domainGrantCount: nat, resourceGrantCount: nat,
    roles: seq<string>,
    ownedDomains: seq<string>, ownedResources: seq<string>, receiptHash: string)

  function IdentityRows(m: Identities): seq<IdentityRow> {
    seq(|m|, i requires 0 <= i < |m| => IdentityRow(m[i].1.platform, m[i].1.userId, m[i].1.proposedBy, m[i].1.addedAt))
  }

  function OwnedDomains(s: seq<DomainGrant>): seq<string> {
    if s == [] then []
    else OwnedDomains(s[..|s|-1]) + if s[|s|-1].role == "owner" then [s[|s|-1].domainId] else []
  }

  function MaintainedResources(s: seq<ResourceGrant>): seq<string> {
    if s == [] then []
    else MaintainedResources(s[..|s|-1]) + if s[|s|-1].role == "maintainer" then [s[|s|-1].resourceId] else []
  }

  function Roles(tenancyRole: Option<TenancyRole>, position: Option<string>): seq<string> {
    (if tenancyRole.Some? then [RoleName(tenancyRole.value)] else [])
    + (if Given(position) then [position.value] else [])
  }

  function Project(p: Person): PersonRow {
    PersonRow(p.id, p.displayName, p.email, p.position, p.status, TopTenancy(p.tenancy), IdentityRows(p.identities),
              |p.domains|, |p.resources|, Roles(TopTenancy(p.tenancy), p.position), OwnedDomains(p.domains),
              MaintainedResources(p.resources),
              if |p.lastHash| <= 12 then p.lastHash else p.lastHash[..12])
  }

  method ProjectPersonRow(s: PersonState) returns (r: PersonRow)
    ensures r == Project(s.View())
  {
    var top := TopTenancyRole(s.tenancy);
    r := PersonRow(s.id, s.displayName, s.email, s.position, s.status, top, IdentityRows(s.identities),
                   |s.domains|, |s.resources|, Roles(top, s.position), OwnedDomains(s.domains),
                   MaintainedResources(s.resources),
                   if |s.lastHash| <= 12 then s.lastHash else s.lastHash[..12]);
  }

  /** `getPersonById`: the same fold over the rows of one person.  Its answer is the one the
      whole-ledger fold gives. */
  method GetPersonById(rows: seq<Row>, id: string) returns (r: Option<PersonRow>)
    ensures r == if PersonAfter(rows, id).Some? then Some(Project(PersonAfter(rows, id).value)) else None
    ensures r.Some? <==> id != "" && FirstProposal(RowsOf(rows, id)).Some?
    ensures r.Some? ==> ShowsPerson(RowsOf(rows, id), r.value)
  {
    PersonShown(rows, id);
    var persons := FoldPersonRows(RowsOf(rows, id));
    ByIdIsLookup(rows, id);
    if id in persons {
      var row := ProjectPersonRow(persons[id]);
      r := Some(row);
    } else {
      r := None;
    }
  }

  ghost predicate Holds(since: seq<Row>, role: TenancyRole) {
    Held(since, role).Some?
  }

  /** The same order, of the roles held. */
  ghost predicate RanksFirst(since: seq<Row>, shown: Option<TenancyRole>) {
    && (shown == Some(Installer) <==> Holds(since, Installer))
    && (shown == Some(Admin) <==> Holds(since, Admin) && !Holds(since, Installer))
    && (shown == Some(Member) <==> Holds(since, Member) && !Holds(since, Admin) && !Holds(since, Installer))
    && (shown == Some(Observer) <==>
          Holds(since, Observer) && !Holds(since, Member) && !Holds(since, Admin) && !Holds(since, Installer))
    && (shown == None <==>
          !Holds(since, Observer) && !Holds(since, Member) && !Holds(since, Admin) && !Holds(since, Installer))
  }

  /** Some row assigns this domain role. */
  ghost predicate AssignsInDomain(rows: seq<Row>, domainId: string, role: string) {
    exists i :: 0 <= i < |rows| && rows[i].event.DomainRoleAssigned?
                && rows[i].event.domainId == domainId && rows[i].event.role == role
  }

  ghost predicate AssignsOnResource(rows: seq<Row>, resourceId: string, role: string) {
    exists i :: 0 <= i < |rows| && rows[i].event.ResourceRoleAssigned?
                && rows[i].event.resourceId == resourceId && rows[i].event.role == role
  }

  /** The tenancy role by its name, and the position if there is one. */
  ghost predicate RolesTell(r: PersonRow) {
    var position := if r.position in {None, Some("")} then [] else [r.position.value];
    match r.tenancyRole
    case Some(Installer) => r.roles == ["installer"] + position
    case Some(Admin) => r.roles == ["admin"] + position
    case Some(Member) => r.roles == ["member"] + position
    case Some(Observer) => r.roles == ["observer"] + position
    case None => r.roles == position
  }

  ghost predicate IdentityTells(since: seq<Row>, x: IdentityRow) {
    var attached := Attached(since, x.platform + "|" + x.userId);
    && attached.Some? && attached.value.platform == x.platform && attached.value.userId == x.userId
    && attached.value.proposedBy == x.proposedBy && attached.value.addedAt == x.addedAt
  }

  /** Each attached identity once. */
  ghost predicate IdentitiesTell(since: seq<Row>, xs: seq<IdentityRow>) {
    && (forall x :: x in xs <==> IdentityTells(since, x))
    && forall i, j :: 0 <= i < j < |xs| ==> xs[i].platform + "|" + xs[i].userId != xs[j].platform + "|" + xs[j].userId
  }

  ghost predicate CountsTell(since: seq<Row>, r: PersonRow) {
    && r.domainGrantCount == Count(since, (x: Row) => x.event.DomainRoleAssigned?)
    && r.resourceGrantCount == Count(since, (x: Row) => x.event.ResourceRoleAssigned?)
  }

  /** The row shown of a person, from that person's rows alone. */
  ghost predicate ShowsPerson(own: seq<Row>, r: PersonRow) {
    var since := SinceProposed(own);
    && RanksFirst(since, r.tenancyRole) && RolesTell(r) && CountsTell(since, r) && IdentitiesTell(since, r.identities)
    && (forall d :: d in r.ownedDomains <==> AssignsInDomain(since, d, "owner"))
    && (forall d :: d in r.ownedResources <==> AssignsOnResource(since, d, "maintainer"))
  }

  lemma RolesAreTold(p: Person)
    ensures RolesTell(Project(p))
  {
    assert Given(p.position) <==> p.position !in {None, Some("")};
  }

  lemma {:induction false} GrantsAreCounted(since: seq<Row>, domains: Row -> bool, resources: Row -> bool)
    requires forall x: Row :: domains(x) <==> x.event.DomainRoleAssigned?
    requires forall x: Row :: resources(x) <==> x.event.ResourceRoleAssigned?
    ensures |DomainsAfter(since)| == Count(since, domains) && |ResourcesAfter(since)| == Count(since, resources)
  {
    if since != [] {
      GrantsAreCounted(since[..|since|-1], domains, resources);
    }
  }

  lemma IdentitiesAreTold(since: seq<Row>)
    ensures IdentitiesTell(since, IdentityRows(IdentitiesAfter(since)))
  {
    var m := IdentitiesAfter(since);
    var xs, vs := IdentityRows(m), Values(m);
    ListsAttached(since);
    forall x | x in xs ensures IdentityTells(since, x) {
      var i :| 0 <= i < |xs| && xs[i] == x;
      assert vs[i] in vs;
    }
    forall x | IdentityTells(since, x) ensures x in xs {
      var v := Attached(since, x.platform + "|" + x.userId).value;
      assert v in vs;
      var i :| 0 <= i < |vs| && vs[i] == v;
      assert xs[i] == x;
    }
    forall i, j | 0 <= i < j < |xs|
      ensures xs[i].platform + "|" + xs[i].userId != xs[j].platform + "|" + xs[j].userId
    {
      assert vs[i].platform + "|" + vs[i].userId != vs[j].platform + "|" + vs[j].userId;
    }
  }

  lemma TopRanksFirst(since: seq<Row>)
    ensures RanksFirst(since, TopTenancy(TenancyAfter(since)))
  {
    TopIsHeld(since);
  }

  lemma {:induction false} OwnedAreAssigned(rows: seq<Row>, id: string)
    ensures id in OwnedDomains(DomainsAfter(rows)) <==> AssignsInDomain(rows, id, "owner")
    ensures id in MaintainedResources(ResourcesAfter(rows)) <==> AssignsOnResource(rows, id, "maintainer")
  {
    if rows != [] {
      var n := |rows| - 1;
      OwnedAreAssigned(rows[..n], id);
      AssignedGrows(rows, id);
      var s, q := DomainsAfter(rows[..n]), ResourcesAfter(rows[..n]);
      match rows[n].event
      case DomainRoleAssigned(domainId, role, grantor) =>
        assert (s + [DomainGrant(domainId, role, Grant(grantor, rows[n].ts))])[..|s|] == s;
      case ResourceRoleAssigned(resourceId, resourceType, role, grantor) =>
        assert (q + [ResourceGrant(resourceId, resourceType, role, Grant(grantor, rows[n].ts))])[..|q|] == q;
      case _ =>
    }
  }

  lemma AssignedGrows(rows: seq<Row>, id: string)
    requires rows != []
    ensures var n := |rows| - 1;
            && (AssignsInDomain(rows, id, "owner") <==>
                  || AssignsInDomain(rows[..n], id, "owner")
                  || (rows[n].event.DomainRoleAssigned? && rows[n].event.domainId == id
                      && rows[n].event.role == "owner"))
            && (AssignsOnResource(rows, id, "maintainer") <==>
                  || AssignsOnResource(rows[..n], id, "maintainer")
                  || (rows[n].event.ResourceRoleAssigned? && rows[n].event.resourceId == id
                      && rows[n].event.role == "maintainer"))
  {
    var n := |rows| - 1;
    assert forall i :: 0 <= i < n ==> rows[..n][i] == rows[i];
  }

  lemma PersonShown(rows: seq<Row>, id: string)
    ensures PersonAfter(rows, id).Some? <==> id != "" && FirstProposal(RowsOf(rows, id)).Some?
    ensures PersonAfter(rows, id).Some? ==> ShowsPerson(RowsOf(rows, id), Project(PersonAfter(rows, id).value))
  {
    PersonFromHistory(rows, id);
    if PersonAfter(rows, id).Some? {
      var since := SinceProposed(RowsOf(rows, id));
      OwnRowsOnly(rows, id);
      ByIdIsLookup(rows, id);
      PersonIsSinceProposed(RowsOf(rows, id), id);
      TopRanksFirst(since);
      RolesAreTold(PersonAfter(rows, id).value);
      IdentitiesAreTold(since);
      GrantsAreCounted(since, (x: Row) => x.event.DomainRoleAssigned?, (x: Row) => x.event.ResourceRoleAssigned?);
      forall d
        ensures d in OwnedDomains(DomainsAfter(since)) <==> AssignsInDomain(since, d, "owner")
        ensures d in MaintainedResources(ResourcesAfter(since)) <==> AssignsOnResource(since, d, "maintainer")
      {
        OwnedAreAssigned(since, d);
      }
    }
  }

  method GetIdentitiesForPerson(rows: seq<Row>, id: string) returns (r: seq<Identity>)
    ensures forall x :: x in r <==> Attached(RowsOf(rows, id), x.platform + "|" + x.userId) == Some(x)
    ensures forall i, j :: 0 <= i < j < |r| ==>
              r[i].platform + "|" + r[i].userId != r[j].platform + "|" + r[j].userId
    ensures r == Values(IdentitiesAfter(RowsOf(rows, id)))
  {
    var own := RowsOf(rows, id);
    var identities: Identities := [];
    for i := 0 to |own|
      invariant identities == IdentitiesAfter(own[..i])
    {
      assert own[..i+1][..i] == own[..i];
      var ts := own[i].ts;
      match own[i].event
      case Proposed(name, _, platform, userId, _, proposedBy) =>
        if NamesIdentity(platform, userId) {
          identities := Set(identities, IdentityKey(platform.value, userId.value),
                            Identity(platform.value, userId.value, name, ts, proposedBy));
        }
      case IdentityLinked(platform, userId, linkedBy) =>
        if NamesIdentity(platform, userId) {
          if !Has(identities, IdentityKey(platform.value, userId.value)) {
            identities := Set(identities, IdentityKey(platform.value, userId.value),
                              Identity(platform.value, userId.value, None, ts, linkedBy));
          }
        }
      case IdentityUnlinked(platform, userId) =>
        if NamesIdentity(platform, userId) {
          identities := Delete(identities, IdentityKey(platform.value, userId.value));
        }
      case _ =>
    }
    assert own[..|own|] == own;
    r := Values(identities);
    ListsAttached(own);
  }

  /** The list of the identity fold: each attached identity once. */
  lemma ListsAttached(own: seq<Row>)
    ensures var r := Values(IdentitiesAfter(own));
            && (forall x :: x in r <==> Attached(own, IdentityKey(x.platform, x.userId)) == Some(x))
            && (forall i, j :: 0 <= i < j < |r| ==>
                  IdentityKey(r[i].platform, r[i].userId) != IdentityKey(r[j].platform, r[j].userId))
  {
    var m := IdentitiesAfter(own);
    var r := Values(m);
    forall i | 0 <= i < |m| ensures m[i].0 == IdentityKey(r[i].platform, r[i].userId) {
      EntryIsAttached(own, i);
    }
    IdentitiesAreAttached(own, "");
    forall i, j | 0 <= i < j < |r|
      ensures IdentityKey(r[i].platform, r[i].userId) != IdentityKey(r[j].platform, r[j].userId)
    {
      assert Keys(m)[i] != Keys(m)[j];
    }
    forall x ensures x in r <==> Attached(own, IdentityKey(x.platform, x.userId)) == Some(x) {
      var k := IdentityKey(x.platform, x.userId);
      IdentitiesAreAttached(own, k);
      GetIffEntry(m, k, x);
      if x in r {
        var i :| 0 <= i < |r| && r[i] == x;
        assert m[i] == (k, x);
      }
      if i :| 0 <= i < |m| && m[i] == (k, x) {
        assert r[i] == x;
      }
    }
  }

  lemma EntryIsAttached(own: seq<Row>, i: nat)
    requires i < |IdentitiesAfter(own)|
    ensures var e := IdentitiesAfter(own)[i];
            Attached(own, e.0) == Some(e.1) && e.0 == IdentityKey(e.1.platform, e.1.userId)
  {
    var m := IdentitiesAfter(own);
    IdentitiesAreAttached(own, m[i].0);
    GetIffEntry(m, m[i].0, m[i].1);
    assert m[i] == (m[i].0, m[i].1);
  }

  datatype RoleGrant =
    | OnTenancy(role: TenancyRole, grant: Grant)
    | OnDomain(domain: DomainGrant)
    | OnResource(resource: ResourceGrant)

  /** Tenancy grants, then domain grants, then resource grants. */
  function AllGrants(tenancy: Tenancy, domains: seq<DomainGrant>, resources: seq<ResourceGrant>): seq<RoleGrant> {
    seq(|tenancy|, i requires 0 <= i < |tenancy| => OnTenancy(tenancy[i].0, tenancy[i].1))
    + seq(|domains|, i requires 0 <= i < |domains| => OnDomain(domains[i]))
    + seq(|resources|, i requires 0 <= i < |resources| => OnResource(resources[i]))
  }

  function RolesOf(own: seq<Row>): seq<RoleGrant> {
    AllGrants(TenancyAfter(own), DomainsAfter(own), ResourcesAfter(own))
  }

  method FoldRoles(own: seq<Row>) returns (tenancy: Tenancy, domains: seq<DomainGrant>, resources: seq<ResourceGrant>)
    ensures tenancy == TenancyAfter(own) && domains == DomainsAfter(own) && resources == ResourcesAfter(own)
  {
    tenancy, domains, resources := [], [], [];
    for i := 0 to |own|
      invariant tenancy == TenancyAfter(own[..i])
      invariant domains == DomainsAfter(own[..i]) && resources == ResourcesAfter(own[..i])
    {
      assert own[..i+1][..i] == own[..i];
      var ts := own[i].ts;
      match own[i].event
      case RoleAssigned(role, grantor) =>
        if TenancyOf(role).Some? {
          tenancy := Set(tenancy, TenancyOf(role).value, Grant(grantor, ts));
        }
      case RoleRevoked(role) =>
        if TenancyOf(role).Some? {
          tenancy := Delete(tenancy, TenancyOf(role).value);
        }
      case DomainRoleAssigned(domainId, role, grantor) =>
        domains := domains + [DomainGrant(domainId, role, Grant(grantor, ts))];
      case ResourceRoleAssigned(resourceId, resourceType, role, grantor) =>
        resources := resources + [ResourceGrant(resourceId, resourceType, role, Grant(grantor, ts))];
      case _ =>
    }
    assert own[..|own|] == own;
  }

  method GetRolesForPerson(rows: seq<Row>, id: string) returns (r: seq<RoleGrant>)
    ensures ListsRoles(RowsOf(rows, id), r)
    ensures r == RolesOf(RowsOf(rows, id))
  {
    var own := RowsOf(rows, id);
    var tenancy, domains, resources := FoldRoles(own);
    r := AllGrants(tenancy, domains, resources);
    RolesAreListed(own);
  }

  /** The list has each role the rows leave held, with the grant it is held by, and every domain and
      resource grant they ever assign. */
  ghost predicate ListsRoles(own: seq<Row>, r: seq<RoleGrant>) {
    && (forall role, grant :: OnTenancy(role, grant) in r <==> Held(own, role) == Some(grant))
    && (forall d :: OnDomain(d) in r <==> exists i :: 0 <= i < |own| && AssignsDomain(own[i], d))
    && (forall d :: OnResource(d) in r <==> exists i :: 0 <= i < |own| && AssignsResource(own[i], d))
  }

  lemma RolesAreListed(own: seq<Row>)
    ensures ListsRoles(own, RolesOf(own))
  {
    ListsHeld(own);
    ListsAssigned(own);
  }

  predicate AssignsDomain(r: Row, d: DomainGrant) {
    r.event.DomainRoleAssigned? && d == DomainGrant(r.event.domainId, r.event.role, Grant(r.event.grantedBy, r.ts))
  }

  predicate AssignsResource(r: Row, d: ResourceGrant) {
    r.event.ResourceRoleAssigned?
        && d == ResourceGrant(r.event.resourceId, r.event.resourceType, r.event.role, Grant(r.event.grantedBy, r.ts))
  }

  /** The tenancy part of the role fold: each held role, with the grant it is held by. */
  lemma ListsHeld(own: seq<Row>)
    ensures forall role, grant :: OnTenancy(role, grant) in RolesOf(own) <==> Held(own, role) == Some(grant)
  {
    var m := TenancyAfter(own);
    var r := RolesOf(own);
    assert forall i :: 0 <= i < |m| ==> r[i] == OnTenancy(m[i].0, m[i].1);
    assert forall i :: |m| <= i < |r| ==> !r[i].OnTenancy?;
    forall role, grant ensures OnTenancy(role, grant) in r <==> Held(own, role) == Some(grant) {
      TenancyIsHeld(own, role);
      GetIffEntry(m, role, grant);
      if i :| 0 <= i < |m| && m[i] == (role, grant) {
        assert r[i] == OnTenancy(role, grant);
      }
      if OnTenancy(role, grant) in r {
        var i :| 0 <= i < |r| && r[i] == OnTenancy(role, grant);
        assert m[i] == (role, grant);
      }
    }
  }

  lemma {:induction false} DomainIsAssigned(own: seq<Row>, d: DomainGrant)
    ensures d in DomainsAfter(own) <==> exists i :: 0 <= i < |own| && AssignsDomain(own[i], d)
  {
    if own != [] {
      var n := |own| - 1;
      DomainIsAssigned(own[..n], d);
      assert forall i :: 0 <= i < n ==> own[..n][i] == own[i];
      assert d in DomainsAfter(own) <==> d in DomainsAfter(own[..n]) || AssignsDomain(own[n], d);
    }
  }

  lemma {:induction false} ResourceIsAssigned(own: seq<Row>, d: ResourceGrant)
    ensures d in ResourcesAfter(own) <==> exists i :: 0 <= i < |own| && AssignsResource(own[i], d)
  {
    if own != [] {
      var n := |own| - 1;
      ResourceIsAssigned(own[..n], d);
      assert forall i :: 0 <= i < n ==> own[..n][i] == own[i];
      assert d in ResourcesAfter(own) <==> d in ResourcesAfter(own[..n]) || AssignsResource(own[n], d);
    }
  }

  lemma GrantsAreAssigned(own: seq<Row>)
    ensures forall d :: d in DomainsAfter(own) <==> exists i :: 0 <= i < |own| && AssignsDomain(own[i], d)
    ensures forall d :: d in ResourcesAfter(own) <==> exists i :: 0 <= i < |own| && AssignsResource(own[i], d)
  {
    forall d ensures d in DomainsAfter(own) <==> exists i :: 0 <= i < |own| && AssignsDomain(own[i], d) {
      DomainIsAssigned(own, d);
    }
    forall d ensures d in ResourcesAfter(own) <==> exists i :: 0 <= i < |own| && AssignsResource(own[i], d) {
      ResourceIsAssigned(own, d);
    }
  }

  lemma DomainIsListed(m: Tenancy, s: seq<DomainGrant>, q: seq<ResourceGrant>, d: DomainGrant)
    ensures OnDomain(d) in AllGrants(m, s, q) <==> d in s
  {
    var r := AllGrants(m, s, q);
    assert forall i :: 0 <= i < |s| ==> r[|m| + i] == OnDomain(s[i]);
    if OnDomain(d) in r {
      var i :| 0 <= i < |r| && r[i] == OnDomain(d);
      assert s[i - |m|] == d;
    }
  }

  lemma ListsDomains(own: seq<Row>)
    ensures forall d :: OnDomain(d) in RolesOf(own) <==> d in DomainsAfter(own)
  {
    forall d ensures OnDomain(d) in RolesOf(own) <==> d in DomainsAfter(own) {
      DomainIsListed(TenancyAfter(own), DomainsAfter(own), ResourcesAfter(own), d);
    }
  }

  lemma ResourceIsListed(m: Tenancy, s: seq<DomainGrant>, q: seq<ResourceGrant>, d: ResourceGrant)
    ensures OnResource(d) in AllGrants(m, s, q) <==> d in q
  {
    var r := AllGrants(m, s, q);
    assert forall i :: 0 <= i < |q| ==> r[|m| + |s| + i] == OnResource(q[i]);
    if OnResource(d) in r {
      var i :| 0 <= i < |r| && r[i] == OnResource(d);
      assert q[i - |m| - |s|] == d;
    }
  }

  lemma ListsResources(own: seq<Row>)
    ensures forall d :: OnResource(d) in RolesOf(own) <==> d in ResourcesAfter(own)
  {
    forall d ensures OnResource(d) in RolesOf(own) <==> d in ResourcesAfter(own) {
      ResourceIsListed(TenancyAfter(own), DomainsAfter(own), ResourcesAfter(own), d);
    }
  }

  /** The domain and resource parts of the role fold: the grants ever assigned, as none is revoked. */
  lemma ListsAssigned(own: seq<Row>)
    ensures forall d :: OnDomain(d) in RolesOf(own) <==> exists i :: 0 <= i < |own| && AssignsDomain(own[i], d)
    ensures forall d :: OnResource(d) in RolesOf(own) <==> exists i :: 0 <= i < |own| && AssignsResource(own[i], d)
  {
    GrantsAreAssigned(own);
    ListsDomains(own);
    ListsResources(own);
  }

  // ---------------------------------------------------------------- agreement

  /** Folding one person's rows gives that person's state in the fold of the whole ledger. */
  lemma {:induction false} ByIdIsLookup(rows: seq<Row>, id: string)
    ensures PersonAfter(RowsOf(rows, id), id) == PersonAfter(rows, id)
  {
    if rows != [] {
      var n := |rows| - 1;
      ByIdIsLookup(rows[..n], id);
      var own := RowsOf(rows[..n], id);
      if rows[n].pid == Some(id) {
        assert (own + [rows[n]])[..|own|] == own;
      } else {
        assert own + [] == own;
      }
    }
  }

  lemma {:induction false} OwnRowsOnly(rows: seq<Row>, id: string)
    ensures forall i :: 0 <= i < |RowsOf(rows, id)| ==> RowsOf(rows, id)[i].pid == Some(id)
  {
    if rows != [] {
      OwnRowsOnly(rows[..|rows|-1], id);
    }
  }

  /** Rows that leave nothing behind change nothing that follows. */
  lemma {:induction false} FoldsForget(before: seq<Row>, since: seq<Row>)
    ensures IdentitiesAfter(before) == [] ==> IdentitiesAfter(before + since) == IdentitiesAfter(since)
    ensures TenancyAfter(before) == [] ==> TenancyAfter(before + since) == TenancyAfter(since)
  {
    if since == [] {
      assert before + since == before;
    } else {
      var n := |since| - 1;
      assert (before + since)[..|before + since| - 1] == before + since[..n];
      FoldsForget(before, since[..n]);
    }
  }

  lemma FirstProposalIs(own: seq<Row>, first: nat)
    requires first < |own| && own[first].event.Proposed?
    requires forall i :: 0 <= i < first ==> !own[i].event.Proposed?
    ensures FirstProposal(own) == Some(first)
  {
    FirstFromIsFirst(own, 0, IsProposal);
  }

  /** From the first proposal on, the whole fold and the separate folds do the same; what the
      separate folds made of the rows before it, the whole fold never sees. */
  lemma FoldsAgreeAfterProposal(own: seq<Row>, id: string, first: nat)
    requires id != "" && first < |own| && own[first].event.Proposed?
    requires forall i :: 0 <= i < |own| ==> own[i].pid == Some(id)
    requires forall i :: 0 <= i < first ==> !own[i].event.Proposed?
    ensures PersonAfter(own, id).Some?
    ensures PersonAfter(own, id).value.id == id
    ensures IdentitiesAfter(own[..first]) == [] ==> PersonAfter(own, id).value.identities == IdentitiesAfter(own)
    ensures TenancyAfter(own[..first]) == [] ==> PersonAfter(own, id).value.tenancy == TenancyAfter(own)
    ensures DomainsAfter(own) == DomainsAfter(own[..first]) + PersonAfter(own, id).value.domains
    ensures ResourcesAfter(own) == ResourcesAfter(own[..first]) + PersonAfter(own, id).value.resources
  {
    FirstProposalIs(own, first);
    OwnIsSince(own, id, first);
    FoldsForget(own[..first], own[first..]);
    GrantsConcat(own[..first], own[first..]);
  }

  /** The whole fold of one person's rows is made of those from the first proposal on. */
  lemma OwnIsSince(own: seq<Row>, id: string, first: nat)
    requires id != "" && AllOf(own, id) && FirstProposal(own) == Some(first)
    ensures PersonAfter(own, id).Some? && PersonAfter(own, id).value.id == id
    ensures Facets(own[first..], PersonAfter(own, id).value)
    ensures own[..first] + own[first..] == own
  {
    PersonIsSinceProposed(own, id);
    assert SinceProposed(own) == own[first..];
  }

  /** When a person's first row is their proposal, `foldPersonRows` shows the identities and the
      grants that the separate folds return, in the same order. */
  lemma PersonFoldsAgree(rows: seq<Row>, id: string)
    requires id != "" && RowsOf(rows, id) != [] && RowsOf(rows, id)[0].event.Proposed?
    ensures PersonAfter(rows, id).Some?
    ensures var p := PersonAfter(rows, id).value; var own := RowsOf(rows, id);
            && Values(p.identities) == Values(IdentitiesAfter(own))
            && AllGrants(p.tenancy, p.domains, p.resources) == RolesOf(own)
            && Project(p).domainGrantCount == |DomainsAfter(own)|
            && Project(p).resourceGrantCount == |ResourcesAfter(own)|
  {
    var own := RowsOf(rows, id);
    OwnRowsOnly(rows, id);
    ByIdIsLookup(rows, id);
    FoldsAgreeAfterProposal(own, id, 0);
    assert own[..0] == [];
    assert [] + PersonAfter(own, id).value.domains == PersonAfter(own, id).value.domains;
    assert [] + PersonAfter(own, id).value.resources == PersonAfter(own, id).value.resources;
  }

  /** The tenancy role shown is the highest-priority tenancy grant among the roles returned. */
  lemma TenancyRoleIsTheHighestReturned(rows: seq<Row>, id: string)
    requires id != "" && RowsOf(rows, id) != [] && RowsOf(rows, id)[0].event.Proposed?
    ensures PersonAfter(rows, id).Some?
    ensures var role := Project(PersonAfter(rows, id).value).tenancyRole; var roles := RolesOf(RowsOf(rows, id));
            && (role.None? <==> forall g :: g in roles ==> !g.OnTenancy?)
            && (role.Some? ==> exists g :: g in roles && g.OnTenancy? && g.role == role.value)
            && (role.Some? ==> forall g :: g in roles && g.OnTenancy? ==> Priority(g.role) <= Priority(role.value))
  {
    PersonFoldsAgree(rows, id);
    var p := PersonAfter(rows, id).value;
    TopAmongGrants(p.tenancy, p.domains, p.resources);
  }

  lemma TopAmongGrants(m: Tenancy, domains: seq<DomainGrant>, resources: seq<ResourceGrant>)
    ensures var role, roles := TopTenancy(m), AllGrants(m, domains, resources);
            && (role.None? <==> forall g :: g in roles ==> !g.OnTenancy?)
            && (role.Some? ==> exists g :: g in roles && g.OnTenancy? && g.role == role.value)
            && (role.Some? ==> forall g :: g in roles && g.OnTenancy? ==> Priority(g.role) <= Priority(role.value))
  {
    var roles := AllGrants(m, domains, resources);
    assert forall i :: 0 <= i < |m| ==> roles[i] == OnTenancy(m[i].0, m[i].1);
    assert forall i :: |m| <= i < |roles| ==> !roles[i].OnTenancy?;
    if m != [] {
      assert roles[0] in roles;
      var i :| 0 <= i < |m| && m[i].0 == TopTenancy(m).value;
      assert roles[i] in roles;
    }
  }

  // ---------------------------------------------------------------- what the folds compute

  lemma StepTenancyGets(m: Tenancy, row: Row, role: TenancyRole)
    requires Distinct(Keys(m))
    ensures Distinct(Keys(StepTenancy(m, row)))
    ensures Get(StepTenancy(m, row), role)
            == if !TouchesRole(row, role) then Get(m, role)
               else if row.event.RoleAssigned? then Some(Grant(row.event.grantedBy, row.ts))
               else None
  {
    match row.event
    case RoleAssigned(r, grantor) =>
      if TenancyOf(r).Some? {
        SetGets(m, TenancyOf(r).value, Grant(grantor, row.ts), role);
        SetKeys(m, TenancyOf(r).value, Grant(grantor, row.ts));
      }
    case RoleRevoked(r) =>
      if TenancyOf(r).Some? {
        DeleteLaws(m, TenancyOf(r).value, role);
      }
    case _ =>
  }

  /** A role is held exactly as the last row that assigns or revokes it says. */
  lemma {:induction false} TenancyIsHeld(own: seq<Row>, role: TenancyRole)
    ensures Get(TenancyAfter(own), role) == Held(own, role)
    ensures Distinct(Keys(TenancyAfter(own)))
  {
    if own != [] {
      var n := |own| - 1;
      TenancyIsHeld(own[..n], role);
      StepTenancyGets(TenancyAfter(own[..n]), own[n], role);
    }
  }

  lemma StepIdentitiesGets(m: Identities, row: Row, key: string)
    requires Distinct(Keys(m))
    ensures Distinct(Keys(StepIdentities(m, row)))
    ensures Get(StepIdentities(m, row), key)
            == if ProposesKey(row, key) then Some(Described(row, key))
               else if UnlinksKey(row, key) then None
               else if LinksKey(row, key) && Get(m, key).None? then Some(Described(row, key))
               else Get(m, key)
  {
    match row.event
    case Proposed(name, _, platform, userId, _, proposedBy) =>
      if NamesIdentity(platform, userId) {
        var k, v := IdentityKey(platform.value, userId.value),
            Identity(platform.value, userId.value, name, row.ts, proposedBy);
        SetGets(m, k, v, key);
        SetKeys(m, k, v);
      }
    case IdentityLinked(platform, userId, linkedBy) =>
      if NamesIdentity(platform, userId) {
        var k, v := IdentityKey(platform.value, userId.value),
            Identity(platform.value, userId.value, None, row.ts, linkedBy);
        HasIsIn(m, k);
        GetIffIn(m, k);
        SetGets(m, k, v, key);
        SetKeys(m, k, v);
      }
    case IdentityUnlinked(platform, userId) =>
      if NamesIdentity(platform, userId) {
        DeleteLaws(m, IdentityKey(platform.value, userId.value), key);
      }
    case _ =>
  }

  lemma AttachedGrows(own: seq<Row>, row: Row, key: string)
    ensures Attached(own + [row], key)
            == if ProposesKey(row, key) then Some(Described(row, key))
               else if UnlinksKey(row, key) then None
               else if LinksKey(row, key) && Attached(own, key).None? then Some(Described(row, key))
               else Attached(own, key)
  {
    var n := |own|;
    assert (own + [row])[..n] == own && (own + [row])[n] == row;
  }

  /** An identity key is listed, with its value, exactly as the rows since its last unlink say. */
  lemma {:induction false} IdentitiesAreAttached(own: seq<Row>, key: string)
    ensures Get(IdentitiesAfter(own), key) == Attached(own, key)
    ensures Distinct(Keys(IdentitiesAfter(own)))
  {
    if own != [] {
      var n := |own| - 1;
      IdentitiesAreAttached(own[..n], key);
      StepIdentitiesGets(IdentitiesAfter(own[..n]), own[n], key);
      AttachedGrows(own[..n], own[n], key);
      assert own[..n] + [own[n]] == own;
    }
  }

  function FirstProposal(own: seq<Row>): Option<nat> {
    FirstFrom(own, 0, IsProposal)
  }

  /** The rows from the first proposal on. */
  function SinceProposed(own: seq<Row>): seq<Row> {
    var f := FirstProposal(own);
    if f.Some? then own[f.value..] else []
  }

  ghost predicate AllOf(own: seq<Row>, id: string) {
    forall i :: 0 <= i < |own| ==> own[i].pid == Some(id)
  }

  /** The lists of the person are those the separate folds make of `since`. */
  predicate Facets(since: seq<Row>, p: Person) {
    && p.tenancy == TenancyAfter(since) && p.identities == IdentitiesAfter(since)
    && p.domains == DomainsAfter(since) && p.resources == ResourcesAfter(since)
  }

  lemma FacetsGrow(since: seq<Row>, p: Option<Person>, id: string, row: Row)
    requires id != "" && (p.Some? ==> p.value.id == id && Facets(since, p.value)) && (p.None? ==> since == [])
    ensures StepPerson(p, id, row).Some? <==> p.Some? || row.event.Proposed?
    ensures StepPerson(p, id, row).Some? ==>
              StepPerson(p, id, row).value.id == id && Facets(since + [row], StepPerson(p, id, row).value)
  {
    assert (since + [row])[..|since|] == since;
  }

  /** Whether a person is known, and what from the first proposal on the folds over single facets make
      of its rows, is all there is in the whole fold. */
  ghost predicate KnownSince(own: seq<Row>, id: string) {
    && (PersonAfter(own, id).Some? <==> FirstProposal(own).Some?)
    && (PersonAfter(own, id).Some? ==>
          PersonAfter(own, id).value.id == id && Facets(SinceProposed(own), PersonAfter(own, id).value))
  }

  lemma KnownGrows(own: seq<Row>, row: Row, id: string)
    requires id != "" && row.pid == Some(id) && KnownSince(own, id)
    ensures KnownSince(own + [row], id)
  {
    RowGrows(own, row, id);
    SinceProposedGrows(own, row);
    FacetsGrow(SinceProposed(own), PersonAfter(own, id), id, row);
  }

  lemma {:induction false} PersonIsSinceProposed(own: seq<Row>, id: string)
    requires id != "" && AllOf(own, id)
    ensures KnownSince(own, id)
  {
    if own != [] {
      var n := |own| - 1;
      PersonIsSinceProposed(own[..n], id);
      assert own[..n] + [own[n]] == own;
      KnownGrows(own[..n], own[n], id);
    }
  }

  lemma SinceProposedGrows(own: seq<Row>, row: Row)
    ensures FirstProposal(own + [row]).Some? <==> FirstProposal(own).Some? || row.event.Proposed?
    ensures SinceProposed(own + [row])
            == if FirstProposal(own).Some? || row.event.Proposed? then SinceProposed(own) + [row] else []
    ensures FirstProposal(own).None? ==> SinceProposed(own) == []
    ensures (SinceProposed(own) + [row])[..|SinceProposed(own)|] == SinceProposed(own)
  {
    assert (own + [row])[..|own|] == own;
  }

  /** The row that last set the field `p` looks at. */
  function LastOf(own: seq<Row>, p: Row -> bool): Row
    requires LastIndex(own, p).Some?
  {
    own[LastIndex(own, p).value]
  }

  /** Name, email and position come from the last proposal. */
  ghost predicate ProfileSaid(own: seq<Row>, p: Person) {
    && LastIndex(own, IsProposal).Some?
    && var e := LastOf(own, IsProposal).event;
    && p.displayName == (if e.name.Some? then e.name.value else if e.email.Some? then e.email.value else p.id)
    && p.email == e.email && p.position == e.position
  }

  /** The status comes from the last row that proposes, confirms or archives. */
  ghost predicate StatusSaid(own: seq<Row>, p: Person) {
    LastIndex(own, ChangesStatus).Some? && p.status == StatusOf(LastOf(own, ChangesStatus))
  }

  /** The receipt is that of the last row, from the first proposal on, that touches the person. */
  ghost predicate ReceiptSaid(own: seq<Row>, p: Person) {
    LastIndex(SinceProposed(own), Marks).Some? && p.lastHash == LastOf(SinceProposed(own), Marks).hash
  }

  /** What a history of one person's rows says of the fields that are not lists. */
  ghost predicate Says(own: seq<Row>, p: Person) {
    ProfileSaid(own, p) && StatusSaid(own, p) && ReceiptSaid(own, p)
  }

  lemma LastOfGrows(own: seq<Row>, row: Row, p: Row -> bool)
    ensures p(row) || LastIndex(own, p).Some? ==>
              LastIndex(own + [row], p).Some? && LastOf(own + [row], p) == if p(row) then row else LastOf(own, p)
  {
    LastIndexGrows(own, row, p);
  }

  lemma ProfileGrows(own: seq<Row>, row: Row, p: Option<Person>, id: string)
    requires id != "" && (p.Some? ==> p.value.id == id && ProfileSaid(own, p.value))
    ensures StepPerson(p, id, row).Some? ==> ProfileSaid(own + [row], StepPerson(p, id, row).value)
  {
    LastOfGrows(own, row, IsProposal);
  }

  lemma StatusGrows(own: seq<Row>, row: Row, p: Option<Person>, id: string)
    requires id != "" && (p.Some? ==> StatusSaid(own, p.value))
    ensures StepPerson(p, id, row).Some? ==> StatusSaid(own + [row], StepPerson(p, id, row).value)
  {
    LastOfGrows(own, row, ChangesStatus);
  }

  lemma ReceiptGrows(own: seq<Row>, row: Row, p: Option<Person>, id: string)
    requires id != "" && (p.Some? <==> FirstProposal(own).Some?) && (p.Some? ==> ReceiptSaid(own, p.value))
    ensures StepPerson(p, id, row).Some? ==> ReceiptSaid(own + [row], StepPerson(p, id, row).value)
  {
    SinceProposedGrows(own, row);
    LastOfGrows(SinceProposed(own), row, Marks);
  }

  lemma {:induction false} PersonSays(own: seq<Row>, id: string)
    requires id != "" && AllOf(own, id)
    ensures PersonAfter(own, id).Some? ==> Says(own, PersonAfter(own, id).value)
  {
    if own != [] {
      var n := |own| - 1;
      var before := PersonAfter(own[..n], id);
      PersonSays(own[..n], id);
      PersonIsSinceProposed(own[..n], id);
      ProfileGrows(own[..n], own[n], before, id);
      StatusGrows(own[..n], own[n], before, id);
      ReceiptGrows(own[..n], own[n], before, id);
      assert own[..n] + [own[n]] == own;
    }
  }

  /** Everything a history of one person's rows says of that person: roles and identities are those the
      rows from the first proposal on hold and attach, domain and resource grants are the assignments
      among those rows, and the other fields are as `Says`. */
  ghost predicate Told(own: seq<Row>, p: Person) {
    var since := SinceProposed(own);
    && Says(own, p)
    && (forall role :: Get(p.tenancy, role) == Held(since, role))
    && (forall key :: Get(p.identities, key) == Attached(since, key))
    && p.domains == DomainsAfter(since) && p.resources == ResourcesAfter(since)
  }

  /** The whole-ledger fold, from the history alone: a person is known once proposed, and as told. */
  lemma PersonFromHistory(rows: seq<Row>, id: string)
    ensures PersonAfter(rows, id).Some? <==> id != "" && FirstProposal(RowsOf(rows, id)).Some?
    ensures PersonAfter(rows, id).Some? ==> Told(RowsOf(rows, id), PersonAfter(rows, id).value)
  {
    var own := RowsOf(rows, id);
    if id == "" {
      NobodyWithoutId(rows);
    } else {
      OwnRowsOnly(rows, id);
      ByIdIsLookup(rows, id);
      PersonSays(own, id);
      PersonIsSinceProposed(own, id);
      forall role ensures Get(TenancyAfter(SinceProposed(own)), role) == Held(SinceProposed(own), role) {
        TenancyIsHeld(SinceProposed(own), role);
      }
      forall key ensures Get(IdentitiesAfter(SinceProposed(own)), key) == Attached(SinceProposed(own), key) {
        IdentitiesAreAttached(SinceProposed(own), key);
      }
    }
  }

  lemma {:induction false} NobodyWithoutId(rows: seq<Row>)
    ensures PersonAfter(rows, "").None?
  {
    if rows != [] {
      NobodyWithoutId(rows[..|rows|-1]);
    }
  }

  // ---------------------------------------------------------------- when exactly the folds agree

  /** Some row from `first` on assigns or revokes the role. */
  ghost predicate TouchedFrom(own: seq<Row>, first: nat, role: TenancyRole) {
    exists j :: first <= j < |own| && TouchesRole(own[j], role)
  }

  /** Some row from `first` on proposes, links or unlinks the key. */
  ghost predicate NamedFrom(own: seq<Row>, first: nat, key: string) {
    exists j :: first <= j < |own| && (ProposesKey(own[j], key) || LinksKey(own[j], key) || UnlinksKey(own[j], key))
  }

  /** Some row from `first` on proposes or unlinks the key. */
  ghost predicate ResetFrom(own: seq<Row>, first: nat, key: string) {
    exists j :: first <= j < |own| && (ProposesKey(own[j], key) || UnlinksKey(own[j], key))
  }

  lemma SlicesSnoc(own: seq<Row>, first: nat)
    requires first < |own|
    ensures var n := |own| - 1;
            own[..n] + [own[n]] == own && own[..n][first..] + [own[n]] == own[first..]
                && own[..n][..first] == own[..first]
  {
  }

  lemma HeldGrows(own: seq<Row>, row: Row, role: TenancyRole)
    ensures Held(own + [row], role)
            == if !TouchesRole(row, role) then Held(own, role)
               else if row.event.RoleAssigned? then Some(Grant(row.event.grantedBy, row.ts))
               else None
  {
    LastIndexGrows(own, row, Touching(role));
  }

  lemma {:induction false} HeldSplits(own: seq<Row>, first: nat, role: TenancyRole)
    requires first <= |own|
    ensures Held(own, role) == if TouchedFrom(own, first, role) then Held(own[first..], role)
              else Held(own[..first], role)
    ensures !TouchedFrom(own, first, role) ==> Held(own[first..], role).None?
    decreases |own|
  {
    if |own| == first {
      assert own[..first] == own && own[first..] == [];
    } else {
      var n := |own| - 1;
      var front, since := own[..n], own[..n][first..];
      HeldSplits(front, first, role);
      SlicesSnoc(own, first);
      HeldGrows(front, own[n], role);
      HeldGrows(since, own[n], role);
      assert TouchedFrom(own, first, role) <==> TouchedFrom(front, first, role) || TouchesRole(own[n], role);
    }
  }

  lemma NamedGrows(own: seq<Row>, first: nat, key: string)
    requires first < |own|
    ensures var n := |own| - 1;
            && (NamedFrom(own, first, key) <==>
                  NamedFrom(own[..n], first, key) || ProposesKey(own[n], key) || LinksKey(own[n], key)
                      || UnlinksKey(own[n], key))
            && (ResetFrom(own, first, key) <==>
                  ResetFrom(own[..n], first, key) || ProposesKey(own[n], key) || UnlinksKey(own[n], key))
  {
    var n := |own| - 1;
    assert forall j :: first <= j < n ==> own[..n][j] == own[j];
  }

  lemma {:induction false} AttachedSplits(own: seq<Row>, first: nat, key: string)
    requires first <= |own|
    ensures var whole, before, since := Attached(own, key), Attached(own[..first], key), Attached(own[first..], key);
            && (NamedFrom(own, first, key) ==> (whole.Some? <==> since.Some?))
            && (!NamedFrom(own, first, key) ==> since.None?)
            && whole == if ResetFrom(own, first, key) || before.None? then since else before
    decreases |own|
  {
    if |own| == first {
      assert own[..first] == own && own[first..] == [];
    } else {
      var n := |own| - 1;
      var front, since := own[..n], own[..n][first..];
      AttachedSplits(front, first, key);
      SlicesSnoc(own, first);
      AttachedGrows(front, own[n], key);
      AttachedGrows(since, own[n], key);
      NamedGrows(own, first, key);
    }
  }

  /** A role is shown alike by the whole fold and the role fold exactly when the rows before the first
      proposal leave it unheld, or a later row assigns or revokes it. */
  lemma TenancyAgreesIff(rows: seq<Row>, id: string, first: nat, role: TenancyRole)
    requires id != "" && FirstProposal(RowsOf(rows, id)) == Some(first)
    ensures PersonAfter(rows, id).Some?
    ensures var own := RowsOf(rows, id);
            Get(PersonAfter(rows, id).value.tenancy, role) == Get(TenancyAfter(own), role)
            <==> Get(TenancyAfter(own[..first]), role).None? || TouchedFrom(own, first, role)
  {
    var own := RowsOf(rows, id);
    PersonFromHistory(rows, id);
    TenancyIsHeld(own, role);
    TenancyIsHeld(own[..first], role);
    HeldSplits(own, first, role);
  }

  /** An identity is listed alike by the whole fold and the identity fold exactly when the rows before
      the first proposal leave it unlisted, or a row from it on proposes, links or unlinks it; it has
      the same value exactly when they leave it unlisted, a later row proposes or unlinks it, or the
      first later link happens to repeat it. */
  lemma IdentitiesAgreeIff(rows: seq<Row>, id: string, first: nat, key: string)
    requires id != "" && FirstProposal(RowsOf(rows, id)) == Some(first)
    ensures PersonAfter(rows, id).Some?
    ensures var own := RowsOf(rows, id);
            var whole, separate := Get(PersonAfter(rows, id).value.identities, key), Get(IdentitiesAfter(own), key);
            var before := Get(IdentitiesAfter(own[..first]), key);
            && ((whole.Some? <==> separate.Some?) <==> before.None? || NamedFrom(own, first, key))
            && (whole == separate
                <==> before.None? || ResetFrom(own, first, key) || before == Attached(own[first..], key))
  {
    var own := RowsOf(rows, id);
    PersonFromHistory(rows, id);
    IdentitiesAreAttached(own, key);
    IdentitiesAreAttached(own[..first], key);
    AttachedSplits(own, first, key);
  }

  // ---------------------------------------------------------------- when exactly the lists agree

  /** What a row does to the identities, as a change of a map. */
  function IdentityChange(row: Row): Change<string, Identity> {
    match row.event
    case Proposed(name, _, platform, userId, _, proposedBy) =>
      if NamesIdentity(platform, userId) then
        Put(IdentityKey(platform.value, userId.value), Identity(platform.value, userId.value, name, row.ts, proposedBy))
      else Skip
    case IdentityLinked(platform, userId, linkedBy) =>
      if NamesIdentity(platform, userId) then
        PutNew(IdentityKey(platform.value, userId.value),
               Identity(platform.value, userId.value, None, row.ts, linkedBy))
      else Skip
    case IdentityUnlinked(platform, userId) =>
      if NamesIdentity(platform, userId) then Drop(IdentityKey(platform.value, userId.value)) else Skip
    case _ => Skip
  }

  function TenancyChange(row: Row): Change<TenancyRole, Grant> {
    match row.event
    case RoleAssigned(role, grantor) =>
      if TenancyOf(role).Some? then Put(TenancyOf(role).value, Grant(grantor, row.ts)) else Skip
    case RoleRevoked(role) => if TenancyOf(role).Some? then Drop(TenancyOf(role).value) else Skip
    case _ => Skip
  }

  function IdentityChanges(rows: seq<Row>): (cs: seq<Change<string, Identity>>)
    ensures |cs| == |rows| && forall i :: 0 <= i < |cs| ==> cs[i] == IdentityChange(rows[i])
  {
    seq(|rows|, i requires 0 <= i < |rows| => IdentityChange(rows[i]))
  }

  function TenancyChanges(rows: seq<Row>): (cs: seq<Change<TenancyRole, Grant>>)
    ensures |cs| == |rows| && forall i :: 0 <= i < |cs| ==> cs[i] == TenancyChange(rows[i])
  {
    seq(|rows|, i requires 0 <= i < |rows| => TenancyChange(rows[i]))
  }

  lemma StepsAreChanges(m: Identities, t: Tenancy, row: Row)
    ensures StepIdentities(m, row) == Apply(m, IdentityChange(row))
    ensures StepTenancy(t, row) == Apply(t, TenancyChange(row))
  {
  }

  lemma {:induction false} IdentitiesAreARun(before: seq<Row>, since: seq<Row>)
    ensures IdentitiesAfter(before + since) == Run(IdentitiesAfter(before), IdentityChanges(since))
  {
    if since == [] {
      assert before + since == before;
    } else {
      var n := |since| - 1;
      assert (before + since)[..|before + since| - 1] == before + since[..n];
      IdentitiesAreARun(before, since[..n]);
      assert IdentityChanges(since)[..n] == IdentityChanges(since[..n]);
      StepsAreChanges(IdentitiesAfter(before + since[..n]), [], since[n]);
    }
  }

  lemma {:induction false} TenancyIsARun(before: seq<Row>, since: seq<Row>)
    ensures TenancyAfter(before + since) == Run(TenancyAfter(before), TenancyChanges(since))
  {
    if since == [] {
      assert before + since == before;
    } else {
      var n := |since| - 1;
      assert (before + since)[..|before + since| - 1] == before + since[..n];
      TenancyIsARun(before, since[..n]);
      assert TenancyChanges(since)[..n] == TenancyChanges(since[..n]);
      StepsAreChanges([], TenancyAfter(before + since[..n]), since[n]);
    }
  }

  /** The keys that no row unlinks, in order. */
  ghost function StillListed(keys: seq<string>, rows: seq<Row>): seq<string> {
    if keys == [] then []
    else if exists j :: 0 <= j < |rows| && UnlinksKey(rows[j], keys[0]) then StillListed(keys[1..], rows)
    else [keys[0]] + StillListed(keys[1..], rows)
  }

  /** The roles that no row revokes, in order. */
  ghost function StillHeld(roles: seq<TenancyRole>, rows: seq<Row>): seq<TenancyRole> {
    if roles == [] then []
    else if exists j :: 0 <= j < |rows| && rows[j].event.RoleRevoked? && TouchesRole(rows[j], roles[0]) then
      StillHeld(roles[1..], rows)
    else [roles[0]] + StillHeld(roles[1..], rows)
  }

  lemma DropsIffUnlinks(rows: seq<Row>, key: string)
    ensures Drops(IdentityChanges(rows), key) <==> exists j :: 0 <= j < |rows| && UnlinksKey(rows[j], key)
  {
    var cs := IdentityChanges(rows);
    assert forall j :: 0 <= j < |rows| ==> (cs[j].Drop? && cs[j].key == key <==> UnlinksKey(rows[j], key));
  }

  lemma DropsIffRevokes(rows: seq<Row>, role: TenancyRole)
    ensures Drops(TenancyChanges(rows), role)
            <==> exists j :: 0 <= j < |rows| && rows[j].event.RoleRevoked? && TouchesRole(rows[j], role)
  {
    var cs := TenancyChanges(rows);
    assert forall j :: 0 <= j < |rows| ==>
      (cs[j].Drop? && cs[j].key == role <==> rows[j].event.RoleRevoked? && TouchesRole(rows[j], role));
  }

  lemma {:induction false} StillListedIsKept(keys: seq<string>, rows: seq<Row>)
    ensures StillListed(keys, rows) == Kept(keys, IdentityChanges(rows))
  {
    if keys != [] {
      DropsIffUnlinks(rows, keys[0]);
      StillListedIsKept(keys[1..], rows);
    }
  }

  lemma {:induction false} StillHeldIsKept(roles: seq<TenancyRole>, rows: seq<Row>)
    ensures StillHeld(roles, rows) == Kept(roles, TenancyChanges(rows))
  {
    if roles != [] {
      DropsIffRevokes(rows, roles[0]);
      StillHeldIsKept(roles[1..], rows);
    }
  }

  /** `whole` starts with the same entries as `separate`, as far as there are keys. */
  predicate StartsAlike<K(==), V(==)>(whole: Entries<K, V>, separate: Entries<K, V>, keys: seq<K>) {
    |keys| <= |whole| && |keys| <= |separate| && whole[..|keys|] == separate[..|keys|]
  }

  lemma IdentitiesSplitAt(before: seq<Row>, since: seq<Row>)
    ensures var whole, separate := IdentitiesAfter(since), IdentitiesAfter(before + since);
            var still := StillListed(Keys(IdentitiesAfter(before)), since);
            && |still| <= |separate| && Keys(separate)[..|still|] == still
            && (whole == separate <==> StartsAlike(whole, separate, still))
  {
    assert [] + since == since;
    IdentitiesAreARun(before, since);
    IdentitiesAreARun([], since);
    StillListedIsKept(Keys(IdentitiesAfter(before)), since);
    SameRunIff(IdentitiesAfter(before), IdentityChanges(since));
  }

  lemma TenancySplitAt(before: seq<Row>, since: seq<Row>)
    ensures var whole, separate := TenancyAfter(since), TenancyAfter(before + since);
            var still := StillHeld(Keys(TenancyAfter(before)), since);
            && |still| <= |separate| && Keys(separate)[..|still|] == still
            && (whole == separate <==> StartsAlike(whole, separate, still))
  {
    assert [] + since == since;
    TenancyIsARun(before, since);
    TenancyIsARun([], since);
    StillHeldIsKept(Keys(TenancyAfter(before)), since);
    SameRunIff(TenancyAfter(before), TenancyChanges(since));
  }

  lemma WholeIsSince(rows: seq<Row>, id: string, first: nat)
    requires id != "" && FirstProposal(RowsOf(rows, id)) == Some(first)
    ensures PersonAfter(rows, id).Some?
    ensures Facets(RowsOf(rows, id)[first..], PersonAfter(rows, id).value)
    ensures RowsOf(rows, id)[..first] + RowsOf(rows, id)[first..] == RowsOf(rows, id)
  {
    OwnRowsOnly(rows, id);
    ByIdIsLookup(rows, id);
    OwnIsSince(RowsOf(rows, id), id, first);
  }

  /** The identity fold lists first, in order, the identities listed before the first proposal that no
      later row unlinks; its list and that of the whole fold are equal, order included, exactly when the
      whole fold starts with the same entries. */
  lemma IdentityListsAgreeIff(rows: seq<Row>, id: string, first: nat)
    requires id != "" && FirstProposal(RowsOf(rows, id)) == Some(first)
    ensures PersonAfter(rows, id).Some?
    ensures var own := RowsOf(rows, id);
            var whole, separate := PersonAfter(rows, id).value.identities, IdentitiesAfter(own);
            var still := StillListed(Keys(IdentitiesAfter(own[..first])), own[first..]);
            && |still| <= |separate| && Keys(separate)[..|still|] == still
            && (whole == separate <==> StartsAlike(whole, separate, still))
  {
    WholeIsSince(rows, id, first);
    IdentitiesSplitAt(RowsOf(rows, id)[..first], RowsOf(rows, id)[first..]);
  }

  /** The same of the tenancy grants: first come the roles held before the first proposal that no later
      row revokes. */
  lemma TenancyListsAgreeIff(rows: seq<Row>, id: string, first: nat)
    requires id != "" && FirstProposal(RowsOf(rows, id)) == Some(first)
    ensures PersonAfter(rows, id).Some?
    ensures var own := RowsOf(rows, id);
            var whole, separate := PersonAfter(rows, id).value.tenancy, TenancyAfter(own);
            var still := StillHeld(Keys(TenancyAfter(own[..first])), own[first..]);
            && |still| <= |separate| && Keys(separate)[..|still|] == still
            && (whole == separate <==> StartsAlike(whole, separate, still))
  {
    WholeIsSince(rows, id, first);
    TenancySplitAt(RowsOf(rows, id)[..first], RowsOf(rows, id)[first..]);
  }

  /** An identity linked, the person proposed, another linked, and the first proposed again: each key is
      shown alike, and the two lists are in opposite orders. */
  lemma OrderCanDiffer(id: string, a: string, b: string, t: int)
    requires id != "" && a != "" && b != "" && IdentityKey("slack", a) != IdentityKey("slack", b)
    ensures var rows := [LinkRow(id, a, t), ProposalRow(id, None, t), LinkRow(id, b, t), ProposalRow(id, Some(a), t)];
            var linkedB := (IdentityKey("slack", b), Identity("slack", b, None, t, None));
            var proposedA := (IdentityKey("slack", a), Identity("slack", a, None, t, None));
            && RowsOf(rows, id) == rows && PersonAfter(rows, id).Some?
            && IdentitiesAfter(rows) == [proposedA, linkedB]
            && PersonAfter(rows, id).value.identities == [linkedB, proposedA]
  {
    var r0, r1, r2, r3 := LinkRow(id, a, t), ProposalRow(id, None, t), LinkRow(id, b, t), ProposalRow(id, Some(a), t);
    var ka, kb := IdentityKey("slack", a), IdentityKey("slack", b);
    var va, vb := Identity("slack", a, None, t, None), Identity("slack", b, None, t, None);
    FourRows(r0, r1, r2, r3, id);
    assert StepIdentities([], r0) == [(ka, va)] && StepIdentities([(ka, va)], r1) == [(ka, va)];
    assert Set([], kb, vb) == [(kb, vb)] && Set([(ka, va)], kb, vb) == [(ka, va)] + Set([], kb, vb);
    assert !Has([(ka, va)], kb);
    assert StepIdentities([(ka, va)], r2) == [(ka, va), (kb, vb)];
    assert StepIdentities([(ka, va), (kb, vb)], r3) == [(ka, va), (kb, vb)];
    assert StepIdentities([], r1) == [] && StepIdentities([], r2) == [(kb, vb)];
    assert Set([(kb, vb)], ka, va) == [(kb, vb)] + Set([], ka, va) && Set([], ka, va) == [(ka, va)];
  }

  function LinkRow(id: string, user: string, t: int): Row {
    Row(t, "", Some(id), IdentityLinked(Some("slack"), Some(user), None))
  }

  function ProposalRow(id: string, user: Option<string>, t: int): Row {
    Row(t, "", Some(id), Proposed(None, None, Some("slack"), user, None, None))
  }

  lemma RowGrows(rows: seq<Row>, row: Row, id: string)
    requires row.pid == Some(id)
    ensures RowsOf(rows + [row], id) == RowsOf(rows, id) + [row]
    ensures IdentitiesAfter(rows + [row]) == StepIdentities(IdentitiesAfter(rows), row)
    ensures PersonAfter(rows + [row], id) == StepPerson(PersonAfter(rows, id), id, row)
  {
    assert (rows + [row])[..|rows|] == rows;
  }

  lemma FourRows(r0: Row, r1: Row, r2: Row, r3: Row, id: string)
    requires r0.pid == Some(id) && r1.pid == Some(id) && r2.pid == Some(id) && r3.pid == Some(id)
    ensures var rows := [r0, r1, r2, r3];
            && RowsOf(rows, id) == rows
            && IdentitiesAfter(rows)
               == StepIdentities(StepIdentities(StepIdentities(StepIdentities([], r0), r1), r2), r3)
            && PersonAfter(rows, id)
               == StepPerson(StepPerson(StepPerson(StepPerson(None, id, r0), id, r1), id, r2), id, r3)
  {
    RowGrows([], r0, id);
    RowGrows([r0], r1, id);
    RowGrows([r0, r1], r2, id);
    RowGrows([r0, r1, r2], r3, id);
    assert [] + [r0] == [r0] && [r0] + [r1] == [r0, r1] && [r0, r1] + [r2] == [r0, r1, r2];
    assert [r0, r1, r2] + [r3] == [r0, r1, r2, r3];
  }

  lemma {:induction false} GrantsConcat(before: seq<Row>, since: seq<Row>)
    ensures DomainsAfter(before + since) == DomainsAfter(before) + DomainsAfter(since)
    ensures ResourcesAfter(before + since) == ResourcesAfter(before) + ResourcesAfter(since)
  {
    if since == [] {
      assert before + since == before;
    } else {
      var n := |since| - 1;
      assert (before + since)[..|before + since| - 1] == before + since[..n];
      GrantsConcat(before, since[..n]);
    }
  }

  /** No role that only the rows before the first proposal leave held outranks every role held since. */
  ghost predicate NotOutranked(own: seq<Row>, first: nat)
    requires first <= |own|
  {
    forall role {:trigger Held(own, role)} :: Held(own, role).Some? && Held(own[first..], role).None? ==>
      exists r :: Held(own[first..], r).Some? && Priority(r) > Priority(role)
  }

  /** `top` is the held role of highest priority, if any is held. */
  ghost predicate Tops(own: seq<Row>, top: Option<TenancyRole>) {
    && (top.Some? ==> Held(own, top.value).Some?)
    && (forall role :: Held(own, role).Some? ==> top.Some? && Priority(role) <= Priority(top.value))
  }

  lemma TopIsHeld(own: seq<Row>)
    ensures Tops(own, TopTenancy(TenancyAfter(own)))
  {
    var m := TenancyAfter(own);
    forall role ensures Held(own, role).Some? <==> exists i :: 0 <= i < |m| && m[i].0 == role {
      TenancyIsHeld(own, role);
      GetIffIn(m, role);
      if i :| 0 <= i < |m| && m[i].0 == role {
        assert Keys(m)[i] == role;
      }
    }
  }

  lemma OneTop(own: seq<Row>, a: Option<TenancyRole>, b: Option<TenancyRole>)
    requires Tops(own, a) && Tops(own, b)
    ensures a == b
  {
  }

  lemma TopOfAll(own: seq<Row>, first: nat, top: Option<TenancyRole>)
    requires first <= |own| && Tops(own[first..], top) && NotOutranked(own, first)
    ensures Tops(own, top)
  {
    if top.Some? {
      HeldSplits(own, first, top.value);
    }
    forall role | Held(own, role).Some? ensures top.Some? && Priority(role) <= Priority(top.value) {
      if Held(own[first..], role).None? {
        var r :| Held(own[first..], r).Some? && Priority(r) > Priority(role);
        assert Priority(r) <= Priority(top.value);
      }
    }
  }

  lemma OutrankedDiffers(own: seq<Row>, first: nat, top: Option<TenancyRole>)
    requires first <= |own| && Tops(own[first..], top) && !NotOutranked(own, first)
    ensures !Tops(own, top)
  {
    var role :| Held(own, role).Some? && Held(own[first..], role).None?
      && forall r :: Held(own[first..], r).Some? ==> Priority(r) <= Priority(role);
    assert top.Some? ==> role != top.value;
  }

  lemma TopAgreesIff(own: seq<Row>, first: nat)
    requires first <= |own|
    ensures TopTenancy(TenancyAfter(own[first..])) == TopTenancy(TenancyAfter(own)) <==> NotOutranked(own, first)
  {
    var since := TopTenancy(TenancyAfter(own[first..]));
    TopIsHeld(own);
    TopIsHeld(own[first..]);
    if NotOutranked(own, first) {
      TopOfAll(own, first, since);
      OneTop(own, TopTenancy(TenancyAfter(own)), since);
    } else {
      OutrankedDiffers(own, first, since);
    }
  }

  /** The tenancy role shown is the highest of the roles returned exactly when no role held only by rows
      before the first proposal outranks every role held since. */
  lemma TenancyRoleIsHighestIff(rows: seq<Row>, id: string, first: nat)
    requires id != "" && FirstProposal(RowsOf(rows, id)) == Some(first)
    ensures PersonAfter(rows, id).Some?
    ensures Project(PersonAfter(rows, id).value).tenancyRole == TopTenancy(TenancyAfter(RowsOf(rows, id)))
            <==> NotOutranked(RowsOf(rows, id), first)
  {
    WholeIsSince(rows, id, first);
    TopAgreesIff(RowsOf(rows, id), first);
  }

  /** The domain and the resource grants agree exactly when none is assigned before the first proposal. */
  lemma GrantsAgreeIff(rows: seq<Row>, id: string, first: nat)
    requires id != "" && FirstProposal(RowsOf(rows, id)) == Some(first)
    ensures PersonAfter(rows, id).Some?
    ensures var own := RowsOf(rows, id);
            && (PersonAfter(rows, id).value.domains == DomainsAfter(own) <==> DomainsAfter(own[..first]) == [])
            && (PersonAfter(rows, id).value.resources == ResourcesAfter(own) <==> ResourcesAfter(own[..first]) == [])
  {
    var own := RowsOf(rows, id);
    PersonFromHistory(rows, id);
    assert own[..first] + own[first..] == own;
    GrantsConcat(own[..first], own[first..]);
  }

  /** Without that, they can differ: an identity linked before the proposal is listed by the
      separate fold and unknown to the person. */
  lemma LinkBeforeProposalIsLost(id: string, platform: string, userId: string, t: int)
    requires id != "" && platform != "" && userId != ""
    ensures var own := [Row(t, "", Some(id), IdentityLinked(Some(platform), Some(userId), None)),
                        Row(t, "", Some(id), Proposed(None, None, None, None, None, None))];
            && RowsOf(own, id) == own
            && |IdentitiesAfter(own)| == 1
            && PersonAfter(own, id).Some? && PersonAfter(own, id).value.identities == []
  {
    var link := Row(t, "", Some(id), IdentityLinked(Some(platform), Some(userId), None));
    var proposal := Row(t, "", Some(id), Proposed(None, None, None, None, None, None));
    var own := [link, proposal];
    assert own[..1] == [link] && [link][..0] == [];
    assert RowsOf([link], id) == [link];
    assert IdentitiesAfter([link]) == Set([], IdentityKey(platform, userId), Identity(platform, userId, None, t, None));
    assert PersonAfter([link], id).None?;
  }
}
