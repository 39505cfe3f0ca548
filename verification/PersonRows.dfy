/** The rows of the person tools (apps/dashboard/lib/ledger-client.ts) and what a history of them says
    of one person: which roles are held, which identities are attached.

    Rows are in ledger order; `pid` is `args.person_id`, if present. */
module PersonRows {
  import opened Sequences
  import opened OrderedMaps

  datatype Event =
    | Proposed(name: Option<string>, email: Option<string>, platform: Option<string>, userId: Option<string>,
               position: Option<string>, proposedBy: Option<string>)
    | Confirmed
    | Archived
    | IdentityLinked(platform: Option<string>, userId: Option<string>, linkedBy: Option<string>)
    | IdentityUnlinked(platform: Option<string>, userId: Option<string>)
    | RoleAssigned(role: string, grantedBy: string)
    | RoleRevoked(role: string)
    | DomainRoleAssigned(domainId: string, role: string, grantedBy: string)
    | ResourceRoleAssigned(resourceId: string, resourceType: string, role: string, grantedBy: string)

  datatype Row = Row(ts: int, hash: string, pid: Option<string>, event: Event)

  datatype Identity = Identity(platform: string, userId: string, displayName: Option<string>, addedAt: int,
                               proposedBy: Option<string>)

  datatype TenancyRole = Installer | Admin | Member | Observer

  datatype Grant = Grant(grantor: string, at: int)

  datatype DomainGrant = DomainGrant(domainId: string, role: string, grant: Grant)

  datatype ResourceGrant = ResourceGrant(resourceId: string, resourceType: string, role: string, grant: Grant)

  datatype Status = IsProposed | IsActive | IsArchived

  type Identities = Entries<string, Identity>

  type Tenancy = Entries<TenancyRole, Grant>

  datatype Person = Person(
    id: string, displayName: string, email: Option<string>, position: Option<string>, status: Status,
    tenancy: Tenancy, identities: Identities, domains: seq<DomainGrant>, resources: seq<ResourceGrant>,
    lastHash: string)

  function TenancyOf(role: string): Option<TenancyRole> {
    if role == "installer" then Some(Installer)
    else if role == "admin" then Some(Admin)
    else if role == "member" then Some(Member)
    else if role == "observer" then Some(Observer)
    else None
  }

  function Priority(r: TenancyRole): nat {
    match r case Installer => 4 case Admin => 3 case Member => 2 case Observer => 1
  }

  predicate Given(s: Option<string>) {
    s.Some? && s.value != ""
  }

  predicate NamesIdentity(platform: Option<string>, userId: Option<string>) {
    Given(platform) && Given(userId)
  }

  function IdentityKey(platform: string, userId: string): string {
    platform + "|" + userId
  }

  /** Whether a row counts as touching a known person. */
  predicate Touches(e: Event) {
    match e
    case IdentityLinked(platform, userId, _) => NamesIdentity(platform, userId)
    case IdentityUnlinked(platform, userId) => NamesIdentity(platform, userId)
    case RoleAssigned(role, _) => TenancyOf(role).Some?
    case RoleRevoked(role) => TenancyOf(role).Some?
    case _ => true
  }

  /** The rows a query for one person returns. */
  function RowsOf(rows: seq<Row>, id: string): seq<Row> {
    if rows == [] then []
    else RowsOf(rows[..|rows|-1], id) + if rows[|rows|-1].pid == Some(id) then [rows[|rows|-1]] else []
  }

  // ---------------------------------------------------------------- what a history says

  /** How a row names a tenancy role. */
  function RoleName(role: TenancyRole): string {
    match role case Installer => "installer" case Admin => "admin" case Member => "member" case Observer => "observer"
  }

  predicate TouchesRole(r: Row, role: TenancyRole) {
    (r.event.RoleAssigned? || r.event.RoleRevoked?) && r.event.role == RoleName(role)
  }

  function Touching(role: TenancyRole): Row -> bool {
    (r: Row) => TouchesRole(r, role)
  }

  /** A role is held, with this grant, if the last row that assigns or revokes it is this assignment. */
  function Held(own: seq<Row>, role: TenancyRole): Option<Grant> {
    var k := LastIndex(own, Touching(role));
    if k.Some? && own[k.value].event.RoleAssigned? then Some(Grant(own[k.value].event.grantedBy, own[k.value].ts))
        else None
  }

  predicate NamesKey(platform: Option<string>, userId: Option<string>, key: string) {
    && platform.Some? && platform.value != "" && userId.Some? && userId.value != ""
    && platform.value + "|" + userId.value == key
  }

  predicate ProposesKey(r: Row, key: string) {
    r.event.Proposed? && NamesKey(r.event.platform, r.event.userId, key)
  }

  predicate LinksKey(r: Row, key: string) {
    r.event.IdentityLinked? && NamesKey(r.event.platform, r.event.userId, key)
  }

  predicate UnlinksKey(r: Row, key: string) {
    r.event.IdentityUnlinked? && NamesKey(r.event.platform, r.event.userId, key)
  }

  function Proposing(key: string): Row -> bool { (r: Row) => ProposesKey(r, key) }
  function Linking(key: string): Row -> bool { (r: Row) => LinksKey(r, key) }
  function Unlinking(key: string): Row -> bool { (r: Row) => UnlinksKey(r, key) }

  /** The identity a proposal or a link describes. */
  function Described(r: Row, key: string): Identity
    requires ProposesKey(r, key) || LinksKey(r, key)
  {
    if r.event.Proposed? then
      Identity(r.event.platform.value, r.event.userId.value, r.event.name, r.ts, r.event.proposedBy)
    else Identity(r.event.platform.value, r.event.userId.value, None, r.ts, r.event.linkedBy)
  }

  /** The index after the last row that unlinks the key. */
  function Unlinked(own: seq<Row>, key: string): (from: nat)
    ensures from <= |own|
  {
    var u := LastIndex(own, Unlinking(key));
    if u.Some? then u.value + 1 else 0
  }

  /** An identity is attached if a row after its last unlink proposes or links it; the last such
      proposal describes it, or without one the first such link. */
  function Attached(own: seq<Row>, key: string): (r: Option<Identity>)
    ensures r.Some? ==> IdentityKey(r.value.platform, r.value.userId) == key
  {
    var from := Unlinked(own, key);
    var p, l := LastIndex(own, Proposing(key)), FirstFrom(own, from, Linking(key));
    if p.Some? && p.value >= from then Some(Described(own[p.value], key))
    else if l.Some? then Some(Described(own[l.value], key))
    else None
  }

  predicate IsProposal(r: Row) { r.event.Proposed? }

  predicate ChangesStatus(r: Row) { r.event.Proposed? || r.event.Confirmed? || r.event.Archived? }

  predicate Marks(r: Row) { Touches(r.event) }

  function StatusOf(r: Row): Status {
    if r.event.Confirmed? then IsActive else if r.event.Archived? then IsArchived else IsProposed
  }
}
