/** The recursive query of `getAgentQueryChain`: the rows reached from a root trail id through
    caused_by, original_query_id, agent_query_id and trail-id links.

    The meaning wanted is the one `SELECT DISTINCT` keeps, a set of rows, and `Gather` computes it
    by rounds.  The query text joins its rounds with UNION ALL, which keeps repeated rows; the last
    section says when that evaluation ends, and that UNION would always end with the same rows.
    The ledger is the tenant's rows; the cap of 1000 rows on the answer is not applied. */
module AuditClosure {
  import opened Sequences
  import opened AuditRows

  type Ledger = set<Row>

  /** `l` links to a row whose trail id is `trail`; a null trail id links nothing. */
  predicate LinksTo(l: Payload, trail: Option<string>) {
    && trail.Some?
    && (l.causedBy == trail || l.originalQueryId == trail || l.agentQueryId == trail || Trail(l) == trail)
  }

  ghost predicate Touches(l: Row, rows: set<Row>) {
    exists c :: c in rows && LinksTo(l.payload, Trail(c.payload))
  }

  ghost function Seed(ledger: Ledger, root: string): set<Row> {
    set l | l in ledger && Trail(l.payload) == Some(root)
  }

  /** One join of the ledger with the rows found so far. */
  ghost function Join(ledger: Ledger, rows: set<Row>): set<Row> {
    set l | l in ledger && Touches(l, rows)
  }

  ghost function Rounds(ledger: Ledger, root: string, n: nat): set<Row> {
    if n == 0 then Seed(ledger, root)
    else Rounds(ledger, root, n - 1) + Join(ledger, Rounds(ledger, root, n - 1))
  }

  ghost function Gather(ledger: Ledger, root: string): set<Row> {
    Rounds(ledger, root, |ledger|)
  }

  ghost predicate Closed(ledger: Ledger, rows: set<Row>) {
    Join(ledger, rows) <= rows
  }

  // ---------------------------------------------------------------- the closure

  lemma JoinMonotone(ledger: Ledger, ledger': Ledger, rows: set<Row>, rows': set<Row>)
    requires ledger <= ledger' && rows <= rows'
    ensures Join(ledger, rows) <= Join(ledger', rows')
  {
    forall l | l in ledger && Touches(l, rows) ensures Touches(l, rows') {
      var c :| c in rows && LinksTo(l.payload, Trail(c.payload));
      assert c in rows';
    }
  }

  lemma {:induction false} RoundsWithin(ledger: Ledger, root: string, n: nat)
    ensures Rounds(ledger, root, n) <= ledger
  {
    if n > 0 {
      RoundsWithin(ledger, root, n - 1);
    }
  }

  /** Until it closes, each round adds a row. */
  lemma {:induction false} RoundsGrow(ledger: Ledger, root: string, n: nat)
    ensures Closed(ledger, Rounds(ledger, root, n)) || |Rounds(ledger, root, n)| > n
    ensures n > 0 && Closed(ledger, Rounds(ledger, root, n - 1)) ==>
              Rounds(ledger, root, n) == Rounds(ledger, root, n - 1)
  {
    if n == 0 {
      if Seed(ledger, root) == {} {
        assert Join(ledger, Seed(ledger, root)) == {};
      } else {
        var x :| x in Seed(ledger, root);
        SizeMonotone({x}, Seed(ledger, root));
      }
    } else {
      RoundsGrow(ledger, root, n - 1);
      SizeMonotone(Rounds(ledger, root, n - 1), Rounds(ledger, root, n));
    }
  }

  /** Gathering ends within as many rounds as there are rows, and yields the least set of ledger
      rows that holds the seed and is closed under the links. */
  lemma GatherIsLeastClosed(ledger: Ledger, root: string)
    ensures var rows := Gather(ledger, root);
            && Seed(ledger, root) <= rows <= ledger && Closed(ledger, rows)
            && (forall n: nat :: Rounds(ledger, root, n) <= rows)
            && (forall other: set<Row> :: Seed(ledger, root) <= other && Closed(ledger, other) ==> rows <= other)
  {
    RoundsWithin(ledger, root, |ledger|);
    RoundsGrow(ledger, root, |ledger|);
    SizeMonotone(Gather(ledger, root), ledger);
    forall other: set<Row>, n: nat | Seed(ledger, root) <= other && Closed(ledger, other)
      ensures Rounds(ledger, root, n) <= other
    {
      RoundsInside(ledger, root, n, other);
    }
    SeedKept(ledger, root, |ledger|);
  }

  lemma {:induction false} SeedKept(ledger: Ledger, root: string, n: nat)
    ensures Seed(ledger, root) <= Rounds(ledger, root, n)
  {
    if n > 0 {
      SeedKept(ledger, root, n - 1);
    }
  }

  lemma {:induction false} RoundsInside(ledger: Ledger, root: string, n: nat, other: set<Row>)
    requires Seed(ledger, root) <= other && Closed(ledger, other)
    ensures Rounds(ledger, root, n) <= other
  {
    if n > 0 {
      RoundsInside(ledger, root, n - 1, other);
      JoinMonotone(ledger, ledger, Rounds(ledger, root, n - 1), other);
    }
  }

  lemma NoSeedNoRows(ledger: Ledger, root: string)
    ensures Seed(ledger, root) == {} ==> Gather(ledger, root) == {}
  {
    GatherIsLeastClosed(ledger, root);
    assert Closed(ledger, {});
  }

  /** `t` is the first present of the payload's three ids. */
  predicate Carries(p: Payload, t: string) {
    || p.auditTrailId == Some(t)
    || (p.auditTrailId == None && p.originalQueryId == Some(t))
    || (p.auditTrailId == None && p.originalQueryId == None && p.agentQueryId == Some(t))
  }

  /** The payload names `t` in one of its link fields, or carries it. */
  predicate Names(p: Payload, t: string) {
    p.causedBy == Some(t) || p.originalQueryId == Some(t) || p.agentQueryId == Some(t) || Carries(p, t)
  }

  /** `rows` has the ledger rows that carry the root id, and every ledger row that names an id which a
      row it has carries. */
  ghost predicate FollowsLinks(ledger: Ledger, root: string, rows: set<Row>) {
    && (forall l :: l in ledger && Carries(l.payload, root) ==> l in rows)
    && (forall c, l, t :: c in rows && Carries(c.payload, t) && l in ledger && Names(l.payload, t) ==> l in rows)
  }

  /** Why a row is there: it carries the root id, or names an id that a row there carries. */
  ghost predicate Reached(ledger: Ledger, root: string, rows: set<Row>, l: Row) {
    && l in ledger
    && (Carries(l.payload, root) || exists c, t :: c in rows && Carries(c.payload, t) && Names(l.payload, t))
  }

  /** In terms of the payload fields: the gathered rows follow all links, each is reached by one, and no
      smaller set follows them. */
  lemma GatherFollowsLinks(ledger: Ledger, root: string)
    ensures FollowsLinks(ledger, root, Gather(ledger, root))
    ensures forall l :: l in Gather(ledger, root) ==> Reached(ledger, root, Gather(ledger, root), l)
    ensures forall rows: set<Row> :: FollowsLinks(ledger, root, rows) ==> Gather(ledger, root) <= rows
  {
    var rows := Gather(ledger, root);
    GatherIsLeastClosed(ledger, root);
    forall c, l, t | c in rows && Carries(c.payload, t) && l in ledger && Names(l.payload, t) ensures l in rows {
      LinksSay(l.payload, c.payload, t);
      assert l in Join(ledger, rows);
    }
    forall l | l in rows ensures Reached(ledger, root, rows, l) {
      ReachedInRound(ledger, root, |ledger|, l);
    }
    forall other: set<Row> | FollowsLinks(ledger, root, other) ensures rows <= other {
      FollowingIsClosed(ledger, root, other);
    }
  }

  /** A link in terms of the payload fields. */
  lemma LinksSay(l: Payload, c: Payload, t: string)
    ensures Carries(c, t) <==> Trail(c) == Some(t)
    ensures Names(l, t) <==> LinksTo(l, Some(t))
  {
  }

  lemma RoundsGrowOnly(ledger: Ledger, root: string, n: nat)
    requires n <= |ledger|
    ensures Rounds(ledger, root, n) <= Gather(ledger, root)
    decreases |ledger| - n
  {
    if n < |ledger| {
      RoundsGrowOnly(ledger, root, n + 1);
    }
  }

  lemma {:induction false} ReachedInRound(ledger: Ledger, root: string, n: nat, l: Row)
    requires n <= |ledger| && l in Rounds(ledger, root, n)
    ensures Reached(ledger, root, Gather(ledger, root), l)
  {
    if n == 0 {
      LinksSay(l.payload, l.payload, root);
    } else if l in Rounds(ledger, root, n - 1) {
      ReachedInRound(ledger, root, n - 1, l);
    } else {
      RoundsGrowOnly(ledger, root, n - 1);
      var c :| c in Rounds(ledger, root, n - 1) && LinksTo(l.payload, Trail(c.payload));
      LinksSay(l.payload, c.payload, Trail(c.payload).value);
      assert c in Gather(ledger, root);
    }
  }

  lemma FollowingIsClosed(ledger: Ledger, root: string, other: set<Row>)
    requires FollowsLinks(ledger, root, other)
    ensures Gather(ledger, root) <= other
  {
    forall l | l in Seed(ledger, root) ensures l in other {
      LinksSay(l.payload, l.payload, root);
    }
    forall l | l in Join(ledger, other) ensures l in other {
      var c :| c in other && LinksTo(l.payload, Trail(c.payload));
      LinksSay(l.payload, c.payload, Trail(c.payload).value);
    }
    RoundsInside(ledger, root, |ledger|, other);
  }

  /** More ledger, more rows: nothing gathered before is lost. */
  lemma GatherGrows(ledger: Ledger, ledger': Ledger, root: string)
    requires ledger <= ledger'
    ensures Gather(ledger, root) <= Gather(ledger', root)
  {
    GatherIsLeastClosed(ledger, root);
    GatherIsLeastClosed(ledger', root);
    var kept := Gather(ledger', root) * ledger;
    JoinMonotone(ledger, ledger', kept, Gather(ledger', root));
    assert Closed(ledger, kept);
  }

  // ---------------------------------------------------------------- how the rounds are joined

  /** With UNION ALL, the rows the `n`-th round hands to the next. */
  ghost function UnionAllRound(ledger: Ledger, root: string, n: nat): set<Row> {
    if n == 0 then Seed(ledger, root) else Join(ledger, UnionAllRound(ledger, root, n - 1))
  }

  /** The evaluation stops at a round that yields nothing.  Every seed row links to itself through
      its own trail id, so there is such a round only if there is no seed row at all. */
  lemma UnionAllEndsIffNoSeed(ledger: Ledger, root: string)
    ensures (exists n: nat :: UnionAllRound(ledger, root, n) == {}) <==> Seed(ledger, root) == {}
  {
    if Seed(ledger, root) == {} {
      assert UnionAllRound(ledger, root, 0) == {};
    } else {
      forall n: nat ensures UnionAllRound(ledger, root, n) != {} {
        SeedReturns(ledger, root, n);
      }
    }
  }

  lemma {:induction false} SeedReturns(ledger: Ledger, root: string, n: nat)
    ensures Seed(ledger, root) <= UnionAllRound(ledger, root, n)
  {
    if n > 0 {
      SeedReturns(ledger, root, n - 1);
      forall l | l in Seed(ledger, root) ensures Touches(l, UnionAllRound(ledger, root, n - 1)) {
        assert l in UnionAllRound(ledger, root, n - 1) && LinksTo(l.payload, Trail(l.payload));
      }
    }
  }

  /** With UNION: the rows kept after `n` rounds, and those of them that were new in the last. */
  ghost function UnionRound(ledger: Ledger, root: string, n: nat): (set<Row>, set<Row>) {
    if n == 0 then (Seed(ledger, root), Seed(ledger, root))
    else
      var (all, last) := UnionRound(ledger, root, n - 1);
      var found := Join(ledger, last) - all;
      (all + found, found)
  }

  lemma JoinDistributes(ledger: Ledger, a: set<Row>, b: set<Row>)
    ensures Join(ledger, a + b) == Join(ledger, a) + Join(ledger, b)
  {
    JoinMonotone(ledger, ledger, a, a + b);
    JoinMonotone(ledger, ledger, b, a + b);
    forall l | l in Join(ledger, a + b) ensures l in Join(ledger, a) + Join(ledger, b) {
      var c :| c in a + b && LinksTo(l.payload, Trail(c.payload));
      assert Touches(l, a) || Touches(l, b);
    }
  }

  /** Looking only at the rows that are new loses nothing. */
  lemma {:induction false} UnionKeepsUp(ledger: Ledger, root: string, n: nat)
    ensures var (all, last) := UnionRound(ledger, root, n);
            && all == Rounds(ledger, root, n) && last <= all
            && Join(ledger, all - last) <= all
  {
    if n == 0 {
      assert Seed(ledger, root) - Seed(ledger, root) == {};
      assert Join(ledger, {}) == {};
    } else {
      UnionKeepsUp(ledger, root, n - 1);
      var (all, last) := UnionRound(ledger, root, n - 1);
      OnlyNewMatters(ledger, all, last);
    }
  }

  lemma OnlyNewMatters(ledger: Ledger, all: set<Row>, last: set<Row>)
    requires last <= all && Join(ledger, all - last) <= all
    ensures var found := Join(ledger, last) - all;
            all + found == all + Join(ledger, all) && Join(ledger, (all + found) - found) <= all + found
  {
    JoinDistributes(ledger, all - last, last);
    assert all == (all - last) + last;
    var found := Join(ledger, last) - all;
    assert (all + found) - found == all;
  }

  /** UNION ends, within one round more than there are rows, with exactly the gathered rows. */
  lemma UnionEndsWithGather(ledger: Ledger, root: string)
    ensures UnionRound(ledger, root, |ledger| + 1) == (Gather(ledger, root), {})
  {
    UnionKeepsUp(ledger, root, |ledger|);
    GatherIsLeastClosed(ledger, root);
    var (all, last) := UnionRound(ledger, root, |ledger|);
    JoinMonotone(ledger, ledger, last, all);
    assert Join(ledger, last) - all == {};
    assert all + {} == all;
  }

  lemma SizeMonotone(a: set<Row>, b: set<Row>)
    requires a <= b
    ensures |a| <= |b|
    ensures a != b ==> |a| < |b|
  {
    assert b == a + (b - a);
    if a != b {
      var x :| x in b - a;
      assert |b - a| > 0;
    }
  }
}
