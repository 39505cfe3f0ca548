/** `getTraceEntries` and `applyTraceFilters` (apps/dashboard/lib/ledger-client.ts) on the Postgres
    path: pages of the ledger in descending seq, a cursor that is an exclusive upper bound on seq,
    and filters applied to each page after it is fetched.

    Lower-casing is a parameter of the filters; times are already parsed, and a bound that does not
    parse is absent, since the code then skips it. */
module TracePages {
  import opened Sequences

  datatype Entry = Entry(seqNo: nat, summary: string, source: string, quadrant: string, kind: string,
                         persons: seq<string>, channelId: Option<string>, ts: int)

  datatype Options = Options(forSourceId: string, forKpiId: string, quadrant: string, kind: string, personId: string,
                             channelId: string, tsFrom: Option<int>, tsTo: Option<int>, limit: Option<int>,
                             lower: string -> string)

  datatype Filter =
    | BySource(id: string) | ByKpi(id: string) | ByQuadrant(q: string) | ByKind(k: string)
    | ByPerson(id: string) | ByChannel(id: string) | From(t: int) | Until(t: int)

  // ---------------------------------------------------------------- filters

  predicate Includes(s: string, part: string) {
    part <= s || (s != "" && Includes(s[1..], part))
  }

  predicate Passes(e: Entry, f: Filter, lower: string -> string) {
    match f
    case BySource(id) => Includes(e.summary, id) || Includes(e.source, id)
    case ByKpi(id) => Includes(lower(e.summary), lower(id))
    case ByQuadrant(q) => e.quadrant == q
    case ByKind(k) => Includes(lower(e.kind), lower(k)) || lower(e.quadrant) == lower(k)
    case ByPerson(id) => id in e.persons
    case ByChannel(id) => e.channelId == Some(id) || e.source == id
    case From(t) => e.ts >= t
    case Until(t) => e.ts <= t
  }

  /** The filters the options ask for, in the order they are applied; an empty string asks for none. */
  function Active(o: Options): seq<Filter> {
    Texts(o)
    + (if o.personId != "" then [ByPerson(o.personId)] else [])
    + (if o.channelId != "" then [ByChannel(o.channelId)] else [])
    + (if o.tsFrom.Some? then [From(o.tsFrom.value)] else [])
    + (if o.tsTo.Some? then [Until(o.tsTo.value)] else [])
  }

  function Texts(o: Options): seq<Filter> {
    (if o.forSourceId != "" then [BySource(o.forSourceId)] else [])
    + (if o.forKpiId != "" then [ByKpi(o.forKpiId)] else [])
    + (if o.quadrant != "" then [ByQuadrant(o.quadrant)] else [])
    + (if o.kind != "" then [ByKind(o.kind)] else [])
  }

  /** One filter over the entries. */
  function Sift(es: seq<Entry>, f: Filter, lower: string -> string): seq<Entry> {
    if es == [] then []
    else (if Passes(es[0], f, lower) then [es[0]] else []) + Sift(es[1..], f, lower)
  }

  /** One filter after the other. */
  function SiftAll(es: seq<Entry>, fs: seq<Filter>, lower: string -> string): seq<Entry>
    decreases |fs|
  {
    if fs == [] then es else SiftAll(Sift(es, fs[0], lower), fs[1..], lower)
  }

  function ApplyTraceFilters(es: seq<Entry>, o: Options): seq<Entry> {
    SiftAll(es, Active(o), o.lower)
  }

  predicate PassesAll(e: Entry, fs: seq<Filter>, lower: string -> string) {
    forall i :: 0 <= i < |fs| ==> Passes(e, fs[i], lower)
  }

  lemma {:induction false} SiftConcat(a: seq<Entry>, b: seq<Entry>, f: Filter, lower: string -> string)
    ensures Sift(a + b, f, lower) == Sift(a, f, lower) + Sift(b, f, lower)
  {
    if a == [] {
      assert a + b == b;
    } else {
      assert (a + b)[1..] == a[1..] + b;
      SiftConcat(a[1..], b, f, lower);
    }
  }

  lemma {:induction false} SiftAllConcat(a: seq<Entry>, b: seq<Entry>, fs: seq<Filter>, lower: string -> string)
    ensures SiftAll(a + b, fs, lower) == SiftAll(a, fs, lower) + SiftAll(b, fs, lower)
    decreases |fs|
  {
    if fs != [] {
      SiftConcat(a, b, fs[0], lower);
      SiftAllConcat(Sift(a, fs[0], lower), Sift(b, fs[0], lower), fs[1..], lower);
    }
  }

  lemma {:induction false} SiftOne(e: Entry, fs: seq<Filter>, lower: string -> string)
    ensures SiftAll([e], fs, lower) == if PassesAll(e, fs, lower) then [e] else []
    decreases |fs|
  {
    if fs != [] {
      assert Sift([e], fs[0], lower) == if Passes(e, fs[0], lower) then [e] else [];
      SiftOne(e, fs[1..], lower);
      SiftNone(fs[1..], lower);
      assert PassesAll(e, fs, lower) <==> Passes(e, fs[0], lower) && PassesAll(e, fs[1..], lower);
    }
  }

  lemma {:induction false} SiftNone(fs: seq<Filter>, lower: string -> string)
    ensures SiftAll([], fs, lower) == []
    decreases |fs|
  {
    if fs != [] {
      SiftNone(fs[1..], lower);
    }
  }

  /** All filters AND together: an entry is kept if it passes every one, and order is kept. */
  lemma {:induction false} FiltersConjoin(es: seq<Entry>, e: Entry, o: Options)
    ensures ApplyTraceFilters(es + [e], o)
         == ApplyTraceFilters(es, o) + if PassesAll(e, Active(o), o.lower) then [e] else []
    ensures ApplyTraceFilters([], o) == []
  {
    SiftAllConcat(es, [e], Active(o), o.lower);
    SiftOne(e, Active(o), o.lower);
    SiftNone(Active(o), o.lower);
  }

  // ---------------------------------------------------------------- what the filters ask for

  ghost predicate Occurs(text: string, part: string) {
    exists i :: 0 <= i <= |text| && part <= text[i..]
  }

  /** Every filter that is asked for, by a text that is not empty or a time that is there, lets the entry
      through. */
  ghost predicate Wanted(e: Entry, o: Options) {
    && (o.forSourceId != "" ==> Occurs(e.summary, o.forSourceId) || Occurs(e.source, o.forSourceId))
    && (o.forKpiId != "" ==> Occurs(o.lower(e.summary), o.lower(o.forKpiId)))
    && (o.quadrant != "" ==> e.quadrant == o.quadrant)
    && (o.kind != "" ==> Occurs(o.lower(e.kind), o.lower(o.kind)) || o.lower(e.quadrant) == o.lower(o.kind))
    && (o.personId != "" ==> exists i :: 0 <= i < |e.persons| && e.persons[i] == o.personId)
    && (o.channelId != "" ==> e.channelId == Some(o.channelId) || e.source == o.channelId)
    && (o.tsFrom.Some? ==> o.tsFrom.value <= e.ts)
    && (o.tsTo.Some? ==> e.ts <= o.tsTo.value)
  }

  /** The wanted entries, in order. */
  ghost function AllWanted(es: seq<Entry>, o: Options): seq<Entry> {
    if es == [] then []
    else AllWanted(es[..|es|-1], o) + if Wanted(es[|es|-1], o) then [es[|es|-1]] else []
  }

  lemma {:induction false} IncludesIff(text: string, part: string)
    ensures Includes(text, part) <==> Occurs(text, part)
  {
    assert text[0..] == text;
    if text != "" {
      IncludesIff(text[1..], part);
      assert forall i :: 0 <= i < |text| ==> text[1..][i..] == text[i + 1..];
      if Occurs(text[1..], part) {
        var i :| 0 <= i <= |text| - 1 && part <= text[1..][i..];
        assert part <= text[i + 1..];
      }
      if Occurs(text, part) && !(part <= text) {
        var i :| 0 <= i <= |text| && part <= text[i..];
        assert part <= text[1..][i - 1..];
      }
    }
  }

  lemma PassesNothing(e: Entry, lower: string -> string)
    ensures PassesAll(e, [], lower)
  {
  }

  lemma PassesMore(e: Entry, fs: seq<Filter>, gs: seq<Filter>, lower: string -> string)
    ensures PassesAll(e, fs + gs, lower) <==> PassesAll(e, fs, lower) && PassesAll(e, gs, lower)
  {
    if PassesAll(e, fs + gs, lower) {
      forall i | 0 <= i < |fs| ensures Passes(e, fs[i], lower) {
        assert (fs + gs)[i] == fs[i];
      }
      forall i | 0 <= i < |gs| ensures Passes(e, gs[i], lower) {
        assert (fs + gs)[|fs| + i] == gs[i];
      }
    }
  }

  lemma PassesOne(e: Entry, f: Filter, lower: string -> string)
    ensures PassesAll(e, [f], lower) <==> Passes(e, f, lower)
  {
    assert [f][0] == f;
  }

  /** Adding a filter only if it is asked for. */
  lemma PassesIfAsked(e: Entry, fs: seq<Filter>, asked: bool, f: Filter, lower: string -> string)
    ensures PassesAll(e, fs + if asked then [f] else [], lower)
       <==> PassesAll(e, fs, lower) && (asked ==> Passes(e, f, lower))
  {
    PassesMore(e, fs, if asked then [f] else [], lower);
    PassesOne(e, f, lower);
    PassesNothing(e, lower);
  }

  lemma TextsAreAsked(e: Entry, o: Options)
    ensures PassesAll(e, Texts(o), o.lower)
       <==> && (o.forSourceId != "" ==> Passes(e, BySource(o.forSourceId), o.lower))
            && (o.forKpiId != "" ==> Passes(e, ByKpi(o.forKpiId), o.lower))
            && (o.quadrant != "" ==> Passes(e, ByQuadrant(o.quadrant), o.lower))
            && (o.kind != "" ==> Passes(e, ByKind(o.kind), o.lower))
  {
    var f1 := if o.forSourceId != "" then [BySource(o.forSourceId)] else [];
    var f2 := f1 + if o.forKpiId != "" then [ByKpi(o.forKpiId)] else [];
    var f3 := f2 + if o.quadrant != "" then [ByQuadrant(o.quadrant)] else [];
    assert [] + f1 == f1;
    PassesNothing(e, o.lower);
    PassesIfAsked(e, [], o.forSourceId != "", BySource(o.forSourceId), o.lower);
    PassesIfAsked(e, f1, o.forKpiId != "", ByKpi(o.forKpiId), o.lower);
    PassesIfAsked(e, f2, o.quadrant != "", ByQuadrant(o.quadrant), o.lower);
    PassesIfAsked(e, f3, o.kind != "", ByKind(o.kind), o.lower);
  }

  lemma ActiveAreAsked(e: Entry, o: Options)
    ensures PassesAll(e, Active(o), o.lower)
       <==> && PassesAll(e, Texts(o), o.lower)
            && (o.personId != "" ==> Passes(e, ByPerson(o.personId), o.lower))
            && (o.channelId != "" ==> Passes(e, ByChannel(o.channelId), o.lower))
            && (o.tsFrom.Some? ==> e.ts >= o.tsFrom.value)
            && (o.tsTo.Some? ==> e.ts <= o.tsTo.value)
  {
    var f5 := Texts(o) + if o.personId != "" then [ByPerson(o.personId)] else [];
    var f6 := f5 + if o.channelId != "" then [ByChannel(o.channelId)] else [];
    var from := if o.tsFrom.Some? then o.tsFrom.value else 0;
    var until := if o.tsTo.Some? then o.tsTo.value else 0;
    var f7 := f6 + if o.tsFrom.Some? then [From(from)] else [];
    PassesIfAsked(e, Texts(o), o.personId != "", ByPerson(o.personId), o.lower);
    PassesIfAsked(e, f5, o.channelId != "", ByChannel(o.channelId), o.lower);
    PassesIfAsked(e, f6, o.tsFrom.Some?, From(from), o.lower);
    PassesIfAsked(e, f7, o.tsTo.Some?, Until(until), o.lower);
  }

  /** An entry passes the filters applied exactly when it is wanted. */
  lemma PassesIffWanted(e: Entry, o: Options)
    ensures PassesAll(e, Active(o), o.lower) <==> Wanted(e, o)
  {
    ActiveAreAsked(e, o);
    TextsAreAsked(e, o);
    IncludesIff(e.summary, o.forSourceId);
    IncludesIff(e.source, o.forSourceId);
    IncludesIff(o.lower(e.summary), o.lower(o.forKpiId));
    IncludesIff(o.lower(e.kind), o.lower(o.kind));
  }

  /** The filters keep the wanted entries, in order. */
  lemma {:induction false} FiltersKeepTheWanted(es: seq<Entry>, o: Options)
    ensures ApplyTraceFilters(es, o) == AllWanted(es, o)
  {
    if es == [] {
      SiftNone(Active(o), o.lower);
    } else {
      var n := |es| - 1;
      FiltersKeepTheWanted(es[..n], o);
      FiltersConjoin(es[..n], es[n], o);
      PassesIffWanted(es[n], o);
      assert es == es[..n] + [es[n]];
    }
  }

  // ---------------------------------------------------------------- one page

  type Ledger = seq<Entry>

  ghost predicate Ascending(rows: Ledger) {
    forall i, j :: 0 <= i < j < |rows| ==> rows[i].seqNo < rows[j].seqNo
  }

  function Reverse(rows: Ledger): (r: seq<Entry>)
    ensures |r| == |rows| && forall i :: 0 <= i < |r| ==> r[i] == rows[|rows|-1-i]
  {
    seq(|rows|, i requires 0 <= i < |rows| => rows[|rows|-1-i])
  }

  /** The rows below a cursor; with no cursor, all of them. */
  function Below(rows: Ledger, cursor: Option<nat>): Ledger {
    if rows == [] then []
    else
      var n := |rows| - 1;
      Below(rows[..n], cursor) + if cursor.None? || rows[n].seqNo < cursor.value then [rows[n]] else []
  }

  function Limit(o: Options): (limit: nat)
    ensures 1 <= limit <= 200 && (o.limit == None ==> limit == 50)
    ensures o.limit.Some? ==> (limit < o.limit.value ==> limit == 200) && (limit > o.limit.value ==> limit == 1)
  {
    var requested := if o.limit.Some? then o.limit.value else 50;
    Min(Max(requested, 1), 200)
  }

  /** `ORDER BY seq DESC LIMIT limit` of the rows below the cursor. */
  function Fetch(rows: Ledger, cursor: Option<nat>, limit: nat): seq<Entry> {
    var found := Reverse(Below(rows, cursor));
    if |found| <= limit then found else found[..limit]
  }

  datatype Page = Fixture | Page(entries: seq<Entry>, nextCursor: Option<nat>)

  /** A page of the ledger; an empty fetch makes the code substitute fixture rows. */
  function GetTraceEntries(rows: Ledger, cursor: Option<nat>, o: Options): Page {
    var found := Fetch(rows, cursor, Limit(o));
    if found == [] then Fixture
    else Page(ApplyTraceFilters(found, o), if |found| == Limit(o) then Some(found[|found|-1].seqNo) else None)
  }

  // ---------------------------------------------------------------- following the cursor

  /** The ledger as each fetch finds it: rows are only appended, with higher seqs. */
  ghost predicate Growing(at: nat -> Ledger) {
    forall k: nat :: Ascending(at(k)) && at(k) <= at(k + 1)
  }

  lemma {:induction false} BelowIsPrefix(rows: Ledger, cursor: Option<nat>) returns (n: nat)
    requires Ascending(rows)
    ensures n <= |rows| && Below(rows, cursor) == rows[..n]
    ensures forall i :: 0 <= i < n ==> cursor.None? || rows[i].seqNo < cursor.value
    ensures forall i :: n <= i < |rows| ==> cursor.Some? && rows[i].seqNo >= cursor.value
  {
    if rows == [] {
      n := 0;
    } else {
      var m := |rows| - 1;
      n := BelowIsPrefix(rows[..m], cursor);
      if cursor.None? || rows[m].seqNo < cursor.value {
        assert n == m;
        n := m + 1;
        assert rows[..m] + [rows[m]] == rows;
      } else {
        assert rows[..m][..n] == rows[..n];
      }
    }
  }

  /** A cursor that is the seq of row `n` leaves exactly the rows before it, whatever was appended. */
  lemma BelowRow(rows: Ledger, longer: Ledger, n: nat)
    requires Ascending(longer) && rows <= longer && n < |rows|
    ensures Below(longer, Some(rows[n].seqNo)) == rows[..n]
  {
    var m := BelowIsPrefix(longer, Some(rows[n].seqNo));
    assert longer[n] == rows[n];
    var probe := if m < |longer| then longer[m].seqNo else 0;
    assert longer[..n] == rows[..n];
  }

  /** The seq of a row below the cursor, as the next cursor, leaves the rows before that one. */
  lemma NextBelow(rows: Ledger, longer: Ledger, cursor: Option<nat>, j: nat)
    requires Ascending(rows) && Ascending(longer) && rows <= longer && j < |Below(rows, cursor)|
    ensures Below(longer, Some(Below(rows, cursor)[j].seqNo)) == Below(rows, cursor)[..j]
  {
    var n := BelowIsPrefix(rows, cursor);
    BelowRow(rows, longer, j);
    assert rows[..n][..j] == rows[..j];
  }

  /** A full page takes the last rows below the cursor, and its own cursor leaves the others. */
  lemma FullPage(rows: Ledger, longer: Ledger, cursor: Option<nat>, limit: nat)
    requires Ascending(rows) && Ascending(longer) && rows <= longer && limit >= 1
    requires |Fetch(rows, cursor, limit)| == limit
    ensures var found := Fetch(rows, cursor, limit); var left := Below(rows, cursor);
            && limit <= |left|
            && Below(longer, Some(found[limit-1].seqNo)) == left[..|left|-limit]
            && Reverse(left) == found + Reverse(left[..|left|-limit])
  {
    var left := Below(rows, cursor);
    ReverseSplits(left, limit);
    NextBelow(rows, longer, cursor, |left| - limit);
    assert Reverse(left)[limit-1] == left[|left|-limit];
  }

  lemma ReverseSplits(left: Ledger, limit: nat)
    requires limit <= |left|
    ensures Reverse(left) == Reverse(left)[..limit] + Reverse(left[..|left|-limit])
  {
  }

  /** All the entries met by following `nextCursor` from the `k`-th fetch on, and whether the walk
      ended on an empty fetch. */
  ghost function Follow(at: nat -> Ledger, k: nat, cursor: Option<nat>, o: Options): (seq<Entry>, bool)
    requires Growing(at)
    decreases |Below(at(k), cursor)|
  {
    match GetTraceEntries(at(k), cursor, o)
    case Fixture => ([], true)
    case Page(entries, None) => (entries, false)
    case Page(entries, Some(next)) =>
      assert at(k) <= at(k + 1);
      FullPage(at(k), at(k + 1), cursor, Limit(o));
      var (rest, ranDry) := Follow(at, k + 1, Some(next), o);
      (entries + rest, ranDry)
  }

  /** What following the cursor is to yield. */
  ghost function Yield(left: Ledger, o: Options): (seq<Entry>, bool) {
    (ApplyTraceFilters(Reverse(left), o), |left| % Limit(o) == 0)
  }

  /** A full page in front of what the rest of the walk yields. */
  lemma PageThenRest(rows: Ledger, longer: Ledger, cursor: Option<nat>, o: Options)
    requires Ascending(rows) && Ascending(longer) && rows <= longer
    requires |Fetch(rows, cursor, Limit(o))| == Limit(o)
    ensures var found := Fetch(rows, cursor, Limit(o));
            var rest := Yield(Below(longer, Some(found[|found|-1].seqNo)), o);
            Yield(Below(rows, cursor), o) == (ApplyTraceFilters(found, o) + rest.0, rest.1)
  {
    var limit, left := Limit(o), Below(rows, cursor);
    var found := Fetch(rows, cursor, limit);
    FullPage(rows, longer, cursor, limit);
    JoinPages(found, Reverse(left[..|left|-limit]), Reverse(left), o);
    ModSub(|left|, limit);
  }

  /** A page that is not full ends the walk. */
  lemma LastPage(rows: Ledger, cursor: Option<nat>, o: Options)
    requires |Fetch(rows, cursor, Limit(o))| != Limit(o)
    ensures var found := Fetch(rows, cursor, Limit(o));
            Yield(Below(rows, cursor), o) == (ApplyTraceFilters(found, o), found == [])
  {
    ModSmall(|Below(rows, cursor)|, Limit(o));
  }

  lemma {:induction false} FollowCollects(at: nat -> Ledger, k: nat, cursor: Option<nat>, o: Options)
    requires Growing(at)
    ensures Follow(at, k, cursor, o) == Yield(Below(at(k), cursor), o)
    decreases |Below(at(k), cursor)|
  {
    var found := Fetch(at(k), cursor, Limit(o));
    if |found| == Limit(o) {
      assert at(k) <= at(k + 1);
      FullPage(at(k), at(k + 1), cursor, Limit(o));
      FollowCollects(at, k + 1, Some(found[|found|-1].seqNo), o);
      PageThenRest(at(k), at(k + 1), cursor, o);
    } else {
      LastPage(at(k), cursor, o);
      SiftNone(Active(o), o.lower);
    }
  }

  lemma JoinPages(page: seq<Entry>, rest: seq<Entry>, all: seq<Entry>, o: Options)
    requires all == page + rest
    ensures ApplyTraceFilters(all, o) == ApplyTraceFilters(page, o) + ApplyTraceFilters(rest, o)
  {
    SiftAllConcat(page, rest, Active(o), o.lower);
  }

  lemma ModSmall(a: nat, b: nat)
    requires a < b
    ensures a % b == a
  {
  }

  lemma ModSub(a: nat, b: nat)
    requires 0 < b <= a
    ensures a % b == (a - b) % b
  {
    var q, q' := a / b, (a - b) / b;
    var d := q - q';
    assert b * q - b * q' == b * d;
    assert b * d == b + (a - b) % b - a % b;
    if d <= 0 {
      Times(b, d, 0);
    } else if d >= 2 {
      Times(b, 2, d);
    }
  }

  lemma Times(b: nat, x: int, y: int)
    requires x <= y
    ensures b * x <= b * y
  {
  }

  /** Following the cursor from the start, while rows are appended between fetches, yields exactly
      the wanted rows present at the first fetch, newest first; the walk ends; and it ends on an
      empty fetch, where the code answers with fixture rows, exactly when the number of rows is a
      multiple of the page size (none at all included). */
  lemma WalkYieldsFirstLedger(at: nat -> Ledger, o: Options)
    requires Growing(at)
    ensures Follow(at, 0, None, o) == (AllWanted(Reverse(at(0)), o), |at(0)| % Limit(o) == 0)
  {
    FiltersKeepTheWanted(Reverse(at(0)), o);
    FollowCollects(at, 0, None, o);
    var n := BelowIsPrefix(at(0), None);
    assert Ascending(at(0));
    assert at(0)[..n] == at(0);
  }

  ghost predicate Descending(es: seq<Entry>) {
    forall i, j :: 0 <= i < j < |es| ==> es[i].seqNo > es[j].seqNo
  }

  lemma {:induction false} SiftDescending(es: seq<Entry>, f: Filter, lower: string -> string)
    requires Descending(es)
    ensures Descending(Sift(es, f, lower))
    ensures forall i :: 0 <= i < |Sift(es, f, lower)| ==> Sift(es, f, lower)[i] in es
  {
    if es != [] {
      SiftDescending(es[1..], f, lower);
      forall i | 0 <= i < |Sift(es[1..], f, lower)| ensures Sift(es[1..], f, lower)[i].seqNo < es[0].seqNo {
        assert Sift(es[1..], f, lower)[i] in es[1..];
      }
    }
  }

  lemma {:induction false} SiftAllDescending(es: seq<Entry>, fs: seq<Filter>, lower: string -> string)
    requires Descending(es)
    ensures Descending(SiftAll(es, fs, lower))
    decreases |fs|
  {
    if fs != [] {
      SiftDescending(es, fs[0], lower);
      SiftAllDescending(Sift(es, fs[0], lower), fs[1..], lower);
    }
  }

  /** Across all pages the seqs strictly descend, so no row is repeated. */
  lemma WalkDescends(at: nat -> Ledger, o: Options)
    requires Growing(at)
    ensures Descending(Follow(at, 0, None, o).0)
  {
    WalkYieldsFirstLedger(at, o);
    FiltersKeepTheWanted(Reverse(at(0)), o);
    assert Ascending(at(0));
    SiftAllDescending(Reverse(at(0)), Active(o), o.lower);
  }
}
