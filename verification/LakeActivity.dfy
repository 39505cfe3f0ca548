/** `getRecentLakeActivity` (apps/dashboard/lib/lake-overview.ts): the newest rows of each axis,
    fetched with a limit, concatenated, stably sorted by time and cut to the limit.

    An axis is the rows of its table in the order the query asks for: by time descending, then by id
    ascending.  Every axis table declares its time NOT NULL (schema.py of the ledger package), so all
    times are there; the code still turns a null one into the epoch, and the last section says what
    would follow if there were any, which Postgres sorts first under DESC. */
module LakeActivity {
  import opened Sequences
  import opened Sorting

  datatype Raw = Raw(stateChangedAt: Option<int>, id: string, rank: int, action: string, description: string)

  datatype Activity = Activity(ts: int, axis: string, id: string, action: string, description: string)

  datatype Axis = Axis(axisName: string, table: seq<Raw>, fails: bool)

  /** `rank` stands for the place of the id in the database's text order. */
  predicate DbBefore(a: Raw, b: Raw) {
    if a.stateChangedAt.None? && b.stateChangedAt.Some? then true
    else if a.stateChangedAt.Some? && b.stateChangedAt.None? then false
    else if a.stateChangedAt == b.stateChangedAt then a.rank <= b.rank
    else a.stateChangedAt.value > b.stateChangedAt.value
  }

  ghost predicate DbSorted(table: seq<Raw>) {
    forall i, j :: 0 <= i < j < |table| ==> DbBefore(table[i], table[j])
  }

  ghost predicate NoNullTimes(table: seq<Raw>) {
    forall i :: 0 <= i < |table| ==> table[i].stateChangedAt.Some?
  }

  ghost predicate OnlyNullTimes(table: seq<Raw>) {
    forall i :: 0 <= i < |table| ==> table[i].stateChangedAt.None?
  }

  /** The limit cuts nothing off, or null times do not mix with others. */
  ghost predicate SafeToCut(table: seq<Raw>, k: nat) {
    |table| <= k || NoNullTimes(table) || OnlyNullTimes(table)
  }

  /** A null time becomes the epoch. */
  function ToActivity(axisName: string, r: Raw): Activity {
    Activity(if r.stateChangedAt.Some? then r.stateChangedAt.value else 0, axisName, r.id, r.action, r.description)
  }

  function ToActivities(axisName: string, rows: seq<Raw>): (r: seq<Activity>)
    ensures |r| == |rows| && forall i :: 0 <= i < |r| ==> r[i] == ToActivity(axisName, rows[i])
  {
    seq(|rows|, i requires 0 <= i < |rows| => ToActivity(axisName, rows[i]))
  }

  function NewestFirst(a: Activity): Key {
    Key(-a.ts, 0)
  }

  function Take<T>(xs: seq<T>, k: nat): seq<T> {
    if |xs| <= k then xs else xs[..k]
  }

  /** The rows of all axes one after the other; a failed query contributes none. */
  function Merged(axes: seq<Axis>): seq<Activity> {
    if axes == [] then []
    else if axes[|axes|-1].fails then Merged(axes[..|axes|-1])
    else Merged(axes[..|axes|-1]) + ToActivities(axes[|axes|-1].axisName, axes[|axes|-1].table)
  }

  function Capped(limit: int): nat {
    Max(1, Min(limit, 200))
  }

  function Fetched(axis: Axis, k: nat): Axis {
    axis.(table := Take(axis.table, k))
  }

  function AllFetched(axes: seq<Axis>, k: nat): (r: seq<Axis>)
    ensures |r| == |axes| && forall i :: 0 <= i < |r| ==> r[i] == Fetched(axes[i], k)
  {
    seq(|axes|, i requires 0 <= i < |axes| => Fetched(axes[i], k))
  }

  // ---------------------------------------------------------------- the k newest, one row at a time

  lemma {:induction false} InsertOnlyNeedsTop<T>(s: seq<T>, e: T, key: T -> Key, k: nat)
    requires Sorted(s, key)
    ensures Take(Insert(s, e, key), k) == Take(Insert(Take(s, k), e, key), k)
  {
    if |s| > k {
      var n := |s| - 1;
      if !Le(key(s[n]), key(e)) {
        InsertOnlyNeedsTop(s[..n], e, key, k);
        assert Take(s[..n], k) == Take(s, k);
        InsertLength(s[..n], e, key);
        assert Take(Insert(s, e, key), k) == Take(Insert(s[..n], e, key), k);
      } else if k > 0 {
        assert Le(key(s[k-1]), key(e));
        assert Insert(Take(s, k), e, key) == Take(s, k) + [e];
      }
    }
  }

  lemma InsertLength<T>(s: seq<T>, e: T, key: T -> Key)
    ensures |Insert(s, e, key)| == |s| + 1
  {
  }

  /** The `k` first of the sorted order, keeping only `k` elements at any time. */
  function Top<T>(xs: seq<T>, key: T -> Key, k: nat): seq<T> {
    if xs == [] then [] else Take(Insert(Top(xs[..|xs|-1], key, k), xs[|xs|-1], key), k)
  }

  lemma {:induction false} TopIsSortTaken<T>(xs: seq<T>, key: T -> Key, k: nat)
    ensures Top(xs, key, k) == Take(Sort(xs, key), k)
    ensures Sorted(Top(xs, key, k), key)
  {
    if xs != [] {
      var n := |xs| - 1;
      TopIsSortTaken(xs[..n], key, k);
      SortSorts(xs[..n], key);
      InsertOnlyNeedsTop(Sort(xs[..n], key), xs[n], key, k);
      SortSorts(xs, key);
    }
  }

  /** The first `m` elements are not above `e`. */
  ghost predicate AtLeast<T>(s: seq<T>, m: nat, e: T, key: T -> Key) {
    m <= |s| && (m == 0 || Le(key(s[m-1]), key(e)))
  }

  lemma {:induction false} InsertAtLeast<T>(s: seq<T>, x: T, m: nat, e: T, key: T -> Key)
    requires Sorted(s, key) && AtLeast(s, m, e, key) && Le(key(x), key(e))
    ensures AtLeast(Insert(s, x, key), m + 1, e, key)
  {
    if s != [] && !Le(key(s[|s|-1]), key(x)) {
      var n := |s| - 1;
      if m <= n {
        InsertAtLeast(s[..n], x, m, e, key);
      }
    } else if m < |s| {
      assert Le(key(s[m]), key(s[|s|-1]));
    }
  }

  lemma TopSnoc<T>(xs: seq<T>, e: T, key: T -> Key, k: nat)
    ensures Top(xs + [e], key, k) == Take(Insert(Top(xs, key, k), e, key), k)
  {
    assert (xs + [e])[..|xs|] == xs;
  }

  /** Once `k` elements not above `e` have come, the `k` first are all not above `e`. */
  lemma {:induction false} TopFills<T>(before: seq<T>, a: seq<T>, e: T, key: T -> Key, k: nat)
    requires forall i :: 0 <= i < |a| ==> Le(key(a[i]), key(e))
    ensures AtLeast(Top(before + a, key, k), Min(|a|, k), e, key)
  {
    if a != [] {
      var n := |a| - 1;
      var top := Top(before + a[..n], key, k);
      assert before + a == before + a[..n] + [a[n]];
      TopSnoc(before + a[..n], a[n], key, k);
      TopFills(before, a[..n], e, key, k);
      TopIsSortTaken(before + a[..n], key, k);
      StepFills(top, a[n], n, e, key, k);
    }
  }

  lemma StepFills<T>(top: seq<T>, x: T, m: nat, e: T, key: T -> Key, k: nat)
    requires Sorted(top, key) && AtLeast(top, Min(m, k), e, key) && Le(key(x), key(e))
    ensures AtLeast(Take(Insert(top, x, key), k), Min(m + 1, k), e, key)
  {
    InsertAtLeast(top, x, Min(m, k), e, key);
    InsertSorted(top, x, key);
  }

  lemma RunLosesItsLast<T>(before: seq<T>, a: seq<T>, key: T -> Key, k: nat)
    requires Sorted(a, key) && |a| > k
    ensures Top(before + a, key, k) == Top(before + a[..|a|-1], key, k)
  {
    var n := |a| - 1;
    LastOfRunDropped(before, a[..n], a[n], key, k);
    assert before + a == before + a[..n] + [a[n]];
  }

  /** In a run that is itself sorted, what comes after its first `k` elements changes nothing. */
  lemma {:induction false} RunNeedsOnlyTop<T>(before: seq<T>, a: seq<T>, key: T -> Key, k: nat)
    requires Sorted(a, key)
    ensures Top(before + a, key, k) == Top(before + Take(a, k), key, k)
  {
    if |a| > k {
      var shorter := a[..|a|-1];
      RunLosesItsLast(before, a, key, k);
      RunNeedsOnlyTop(before, shorter, key, k);
      assert Take(shorter, k) == Take(a, k);
    }
  }

  lemma LastOfRunDropped<T>(before: seq<T>, a: seq<T>, e: T, key: T -> Key, k: nat)
    requires |a| >= k && forall i :: 0 <= i < |a| ==> Le(key(a[i]), key(e))
    ensures Top(before + a + [e], key, k) == Top(before + a, key, k)
  {
    TopSnoc(before + a, e, key, k);
    TopFills(before, a, e, key, k);
    TopFits(before + a, key, k);
    AppendBeyondTop(Top(before + a, key, k), e, key, k);
  }

  lemma TopFits<T>(xs: seq<T>, key: T -> Key, k: nat)
    ensures |Top(xs, key, k)| <= k
  {
  }

  lemma AppendBeyondTop<T>(s: seq<T>, e: T, key: T -> Key, k: nat)
    requires |s| <= k && AtLeast(s, k, e, key)
    ensures Take(Insert(s, e, key), k) == s
  {
    assert k > 0 ==> Insert(s, e, key) == s + [e];
  }

  lemma {:induction false} TopContinues<T>(a: seq<T>, b: seq<T>, more: seq<T>, key: T -> Key, k: nat)
    requires Top(a, key, k) == Top(b, key, k)
    ensures Top(a + more, key, k) == Top(b + more, key, k)
  {
    if more == [] {
      assert a + more == a && b + more == b;
    } else {
      var n := |more| - 1;
      assert (a + more)[..|a + more| - 1] == a + more[..n];
      assert (b + more)[..|b + more| - 1] == b + more[..n];
      TopContinues(a, b, more[..n], key, k);
    }
  }

  // ---------------------------------------------------------------- the truncated merge

  lemma AxisIsSorted(axis: Axis)
    requires DbSorted(axis.table) && (NoNullTimes(axis.table) || OnlyNullTimes(axis.table))
    ensures Sorted(ToActivities(axis.axisName, axis.table), NewestFirst)
  {
    var r := ToActivities(axis.axisName, axis.table);
    forall i, j | 0 <= i < j < |r| ensures Le(NewestFirst(r[i]), NewestFirst(r[j])) {
      assert DbBefore(axis.table[i], axis.table[j]);
    }
  }

  /** The `k` newest rows of the axes, ties in the order they are merged in. */
  function Newest(axes: seq<Axis>, k: nat): seq<Activity> {
    Take(Sort(Merged(axes), NewestFirst), k)
  }

  ghost predicate AllSafe(axes: seq<Axis>, k: nat) {
    forall i :: 0 <= i < |axes| && !axes[i].fails ==> SafeToCut(axes[i].table, k)
  }

  /** What the schema guarantees. */
  ghost predicate TimesPresent(axes: seq<Axis>) {
    forall i :: 0 <= i < |axes| && !axes[i].fails ==> NoNullTimes(axes[i].table)
  }

  ghost predicate InDbOrder(axes: seq<Axis>) {
    forall i :: 0 <= i < |axes| && !axes[i].fails ==> DbSorted(axes[i].table)
  }

  /** Limiting each axis first loses nothing: the merge of the limited axes has the same `k` newest
      rows, ties in the same order, as the merge of the whole axes. */
  lemma TruncatedMergeIsExact(axes: seq<Axis>, k: nat)
    requires InDbOrder(axes) && AllSafe(axes, k)
    ensures Newest(AllFetched(axes, k), k) == Newest(axes, k)
  {
    TopMergeIsExact(axes, k);
    TopIsSortTaken(Merged(axes), NewestFirst, k);
    TopIsSortTaken(Merged(AllFetched(axes, k)), NewestFirst, k);
  }

  lemma {:induction false} TopMergeIsExact(axes: seq<Axis>, k: nat)
    requires InDbOrder(axes) && AllSafe(axes, k)
    ensures Top(Merged(AllFetched(axes, k)), NewestFirst, k) == Top(Merged(axes), NewestFirst, k)
  {
    if axes != [] {
      var n := |axes| - 1;
      TopMergeIsExact(axes[..n], k);
      assert AllFetched(axes, k)[..n] == AllFetched(axes[..n], k);
      if !axes[n].fails {
        var a := ToActivities(axes[n].axisName, axes[n].table);
        var cut := ToActivities(axes[n].axisName, Take(axes[n].table, k));
        assert cut == Take(a, k);
        TopContinues(Merged(AllFetched(axes[..n], k)), Merged(axes[..n]), cut, NewestFirst, k);
        if |a| > k {
          AxisIsSorted(axes[n]);
          RunNeedsOnlyTop(Merged(axes[..n]), a, NewestFirst, k);
        }
      }
    }
  }

  // ---------------------------------------------------------------- if times were nullable

  /** How many rows are later than the epoch, which is where a null time ends up. */
  function Dated(s: seq<Activity>): nat {
    if s == [] then 0 else Dated(s[..|s|-1]) + if s[|s|-1].ts > 0 then 1 else 0
  }

  lemma {:induction false} DatedConcat(a: seq<Activity>, b: seq<Activity>)
    ensures Dated(a + b) == Dated(a) + Dated(b)
  {
    if b == [] {
      assert a + b == a;
    } else {
      assert (a + b)[..|a + b| - 1] == a + b[..|b|-1];
      DatedConcat(a, b[..|b|-1]);
    }
  }

  lemma {:induction false} DatedAtMost(s: seq<Activity>)
    ensures Dated(s) <= |s|
    ensures Dated(s) == |s| <==> forall i :: 0 <= i < |s| ==> s[i].ts > 0
  {
    if s != [] {
      DatedAtMost(s[..|s|-1]);
    }
  }

  lemma {:induction false} DatedInsert(s: seq<Activity>, e: Activity)
    ensures Dated(Insert(s, e, NewestFirst)) == Dated(s) + if e.ts > 0 then 1 else 0
  {
    if s == [] || Le(NewestFirst(s[|s|-1]), NewestFirst(e)) {
      assert (s + [e])[..|s|] == s;
    } else {
      var n := |s| - 1;
      var r := Insert(s[..n], e, NewestFirst);
      DatedInsert(s[..n], e);
      assert (r + [s[n]])[..|r|] == r;
    }
  }

  lemma {:induction false} DatedSort(s: seq<Activity>)
    ensures Dated(Sort(s, NewestFirst)) == Dated(s)
  {
    if s != [] {
      DatedSort(s[..|s|-1]);
      DatedInsert(Sort(s[..|s|-1], NewestFirst), s[|s|-1]);
    }
  }

  /** Sorted newest first, the dated rows come first. */
  lemma {:induction false} DatedTake(s: seq<Activity>, k: nat)
    requires Sorted(s, NewestFirst)
    ensures Dated(Take(s, k)) == Min(Dated(s), k)
  {
    DatedAtMost(s);
    if |s| > k {
      var n := |s| - 1;
      DatedTake(s[..n], k);
      assert Take(s[..n], k) == Take(s, k);
      if s[n].ts > 0 {
        DatedLast(s);
      }
    }
  }

  /** If the last row is dated, all are. */
  lemma DatedLast(s: seq<Activity>)
    requires Sorted(s, NewestFirst) && s != [] && s[|s|-1].ts > 0
    ensures Dated(s[..|s|-1]) == |s| - 1
  {
    var n := |s| - 1;
    forall i | 0 <= i < n ensures s[i].ts > 0 {
      assert Le(NewestFirst(s[i]), NewestFirst(s[n]));
    }
    DatedAtMost(s[..n]);
  }

  lemma NewestDated(axis: Axis, k: nat)
    requires !axis.fails
    ensures Dated(Newest([axis], k)) == Min(Dated(ToActivities(axis.axisName, axis.table)), k)
  {
    NewestOfOne(axis, k);
    var s := ToActivities(axis.axisName, axis.table);
    SortSorts(s, NewestFirst);
    DatedSort(s);
    DatedTake(Sort(s, NewestFirst), k);
  }

  /** When null times mix with others, a null time is first and another is last. */
  lemma MixedEnds(table: seq<Raw>)
    requires DbSorted(table) && !NoNullTimes(table) && !OnlyNullTimes(table)
    ensures table != [] && table[0].stateChangedAt.None? && table[|table|-1].stateChangedAt.Some?
  {
    var n := |table| - 1;
    var i :| 0 <= i < |table| && table[i].stateChangedAt.None?;
    var j :| 0 <= j < |table| && table[j].stateChangedAt.Some?;
    if i > 0 { assert DbBefore(table[0], table[i]); }
    if j < n { assert DbBefore(table[j], table[n]); }
  }

  lemma {:induction false} DatedPrefix(s: seq<Activity>, k: nat)
    requires k < |s| && s[|s|-1].ts > 0
    ensures Dated(s[..k]) < Dated(s)
  {
    var n := |s| - 1;
    assert s[..n] == s[..k] + s[k..n];
    DatedConcat(s[..k], s[k..n]);
  }

  /** Then the cut loses a dated row and keeps a null one instead. */
  lemma CutLosesARow(axis: Axis, k: nat)
    requires DbSorted(axis.table) && !SafeToCut(axis.table, k) && AfterEpoch(axis.table) && k >= 1
    ensures var all, cut := ToActivities(axis.axisName, axis.table), ToActivities(axis.axisName, Take(axis.table, k));
            Dated(cut) < k && Dated(cut) < Dated(all)
  {
    var all, cut := ToActivities(axis.axisName, axis.table), ToActivities(axis.axisName, Take(axis.table, k));
    MixedEnds(axis.table);
    assert cut == all[..k] && cut[0].ts == 0 && all[|all|-1].ts > 0;
    DatedPrefix(all, k);
    DatedAtMost(cut);
  }

  ghost predicate AfterEpoch(table: seq<Raw>) {
    forall i :: 0 <= i < |table| && table[i].stateChangedAt.Some? ==> table[i].stateChangedAt.value > 0
  }

  /** Were times nullable: one axis is cut exactly when the limit covers it or null times do not mix with
      others. */
  lemma OneAxisIsExactIff(axis: Axis, k: nat)
    requires k >= 1 && !axis.fails && DbSorted(axis.table) && AfterEpoch(axis.table)
    ensures Newest(AllFetched([axis], k), k) == Newest([axis], k) <==> SafeToCut(axis.table, k)
  {
    if SafeToCut(axis.table, k) {
      TruncatedMergeIsExact([axis], k);
    } else {
      CutLosesARow(axis, k);
      NewestDated(axis, k);
      NewestDated(Fetched(axis, k), k);
      assert AllFetched([axis], k) == [Fetched(axis, k)];
    }
  }

  /** Were times nullable: the database would put such a row first, and the merge puts it last. */
  lemma NullTimeBreaksTruncation(axisName: string)
    ensures var null0, dated := Raw(None, "a", 0, "", ""), Raw(Some(5), "b", 1, "", "");
            var axes := [Axis(axisName, [null0, dated], false)];
            && DbSorted(axes[0].table)
            && Newest(axes, 1) == [ToActivity(axisName, dated)]
            && Newest(AllFetched(axes, 1), 1) == [ToActivity(axisName, null0)]
  {
    var null0, dated := Raw(None, "a", 0, "", ""), Raw(Some(5), "b", 1, "", "");
    var x, y := ToActivity(axisName, null0), ToActivity(axisName, dated);
    var axis := Axis(axisName, [null0, dated], false);
    assert Fetched(axis, 1) == Axis(axisName, [null0], false);
    assert AllFetched([axis], 1) == [Fetched(axis, 1)];
    NewestOfPair(axis, x, y);
    NewestOfSingle(Fetched(axis, 1), x);
  }

  lemma NewestOfPair(axis: Axis, x: Activity, y: Activity)
    requires !axis.fails && ToActivities(axis.axisName, axis.table) == [x, y] && x.ts < y.ts
    ensures Newest([axis], 1) == [y]
  {
    NewestOfOne(axis, 1);
    SortTwo(x, y, NewestFirst);
  }

  lemma NewestOfSingle(axis: Axis, x: Activity)
    requires !axis.fails && ToActivities(axis.axisName, axis.table) == [x]
    ensures Newest([axis], 1) == [x]
  {
    NewestOfOne(axis, 1);
    SortOfSorted([x], NewestFirst);
  }

  lemma NewestOfOne(axis: Axis, k: nat)
    requires !axis.fails
    ensures Newest([axis], k) == Take(Sort(ToActivities(axis.axisName, axis.table), NewestFirst), k)
  {
    MergedOne(axis);
  }

  lemma MergedOne(axis: Axis)
    requires !axis.fails
    ensures Merged([axis]) == ToActivities(axis.axisName, axis.table)
  {
    assert [axis][..0] == [];
  }

  lemma SortTwo<T>(x: T, y: T, key: T -> Key)
    requires !Le(key(x), key(y))
    ensures Sort([x, y], key) == [y, x]
  {
    SortOfSorted([x], key);
    assert [x, y][..1] == [x];
    assert Insert([x][..0], y, key) == [y];
  }

  // ---------------------------------------------------------------- the answer against the tables

  /** A row of a table: the axis it belongs to, and where it stands there. */
  datatype Place = Place(axis: nat, at: nat)

  ghost predicate IsPlace(axes: seq<Axis>, p: Place) {
    p.axis < |axes| && !axes[p.axis].fails && p.at < |axes[p.axis].table|
  }

  /** A row is told with its axis; a missing time is told as the epoch. */
  ghost predicate RowTells(x: Activity, axis: Axis, row: Raw) {
    && x.axis == axis.axisName && x.id == row.id && x.action == row.action && x.description == row.description
    && (if row.stateChangedAt == None then x.ts == 0 else row.stateChangedAt == Some(x.ts))
  }

  ghost predicate PlaceTells(axes: seq<Axis>, p: Place, x: Activity) {
    IsPlace(axes, p) && RowTells(x, axes[p.axis], axes[p.axis].table[p.at])
  }

  ghost predicate Precedes(p: Place, q: Place) {
    p.axis < q.axis || (p.axis == q.axis && p.at < q.at)
  }

  /** The `k` newest rows of all axes that did not fail: newer rows first and, of equally new ones, those of
      earlier axes, and of one axis those that come first in its table; `places` says which rows they are,
      and no row left out would have come before any of them. */
  ghost predicate NewestBy(axes: seq<Axis>, k: nat, r: seq<Activity>, places: seq<Place>) {
    && |places| == |r| <= k
    && (forall i :: 0 <= i < |r| ==> PlaceTells(axes, places[i], r[i]))
    && (forall i, j :: 0 <= i < j < |r| ==>
          r[i].ts > r[j].ts || (r[i].ts == r[j].ts && Precedes(places[i], places[j])))
    && (forall q, x :: PlaceTells(axes, q, x) && q !in places ==>
          |r| == k && forall i :: 0 <= i < |r| ==> r[i].ts > x.ts || (r[i].ts == x.ts && Precedes(places[i], q)))
  }

  ghost predicate NewestTell(axes: seq<Axis>, k: nat, r: seq<Activity>) {
    exists places :: NewestBy(axes, k, r, places)
  }

  /** Between one and two hundred. */
  ghost predicate LimitIs(limit: int, k: nat) {
    1 <= k <= 200 && (k < limit ==> k == 200) && (limit < k ==> k == 1)
  }

  function Told(axes: seq<Axis>, p: Place): Activity {
    if p.axis < |axes| && p.at < |axes[p.axis].table| then
      ToActivity(axes[p.axis].axisName, axes[p.axis].table[p.at])
    else Activity(0, "", "", "", "")
  }

  function PlacesOf(axis: nat, n: nat): (r: seq<Place>)
    ensures |r| == n && forall i :: 0 <= i < n ==> r[i] == Place(axis, i)
  {
    seq(n, i requires 0 <= i < n => Place(axis, i))
  }

  /** The places of the merged rows, in order. */
  function Places(axes: seq<Axis>): seq<Place> {
    if axes == [] then []
    else
      var n := |axes| - 1;
      if axes[n].fails then Places(axes[..n]) else Places(axes[..n]) + PlacesOf(n, |axes[n].table|)
  }

  ghost predicate InPlaceOrder(ps: seq<Place>) {
    forall i, j :: 0 <= i < j < |ps| ==> Precedes(ps[i], ps[j])
  }

  lemma {:induction false} PlacesSpec(axes: seq<Axis>)
    ensures InPlaceOrder(Places(axes))
    ensures forall p :: p in Places(axes) <==> IsPlace(axes, p)
  {
    if axes != [] {
      var n := |axes| - 1;
      PlacesSpec(axes[..n]);
      assert forall p: Place :: p.axis < n ==> (IsPlace(axes[..n], p) <==> IsPlace(axes, p));
      forall i | 0 <= i < |Places(axes[..n])| ensures Places(axes[..n])[i].axis < n {
        assert Places(axes[..n])[i] in Places(axes[..n]);
      }
      forall p: Place | IsPlace(axes, p) && p.axis == n ensures p in PlacesOf(n, |axes[n].table|) {
        assert PlacesOf(n, |axes[n].table|)[p.at] == p;
      }
    }
  }

  function Map<S, T>(xs: seq<S>, f: S -> T): (r: seq<T>)
    ensures |r| == |xs| && forall i :: 0 <= i < |xs| ==> r[i] == f(xs[i])
  {
    seq(|xs|, i requires 0 <= i < |xs| => f(xs[i]))
  }

  function TellIn(axes: seq<Axis>): Place -> Activity {
    p => Told(axes, p)
  }

  lemma {:induction false} MergedIsTold(axes: seq<Axis>, n: nat)
    requires n <= |axes|
    ensures Merged(axes[..n]) == Map(Places(axes[..n]), TellIn(axes))
  {
    if n > 0 {
      MergedIsTold(axes, n - 1);
      assert axes[..n][..n - 1] == axes[..n - 1];
      if !axes[n - 1].fails {
        assert ToActivities(axes[n - 1].axisName, axes[n - 1].table)
            == Map(PlacesOf(n - 1, |axes[n - 1].table|), TellIn(axes));
      }
    }
  }

  /** Places by the time of their rows. */
  function ByTime(axes: seq<Axis>): Place -> Key {
    p => NewestFirst(Told(axes, p))
  }

  lemma {:induction false} InsertMaps(axes: seq<Axis>, ps: seq<Place>, p: Place)
    ensures Insert(Map(ps, TellIn(axes)), Told(axes, p), NewestFirst) == Map(Insert(ps, p, ByTime(axes)), TellIn(axes))
  {
    if ps != [] {
      var n := |ps| - 1;
      assert Map(ps, TellIn(axes))[..n] == Map(ps[..n], TellIn(axes));
      InsertMaps(axes, ps[..n], p);
    }
  }

  /** Sorting the rows is sorting their places. */
  lemma {:induction false} SortMaps(axes: seq<Axis>, ps: seq<Place>)
    ensures Sort(Map(ps, TellIn(axes)), NewestFirst) == Map(Sort(ps, ByTime(axes)), TellIn(axes))
  {
    if ps != [] {
      var n := |ps| - 1;
      assert Map(ps, TellIn(axes))[..n] == Map(ps[..n], TellIn(axes));
      SortMaps(axes, ps[..n]);
      InsertMaps(axes, Sort(ps[..n], ByTime(axes)), ps[n]);
    }
  }

  ghost predicate Ahead(axes: seq<Axis>, p: Place, q: Place) {
    Told(axes, p).ts > Told(axes, q).ts || (Told(axes, p).ts == Told(axes, q).ts && Precedes(p, q))
  }

  ghost predicate AllAhead(axes: seq<Axis>, ps: seq<Place>) {
    forall i, j :: 0 <= i < j < |ps| ==> Ahead(axes, ps[i], ps[j])
  }

  lemma InsertHolds(ps: seq<Place>, p: Place, key: Place -> Key)
    ensures forall q :: q in Insert(ps, p, key) <==> q in ps || q == p
  {
    InsertPermutes(ps, p, key);
    forall q ensures q in Insert(ps, p, key) <==> q in ps || q == p {
      assert q in Insert(ps, p, key) <==> q in multiset(Insert(ps, p, key));
    }
  }

  lemma AheadOfLast(axes: seq<Axis>, ps: seq<Place>, p: Place)
    requires ps != [] && AllAhead(axes, ps) && Precedes(ps[|ps|-1], p)
    requires Le(ByTime(axes)(ps[|ps|-1]), ByTime(axes)(p))
    ensures AllAhead(axes, ps + [p])
  {
    var n := |ps| - 1;
    assert Ahead(axes, ps[n], p);
    forall i | 0 <= i < n ensures Ahead(axes, ps[i], p) {
      assert Ahead(axes, ps[i], ps[n]);
    }
  }

  lemma {:induction false} InsertAhead(axes: seq<Axis>, ps: seq<Place>, p: Place)
    requires AllAhead(axes, ps) && forall i :: 0 <= i < |ps| ==> Precedes(ps[i], p)
    ensures AllAhead(axes, Insert(ps, p, ByTime(axes)))
  {
    if ps != [] {
      var n := |ps| - 1;
      if Le(ByTime(axes)(ps[n]), ByTime(axes)(p)) {
        AheadOfLast(axes, ps, p);
      } else {
        var front := Insert(ps[..n], p, ByTime(axes));
        InsertAhead(axes, ps[..n], p);
        InsertHolds(ps[..n], p, ByTime(axes));
        forall i | 0 <= i < |front| ensures Ahead(axes, front[i], ps[n]) {
          assert front[i] in ps[..n] || front[i] == p;
        }
      }
    }
  }

  /** Places sorted by time: newer first, equally new ones in place order. */
  lemma {:induction false} SortAhead(axes: seq<Axis>, ps: seq<Place>)
    requires InPlaceOrder(ps)
    ensures AllAhead(axes, Sort(ps, ByTime(axes)))
    ensures forall q :: q in Sort(ps, ByTime(axes)) <==> q in ps
  {
    if ps != [] {
      var n := |ps| - 1;
      SortAhead(axes, ps[..n]);
      assert ps == ps[..n] + [ps[n]];
      forall i | 0 <= i < n ensures Precedes(Sort(ps[..n], ByTime(axes))[i], ps[n]) {
        assert Sort(ps[..n], ByTime(axes))[i] in ps[..n];
      }
      InsertAhead(axes, Sort(ps[..n], ByTime(axes)), ps[n]);
      InsertHolds(Sort(ps[..n], ByTime(axes)), ps[n], ByTime(axes));
    }
  }

  lemma ToldTells(axes: seq<Axis>, p: Place, x: Activity)
    requires IsPlace(axes, p)
    ensures PlaceTells(axes, p, x) <==> x == Told(axes, p)
  {
  }

  lemma LeftOutAreBehind(axes: seq<Axis>, sorted: seq<Place>, k: nat, q: Place)
    requires AllAhead(axes, sorted) && q in sorted && q !in Take(sorted, k)
    ensures |Take(sorted, k)| == k && forall i :: 0 <= i < k ==> Ahead(axes, Take(sorted, k)[i], q)
  {
    var y :| 0 <= y < |sorted| && sorted[y] == q;
    assert forall i :: 0 <= i < |Take(sorted, k)| ==> sorted[i] in Take(sorted, k);
  }

  /** The merge has the newest rows, in order. */
  lemma NewestIsTold(axes: seq<Axis>, k: nat)
    ensures NewestTell(axes, k, Newest(axes, k))
  {
    var sorted := Sort(Places(axes), ByTime(axes));
    var places, r := Take(sorted, k), Newest(axes, k);
    PlacesSpec(axes);
    assert axes[..|axes|] == axes;
    MergedIsTold(axes, |axes|);
    SortMaps(axes, Places(axes));
    SortAhead(axes, Places(axes));
    assert r == Map(places, TellIn(axes));
    forall i | 0 <= i < |r| ensures PlaceTells(axes, places[i], r[i]) {
      assert places[i] in sorted;
      ToldTells(axes, places[i], r[i]);
    }
    forall q, x | PlaceTells(axes, q, x) && q !in places
      ensures |r| == k && forall i :: 0 <= i < |r| ==> r[i].ts > x.ts || (r[i].ts == x.ts && Precedes(places[i], q))
    {
      ToldTells(axes, q, x);
      LeftOutAreBehind(axes, sorted, k, q);
    }
    assert NewestBy(axes, k, r, places);
  }

  method GetRecentLakeActivity(axes: seq<Axis>, limit: int) returns (r: seq<Activity>)
    requires InDbOrder(axes)
    ensures r == Newest(AllFetched(axes, Capped(limit)), Capped(limit))
    ensures AllSafe(axes, Capped(limit)) ==> r == Newest(axes, Capped(limit))
    ensures LimitIs(limit, Capped(limit)) && NewestTell(AllFetched(axes, Capped(limit)), Capped(limit), r)
    ensures TimesPresent(axes) ==> NewestTell(axes, Capped(limit), r)
  {
    var k := Capped(limit);
    NewestIsTold(axes, k);
    NewestIsTold(AllFetched(axes, k), k);
    var merged: seq<Activity> := [];
    for i := 0 to |axes|
      invariant merged == Merged(AllFetched(axes, k)[..i])
    {
      assert AllFetched(axes, k)[..i+1][..i] == AllFetched(axes, k)[..i];
      if !axes[i].fails {
        merged := merged + ToActivities(axes[i].axisName, Take(axes[i].table, k));
      }
    }
    assert AllFetched(axes, k)[..|axes|] == AllFetched(axes, k);
    merged := Sort(merged, NewestFirst);
    r := Take(merged, k);
    if AllSafe(axes, k) {
      TruncatedMergeIsExact(axes, k);
    }
  }
}
