/** What the data-product and notebook folds share (apps/dashboard/lib/ledger-client.ts): the shape of
    their rows, the last row of a kind, and the run ids made of an id and a seq. */
module LifecycleRows {
  import opened Sequences

  /** `id` is empty when the row names no product or notebook. */
  datatype Row<E> = Row(seqNo: nat, ts: int, hash: string, id: string, event: E)

  function Or<T(==)>(o: Option<T>, default: T): (r: T)
    ensures if o == None then r == default else o == Some(r)
  {
    if o.Some? then o.value else default
  }

  /** The last row that names `id` and whose event is of the wanted kind. */
  function LastRow<E>(rows: seq<Row<E>>, id: string, wanted: E -> bool): (k: Option<nat>)
    ensures k.Some? ==> k.value < |rows| && rows[k.value].id == id && wanted(rows[k.value].event)
  {
    if rows == [] then None
    else
      var n := |rows| - 1;
      if rows[n].id == id && wanted(rows[n].event) then Some(n) else LastRow(rows[..n], id, wanted)
  }

  /** The last of the records that belong to `id`. */
  function LastRecord<R>(records: seq<R>, id: string, idOf: R -> string): (r: Option<R>)
    ensures r.Some? ==> r.value in records && idOf(r.value) == id
    ensures r.None? ==> forall k :: 0 <= k < |records| ==> idOf(records[k]) != id
  {
    if records == [] then None
    else
      var n := |records| - 1;
      if idOf(records[n]) == id then Some(records[n]) else LastRecord(records[..n], id, idOf)
  }

  /** `places` are where the rows are that satisfy `p`, in order. */
  ghost predicate Selects<E(!new)>(rows: seq<Row<E>>, p: Row<E> -> bool, places: seq<nat>) {
    && (forall i, j :: 0 <= i < j < |places| ==> places[i] < places[j])
    && (forall k: nat :: k in places <==> k < |rows| && p(rows[k]))
  }

  /** The records tell of the rows at those places, one of each. */
  ghost predicate TellsOf<E(!new), R>(rows: seq<Row<E>>, p: Row<E> -> bool, tells: (R, Row<E>) -> bool,
                                      records: seq<R>, places: seq<nat>) {
    && Selects(rows, p, places) && |records| == |places|
    && forall i :: 0 <= i < |records| ==> places[i] < |rows| && tells(records[i], rows[places[i]])
  }

  lemma SelectsMore<E(!new)>(rows: seq<Row<E>>, p: Row<E> -> bool, places: seq<nat>, row: Row<E>)
    requires Selects(rows, p, places)
    ensures Selects(rows + [row], p, if p(row) then places + [|rows|] else places)
  {
    assert forall i :: 0 <= i < |places| ==> places[i] in places;
  }

  lemma TellsMore<E(!new), R>(rows: seq<Row<E>>, p: Row<E> -> bool, tells: (R, Row<E>) -> bool,
                              records: seq<R>, places: seq<nat>, row: Row<E>, record: R)
    requires TellsOf(rows, p, tells, records, places) && (p(row) ==> tells(record, row))
    ensures TellsOf(rows + [row], p, tells, if p(row) then records + [record] else records,
                    if p(row) then places + [|rows|] else places)
  {
    SelectsMore(rows, p, places, row);
  }

  lemma LastRowGrows<E>(rows: seq<Row<E>>, id: string, wanted: E -> bool, row: Row<E>)
    ensures LastRow(rows + [row], id, wanted)
            == if row.id == id && wanted(row.event) then Some(|rows|) else LastRow(rows, id, wanted)
  {
    assert (rows + [row])[..|rows|] == rows;
  }

  function RunKey(id: string, seqNo: nat): string {
    id + "-" + Decimal(seqNo)
  }

  lemma LastDash(a: string, d: string, b: string, e: string)
    requires a + "-" + d == b + "-" + e
    requires forall i :: 0 <= i < |e| ==> e[i] != '-'
    ensures |e| <= |d|
  {
    var whole := b + "-" + e;
    assert (a + "-" + d)[|a|] == '-';
    assert forall i :: |b| < i < |whole| ==> whole[i] == e[i - |b| - 1];
  }

  /** Two rows never share a generated id. */
  lemma RunKeyInjective(a: string, m: nat, b: string, n: nat)
    requires RunKey(a, m) == RunKey(b, n)
    ensures a == b && m == n
  {
    var whole := RunKey(a, m);
    assert whole == a + "-" + Decimal(m) == b + "-" + Decimal(n);
    LastDash(a, Decimal(m), b, Decimal(n));
    LastDash(b, Decimal(n), a, Decimal(m));
    assert whole[..|a|] == a && whole[..|b|] == b;
    assert whole[|a|+1..] == Decimal(m) && whole[|b|+1..] == Decimal(n);
    DecimalInjective(m, n);
  }
}
