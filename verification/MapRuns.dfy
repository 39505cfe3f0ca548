/** The same changes made to a `Map` that starts with entries and to one that starts empty: when do
    the two end with the same entries in the same order? */
module MapRuns {
  import opened Sequences
  import opened OrderedMaps

  /** Setting a key, setting it unless present, deleting it, or nothing. */
  datatype Change<K, V> = Put(key: K, value: V) | PutNew(key: K, value: V) | Drop(key: K) | Skip

  function Apply<K(==), V>(m: Entries<K, V>, c: Change<K, V>): Entries<K, V> {
    match c
    case Put(k, v) => Set(m, k, v)
    case PutNew(k, v) => if Has(m, k) then m else Set(m, k, v)
    case Drop(k) => Delete(m, k)
    case Skip => m
  }

  function Run<K(==), V>(m: Entries<K, V>, cs: seq<Change<K, V>>): Entries<K, V> {
    if cs == [] then m else Apply(Run(m, cs[..|cs|-1]), cs[|cs|-1])
  }

  predicate Drops<K(==), V>(cs: seq<Change<K, V>>, k: K) {
    exists i :: 0 <= i < |cs| && cs[i].Drop? && cs[i].key == k
  }

  /** The keys that no change drops, in order. */
  function Kept<K(==), V>(ks: seq<K>, cs: seq<Change<K, V>>): seq<K> {
    if ks == [] then []
    else if Drops(cs, ks[0]) then Kept(ks[1..], cs)
    else [ks[0]] + Kept(ks[1..], cs)
  }

  /** The entries whose keys are not among `ks`, in order. */
  function Outside<K(==), V>(m: Entries<K, V>, ks: seq<K>): Entries<K, V> {
    if m == [] then []
    else if m[0].0 in ks then Outside(m[1..], ks)
    else [m[0]] + Outside(m[1..], ks)
  }

  // ---------------------------------------------------------------- one change at a time

  lemma {:induction false} SetInHead<K, V>(a: Entries<K, V>, b: Entries<K, V>, k: K, v: V)
    requires k in Keys(a)
    ensures Set(a + b, k, v) == Set(a, k, v) + b
  {
    assert (a + b)[1..] == a[1..] + b;
    if a[0].0 != k {
      assert Keys(a) == [a[0].0] + Keys(a[1..]);
      SetInHead(a[1..], b, k, v);
    }
  }

  lemma {:induction false} SetBehindHead<K, V>(a: Entries<K, V>, b: Entries<K, V>, k: K, v: V)
    requires k !in Keys(a)
    ensures Set(a + b, k, v) == a + Set(b, k, v)
  {
    if a == [] {
      assert a + b == b;
    } else {
      assert a[0].0 == Keys(a)[0];
      assert Keys(a) == [a[0].0] + Keys(a[1..]);
      assert (a + b)[1..] == a[1..] + b;
      SetBehindHead(a[1..], b, k, v);
    }
  }

  lemma SetConcat<K, V>(a: Entries<K, V>, b: Entries<K, V>, k: K, v: V)
    ensures Set(a + b, k, v) == if k in Keys(a) then Set(a, k, v) + b else a + Set(b, k, v)
  {
    if k in Keys(a) {
      SetInHead(a, b, k, v);
    } else {
      SetBehindHead(a, b, k, v);
    }
  }

  lemma {:induction false} DeleteConcat<K, V>(a: Entries<K, V>, b: Entries<K, V>, k: K)
    ensures Delete(a + b, k) == Delete(a, k) + Delete(b, k)
  {
    if a == [] {
      assert a + b == b;
    } else {
      assert (a + b)[1..] == a[1..] + b;
      DeleteConcat(a[1..], b, k);
    }
  }

  lemma {:induction false} OutsideSet<K, V>(m: Entries<K, V>, ks: seq<K>, k: K, v: V)
    ensures Outside(Set(m, k, v), ks) == if k in ks then Outside(m, ks) else Set(Outside(m, ks), k, v)
  {
    if m != [] {
      var r := Set(m, k, v);
      if m[0].0 == k {
        assert r[1..] == m[1..];
        if k !in ks {
          assert Outside(m, ks)[1..] == Outside(m[1..], ks);
        }
      } else {
        OutsideSet(m[1..], ks, k, v);
        assert r[1..] == Set(m[1..], k, v);
        if m[0].0 !in ks {
          assert Outside(m, ks)[1..] == Outside(m[1..], ks);
        }
      }
    }
  }

  lemma {:induction false} OutsideDelete<K, V>(m: Entries<K, V>, ks: seq<K>, ks': seq<K>, k: K)
    requires forall x :: x != k ==> (x in ks <==> x in ks')
    ensures Outside(Delete(m, k), ks') == Delete(Outside(m, ks), k)
  {
    if m != [] {
      OutsideDelete(m[1..], ks, ks', k);
      if m[0].0 != k {
        assert Delete(m, k)[1..] == Delete(m[1..], k);
      }
      if m[0].0 !in ks {
        assert Outside(m, ks)[1..] == Outside(m[1..], ks);
      }
    }
  }

  lemma KeysCons<K, V>(m: Entries<K, V>)
    requires m != []
    ensures Keys(m) == [m[0].0] + Keys(m[1..])
  {
  }

  lemma {:induction false} OutsideKeys<K, V>(m: Entries<K, V>, ks: seq<K>, k: K)
    ensures k in Keys(Outside(m, ks)) <==> k in Keys(m) && k !in ks
  {
    if m != [] {
      OutsideKeys(m[1..], ks, k);
      KeysCons(m);
      if m[0].0 !in ks {
        var rest := Outside(m[1..], ks);
        assert ([m[0]] + rest)[1..] == rest;
        KeysCons([m[0]] + rest);
      }
    }
  }

  lemma DropsSnoc<K, V>(cs: seq<Change<K, V>>, c: Change<K, V>, k: K)
    ensures Drops(cs + [c], k) <==> Drops(cs, k) || (c.Drop? && c.key == k)
  {
    if Drops(cs, k) {
      var i :| 0 <= i < |cs| && cs[i].Drop? && cs[i].key == k;
      assert (cs + [c])[i] == cs[i];
    }
    if c.Drop? && c.key == k {
      assert (cs + [c])[|cs|] == c;
    }
  }

  lemma {:induction false} KeptIn<K, V>(ks: seq<K>, cs: seq<Change<K, V>>, k: K)
    ensures k in Kept(ks, cs) <==> k in ks && !Drops(cs, k)
  {
    if ks != [] {
      KeptIn(ks[1..], cs, k);
    }
  }

  lemma {:induction false} KeptStays<K, V>(ks: seq<K>, cs: seq<Change<K, V>>, c: Change<K, V>)
    requires !c.Drop?
    ensures Kept(ks, cs + [c]) == Kept(ks, cs)
  {
    if ks != [] {
      DropsSnoc(cs, c, ks[0]);
      KeptStays(ks[1..], cs, c);
    }
  }

  /** Dropping a key takes it from the entries as it does from the keys kept. */
  lemma {:induction false} KeptDrops<K, V>(ks: seq<K>, a: Entries<K, V>, cs: seq<Change<K, V>>, k: K)
    requires Keys(a) == Kept(ks, cs)
    ensures Keys(Delete(a, k)) == Kept(ks, cs + [Drop(k)])
    decreases |ks|
  {
    if ks != [] {
      var c: Change<K, V> := Drop(k);
      DropsSnoc(cs, c, ks[0]);
      if Drops(cs, ks[0]) {
        KeptDrops(ks[1..], a, cs, k);
      } else {
        assert a[0].0 == Keys(a)[0] == ks[0];
        assert Keys(a[1..]) == Keys(a)[1..] == Kept(ks[1..], cs);
        KeptDrops(ks[1..], a[1..], cs, k);
        if ks[0] != k {
          assert Keys(Delete(a, k)) == [ks[0]] + Keys(Delete(a[1..], k));
        }
      }
    } else {
      assert a == [];
      assert Keys(Delete(a, k)) == [];
    }
  }

  // ---------------------------------------------------------------- all changes

  /** After `cs`, the entries `head` kept from `before` come first, and then the rest of the run from
      nothing, in its order. */
  ghost predicate Splits<K, V>(before: Entries<K, V>, cs: seq<Change<K, V>>, head: Entries<K, V>) {
    && Keys(head) == Kept(Keys(before), cs)
    && Run(before, cs) == head + Outside(Run([], cs), Kept(Keys(before), cs))
  }

  lemma SetKeepsKeys<K, V>(a: Entries<K, V>, k: K, v: V)
    requires k in Keys(a)
    ensures Keys(Set(a, k, v)) == Keys(a)
  {
    SetKeys(a, k, v);
  }

  lemma PutSplits<K, V>(a: Entries<K, V>, s: Entries<K, V>, ks: seq<K>, k: K, v: V) returns (a': Entries<K, V>)
    requires Keys(a) == ks
    ensures Keys(a') == ks && Set(a + Outside(s, ks), k, v) == a' + Outside(Set(s, k, v), ks)
  {
    a' := if k in ks then Set(a, k, v) else a;
    SetConcat(a, Outside(s, ks), k, v);
    OutsideSet(s, ks, k, v);
    if k in ks {
      SetKeepsKeys(a, k, v);
    }
  }

  lemma KeysConcat<K, V>(a: Entries<K, V>, b: Entries<K, V>)
    ensures Keys(a + b) == Keys(a) + Keys(b)
  {
  }

  lemma HasSplits<K, V>(a: Entries<K, V>, s: Entries<K, V>, ks: seq<K>, k: K)
    requires Keys(a) == ks
    ensures Has(a + Outside(s, ks), k) <==> k in ks || Has(s, k)
  {
    HasIsIn(a + Outside(s, ks), k);
    HasIsIn(s, k);
    OutsideKeys(s, ks, k);
    KeysConcat(a, Outside(s, ks));
  }

  lemma PutNewSplits<K, V>(a: Entries<K, V>, s: Entries<K, V>, ks: seq<K>, k: K, v: V)
    requires Keys(a) == ks
    ensures Apply(a + Outside(s, ks), PutNew(k, v)) == a + Outside(Apply(s, PutNew(k, v)), ks)
  {
    HasSplits(a, s, ks, k);
    if !Has(s, k) {
      OutsideSet(s, ks, k, v);
      if k !in ks {
        SetConcat(a, Outside(s, ks), k, v);
      }
    }
  }

  lemma DropSplits<K, V>(before: Entries<K, V>, cs: seq<Change<K, V>>, a: Entries<K, V>, k: K)
    requires Splits(before, cs, a)
    ensures Splits(before, cs + [Drop(k)], Delete(a, k))
  {
    var c: Change<K, V> := Drop(k);
    var ks, ks' := Kept(Keys(before), cs), Kept(Keys(before), cs + [c]);
    var s := Run([], cs);
    assert (cs + [c])[..|cs|] == cs;
    KeptDrops(Keys(before), a, cs, k);
    forall x | x != k ensures x in ks <==> x in ks' {
      KeptIn(Keys(before), cs, x);
      KeptIn(Keys(before), cs + [c], x);
      DropsSnoc(cs, c, x);
    }
    DeleteConcat(a, Outside(s, ks), k);
    OutsideDelete(s, ks, ks', k);
  }

  lemma ChangeSplits<K, V>(before: Entries<K, V>, cs: seq<Change<K, V>>, a: Entries<K, V>, c: Change<K, V>)
    returns (a': Entries<K, V>)
    requires Splits(before, cs, a)
    ensures Splits(before, cs + [c], a')
  {
    var ks := Kept(Keys(before), cs);
    assert (cs + [c])[..|cs|] == cs;
    a' := a;
    match c
    case Put(k, v) =>
      KeptStays(Keys(before), cs, c);
      a' := PutSplits(a, Run([], cs), ks, k, v);
    case PutNew(k, v) =>
      KeptStays(Keys(before), cs, c);
      PutNewSplits(a, Run([], cs), ks, k, v);
    case Drop(k) =>
      DropSplits(before, cs, a, k);
      a' := Delete(a, k);
    case Skip =>
      KeptStays(Keys(before), cs, c);
  }

  lemma {:induction false} KeptAll<K, V>(ks: seq<K>, cs: seq<Change<K, V>>)
    requires cs == []
    ensures Kept(ks, cs) == ks
    decreases |ks|
  {
    if ks != [] {
      KeptAll(ks[1..], cs);
    }
  }

  lemma {:induction false} RunSplits<K, V>(before: Entries<K, V>, cs: seq<Change<K, V>>) returns (head: Entries<K, V>)
    ensures Splits(before, cs, head)
    decreases |cs|
  {
    if cs == [] {
      head := before;
      KeptAll(Keys(before), cs);
      assert before + [] == before;
    } else {
      var n := |cs| - 1;
      var h := RunSplits(before, cs[..n]);
      assert cs[..n] + [cs[n]] == cs;
      head := ChangeSplits(before, cs[..n], h, cs[n]);
    }
  }

  lemma {:induction false} RunKeepsDistinct<K, V>(m: Entries<K, V>, cs: seq<Change<K, V>>)
    requires Distinct(Keys(m))
    ensures Distinct(Keys(Run(m, cs)))
    decreases |cs|
  {
    if cs != [] {
      var n := |cs| - 1;
      RunKeepsDistinct(m, cs[..n]);
      match cs[n]
      case Put(k, v) => SetKeys(Run(m, cs[..n]), k, v);
      case PutNew(k, v) => SetKeys(Run(m, cs[..n]), k, v);
      case Drop(k) => DeleteLaws(Run(m, cs[..n]), k, k);
      case Skip =>
    }
  }

  lemma {:induction false} OutsideOfHead<K, V>(a: Entries<K, V>, b: Entries<K, V>, ks: seq<K>)
    requires forall i :: 0 <= i < |a| ==> a[i].0 in ks
    requires forall i :: 0 <= i < |b| ==> b[i].0 !in ks
    ensures Outside(a + b, ks) == b
    decreases |a| + |b|
  {
    if a != [] {
      assert (a + b)[1..] == a[1..] + b;
      OutsideOfHead(a[1..], b, ks);
    } else if b != [] {
      assert a + b == b && [] + b[1..] == b[1..];
      OutsideOfHead([], b[1..], ks);
    }
  }

  /** A run that starts with entries begins with the keys kept of them; and it is the run that starts
      empty exactly when that one begins with the same entries. */
  lemma SameRunIff<K, V>(before: Entries<K, V>, cs: seq<Change<K, V>>)
    ensures var kept, whole, anew := Kept(Keys(before), cs), Run(before, cs), Run([], cs);
            && |kept| <= |whole| && Keys(whole)[..|kept|] == kept
            && (whole == anew <==> |kept| <= |anew| && anew[..|kept|] == whole[..|kept|])
  {
    var kept, whole, s := Kept(Keys(before), cs), Run(before, cs), Run([], cs);
    var head := RunSplits(before, cs);
    var n := |kept|;
    assert |head| == |Keys(head)| == n && whole[..n] == head;
    assert Keys(whole)[..n] == Keys(head);
    if n <= |s| && s[..n] == head {
      assert s == head + s[n..];
      RunKeepsDistinct<K, V>([], cs);
      forall i | 0 <= i < |s[n..]| ensures s[n..][i].0 !in kept {
        KeyBehind(s, n, i);
        assert Keys(s)[..n] == kept;
      }
      forall i | 0 <= i < |head| ensures head[i].0 in kept {
        assert head[i].0 == Keys(head)[i];
      }
      OutsideOfHead(head, s[n..], kept);
    }
  }

  /** With distinct keys, none behind the first `n` is among them. */
  lemma KeyBehind<K, V>(s: Entries<K, V>, n: nat, i: nat)
    requires Distinct(Keys(s)) && n + i < |s|
    ensures s[n..][i].0 !in Keys(s)[..n]
  {
    assert s[n..][i].0 == Keys(s)[n + i];
  }
}
