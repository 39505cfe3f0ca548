/** Vocabulary shared by the other modules: optional values, and the few facts about
    sequences that several of the folds need. */
module Sequences {

  datatype Option<+T> = None | Some(value: T)

  function Max(a: int, b: int): int {
    if a < b then b else a
  }

  function Min(a: int, b: int): int {
    if a < b then a else b
  }

  /** The last `n` elements. */
  function Last<T>(xs: seq<T>, n: nat): seq<T> {
    if |xs| <= n then xs else xs[|xs|-n..]
  }

  ghost predicate Distinct<T>(xs: seq<T>) {
    forall i, j :: 0 <= i < j < |xs| ==> xs[i] != xs[j]
  }

  function Elements<T>(xs: seq<T>): set<T> {
    set x | x in xs
  }

  /** A sequence of distinct elements is no longer than a set holding all of them. */
  lemma {:induction false} DistinctFits<T>(xs: seq<T>, s: set<T>)
    requires Distinct(xs)
    requires forall x :: x in xs ==> x in s
    ensures |xs| <= |s|
  {
    if xs != [] {
      var n := |xs| - 1;
      DistinctFits(xs[..n], s - {xs[n]});
    }
  }

  /** How many elements satisfy `p`. */
  ghost function Count<T>(xs: seq<T>, p: T -> bool): nat {
    if xs == [] then 0 else Count(xs[..|xs|-1], p) + if p(xs[|xs|-1]) then 1 else 0
  }

  /** The last index whose element satisfies `p`. */
  function LastIndex<T>(xs: seq<T>, p: T -> bool): (k: Option<nat>)
    ensures k.Some? ==> k.value < |xs| && p(xs[k.value])
  {
    if xs == [] then None
    else
      var n := |xs| - 1;
      if p(xs[n]) then Some(n) else LastIndex(xs[..n], p)
  }

  lemma {:induction false} LastIndexIsLast<T>(xs: seq<T>, p: T -> bool)
    ensures var k := LastIndex(xs, p);
            && (k.Some? ==> forall j :: k.value < j < |xs| ==> !p(xs[j]))
            && (k.None? ==> forall j :: 0 <= j < |xs| ==> !p(xs[j]))
  {
    if xs != [] {
      LastIndexIsLast(xs[..|xs|-1], p);
    }
  }

  lemma LastIndexGrows<T>(xs: seq<T>, x: T, p: T -> bool)
    ensures LastIndex(xs + [x], p) == if p(x) then Some(|xs|) else LastIndex(xs, p)
  {
    assert (xs + [x])[..|xs|] == xs;
  }

  /** The first index from `from` on whose element satisfies `p`. */
  function FirstFrom<T>(xs: seq<T>, from: nat, p: T -> bool): (k: Option<nat>)
    ensures k.Some? ==> from <= k.value < |xs| && p(xs[k.value])
  {
    if |xs| <= from then None
    else
      var n := |xs| - 1;
      var k := FirstFrom(xs[..n], from, p);
      if k.Some? then k else if p(xs[n]) then Some(n) else None
  }

  lemma {:induction false} FirstFromIsFirst<T>(xs: seq<T>, from: nat, p: T -> bool)
    ensures var k := FirstFrom(xs, from, p);
            && (k.Some? ==> forall j :: from <= j < k.value ==> !p(xs[j]))
            && (k.None? ==> forall j :: from <= j < |xs| ==> !p(xs[j]))
    decreases |xs|
  {
    if |xs| > from {
      var front := xs[..|xs|-1];
      FirstFromIsFirst(front, from, p);
      assert forall j :: from <= j < |front| ==> front[j] == xs[j];
    }
  }

  // ---------------------------------------------------------------- numbers as text

  function Digit(d: nat): char
    requires d < 10
  {
    ['0', '1', '2', '3', '4', '5', '6', '7', '8', '9'][d]
  }

  function Decimal(n: nat): (s: string)
    ensures s != "" && forall i :: 0 <= i < |s| ==> s[i] != '-'
  {
    if n < 10 then [Digit(n)] else Decimal(n / 10) + [Digit(n % 10)]
  }

  /** The number a text of digits stands for. */
  ghost function ReadNat(s: string): nat {
    if s == "" then 0
    else
      var c := s[|s|-1];
      10 * ReadNat(s[..|s|-1]) + if '0' <= c <= '9' then c as int - '0' as int else 0
  }

  ghost predicate AllDigits(s: string) {
    forall i :: 0 <= i < |s| ==> '0' <= s[i] <= '9'
  }

  /** A number as it is written: digits, with no zero in front of others. */
  ghost predicate Canonical(s: string) {
    s != "" && AllDigits(s) && (s[0] == '0' ==> |s| == 1)
  }

  lemma DigitsRead(d: nat)
    requires d < 10
    ensures '0' <= Digit(d) <= '9' && Digit(d) as int == '0' as int + d
  {
  }

  lemma ReadSnoc(s: string, d: nat)
    requires d < 10
    ensures ReadNat(s + [Digit(d)]) == 10 * ReadNat(s) + d
    ensures AllDigits(s) ==> AllDigits(s + [Digit(d)])
  {
    DigitsRead(d);
    assert (s + [Digit(d)])[..|s|] == s;
  }

  /** Printing a number and reading it gives the number. */
  lemma {:induction false} DecimalReads(n: nat)
    ensures Canonical(Decimal(n)) && ReadNat(Decimal(n)) == n
    ensures n > 0 ==> Decimal(n)[0] != '0'
  {
    DigitsRead(n % 10);
    if n < 10 {
      ReadSnoc("", n);
      assert "" + [Digit(n)] == Decimal(n);
    } else {
      DecimalReads(n / 10);
      ReadSnoc(Decimal(n / 10), n % 10);
    }
  }

  lemma {:induction false} DecimalInjective(m: nat, n: nat)
    requires Decimal(m) == Decimal(n)
    ensures m == n
  {
    var s := Decimal(m);
    assert s[|s|-1] == Digit(m % 10) == Digit(n % 10);
    if m >= 10 && n >= 10 {
      assert s[..|s|-1] == Decimal(m / 10) == Decimal(n / 10);
      DecimalInjective(m / 10, n / 10);
    }
  }

  // ---------------------------------------------------------------- numbers in text order

  /** Dictionary order of texts, a shorter text before its extensions. */
  predicate TextLess(a: string, b: string) {
    b != "" && (a == "" || a[0] < b[0] || (a[0] == b[0] && TextLess(a[1..], b[1..])))
  }

  lemma {:induction false} TextLessSnoc(a: string, x: char, b: string, y: char)
    requires |a| == |b|
    ensures TextLess(a + [x], b + [y]) <==> TextLess(a, b) || (a == b && x < y)
  {
    if a == "" {
      assert a + [x] == [x] && b + [y] == [y];
    } else {
      assert (a + [x])[1..] == a[1..] + [x] && (b + [y])[1..] == b[1..] + [y];
      TextLessSnoc(a[1..], x, b[1..], y);
      assert a == b <==> a[0] == b[0] && a[1..] == b[1..];
    }
  }

  lemma DigitsAscend(x: nat, y: nat)
    requires x < 10 && y < 10
    ensures Digit(x) < Digit(y) <==> x < y
    ensures Digit(x) == Digit(y) <==> x == y
  {
  }

  lemma ByTens(m: nat, n: nat)
    ensures m < n <==> m / 10 < n / 10 || (m / 10 == n / 10 && m % 10 < n % 10)
  {
  }

  /** Among numbers with equally many digits, text order is the order of the numbers. */
  lemma {:induction false} TextOrderOfEqualLength(m: nat, n: nat)
    requires |Decimal(m)| == |Decimal(n)|
    ensures TextLess(Decimal(m), Decimal(n)) <==> m < n
  {
    if m < 10 {
      assert Decimal(m)[1..] == "" && Decimal(n)[1..] == "";
    } else {
      TextOrderOfEqualLength(m / 10, n / 10);
      TextLessSnoc(Decimal(m / 10), Digit(m % 10), Decimal(n / 10), Digit(n % 10));
      DigitsAscend(m % 10, n % 10);
      ByTens(m, n);
      if Decimal(m / 10) == Decimal(n / 10) {
        DecimalInjective(m / 10, n / 10);
      }
    }
  }

  /** More digits, a greater number. */
  lemma {:induction false} LongerIsGreater(m: nat, n: nat)
    requires m <= n
    ensures |Decimal(m)| <= |Decimal(n)|
  {
    if m >= 10 {
      LongerIsGreater(m / 10, n / 10);
    }
  }
}
