/**
 * `ordenarMesesComMesAtualCentralizado`: the month tabs in chronological
 * order. The branch taken when the current month is among the tabs
 * rebuilds the sorted list unchanged, so no tab is moved.
 */
module MonthTabs {
  import opened Calendar
  import opened Wrappers
  import opened Text
  import opened MonthKeys

  /** `{ mes, data }`: a tab's key and the first day of its month. */
  datatype Tab = Tab(mes: string, data: Date)

  /** `new Date(`${nome} 01, ${ano}`)` for a well-formed key. */
  function TabOf(mes: string): (t: Tab)
    requires ParseMonthKey(mes).Some?
    ensures t.mes == mes && ValidDate(t.data)
    ensures t.data == Date(ParseMonthKey(mes).value.year, ParseMonthKey(mes).value.month, 1)
  {
    var ym := ParseMonthKey(mes).value;
    Tab(mes, Date(ym.year, ym.month, 1))
  }

  /** The time value the comparator `a.data - b.data` subtracts. */
  function TabTime(t: Tab): int {
    TimeValue(Instant(t.data, 0))
  }

  /** Ascending by a numeric key. */
  predicate SortedBy<T>(s: seq<T>, key: T -> int) {
    forall p, q | 0 <= p < q < |s| :: key(s[p]) <= key(s[q])
  }

  /** Ascending by time value, the order the comparator `a.data - b.data` sorts into. */
  predicate SortedByTime(s: seq<Tab>) {
    SortedBy(s, TabTime)
  }

  /** Chronological order of two well-formed keys: (year, month) compared lexicographically. */
  predicate KeyNotAfter(k1: string, k2: string) {
    match (ParseMonthKey(k1), ParseMonthKey(k2))
    case (Some(a), Some(b)) => a.year < b.year || (a.year == b.year && a.month <= b.month)
    case _ => false
  }

  /** `.map(f)` on a sequence. */
  function Project<A, B>(s: seq<A>, f: A -> B): (r: seq<B>)
    ensures |r| == |s| && forall i | 0 <= i < |s| :: r[i] == f(s[i])
  {
    if s == [] then [] else [f(s[0])] + Project(s[1..], f)
  }

  function TabKey(t: Tab): string {
    t.mes
  }

  /** The keys of a list of tabs: `.map((item) => item.mes)`. */
  function MesList(s: seq<Tab>): (ks: seq<string>)
    ensures |ks| == |s| && forall i | 0 <= i < |s| :: ks[i] == s[i].mes
  {
    Project(s, TabKey)
  }

  method Swap<T>(a: array<T>, i: int, j: int)
    requires 0 <= i < a.Length && 0 <= j < a.Length
    modifies a
    ensures a[i] == old(a[j]) && a[j] == old(a[i])
    ensures forall k | 0 <= k < a.Length && k != i && k != j :: a[k] == old(a[k])
    ensures multiset(a[..]) == multiset(old(a[..]))
  {
    a[i], a[j] := a[j], a[i];
  }

  /** `mesesComData.sort((a, b) => a.data - b.data)`: a stable sort in place. */
  method SortTabs(a: array<Tab>)
    modifies a
    ensures SortedByTime(a[..])
    ensures multiset(a[..]) == multiset(old(a[..]))
  {
    SortByKey(a, TabTime);
  }

  /** Insertion sort by a numeric key. */
  method SortByKey<T>(a: array<T>, key: T -> int)
    modifies a
    ensures SortedBy(a[..], key)
    ensures multiset(a[..]) == multiset(old(a[..]))
  {
    for i := 0 to a.Length
      invariant SortedBy(a[..i], key)
      invariant multiset(a[..]) == multiset(old(a[..]))
    {
      InsertByKey(a, i, key);
    }
    assert a[..a.Length] == a[..];
  }

  /** Sinks `a[i]` into the sorted prefix `a[..i]`, past every strictly larger element only. */
  method InsertByKey<T>(a: array<T>, i: nat, key: T -> int)
    requires i < a.Length && SortedBy(a[..i], key)
    modifies a
    ensures SortedBy(a[..i + 1], key)
    ensures multiset(a[..]) == multiset(old(a[..]))
    ensures a[i + 1..] == old(a[i + 1..])
    ensures multiset(a[..i + 1]) == multiset(old(a[..i + 1]))
  {
    Sink(a, i, key);
    assert a[i + 1..] == old(a[i + 1..]);
    PrefixMultiset(a[..], old(a[..]), i + 1);
  }

  /** The swapping loop of `InsertByKey`; it touches no cell after `i`. */
  method Sink<T>(a: array<T>, i: nat, key: T -> int)
    requires i < a.Length && SortedBy(a[..i], key)
    modifies a
    ensures SortedBy(a[..i + 1], key)
    ensures multiset(a[..]) == multiset(old(a[..]))
    ensures forall k | i < k < a.Length :: a[k] == old(a[k])
  {
    var j := i;
    while j > 0 && key(a[j - 1]) > key(a[j])
      invariant 0 <= j <= i
      invariant forall p, q | 0 <= p < q <= i && p != j && q != j :: key(a[p]) <= key(a[q])
      invariant forall q | j < q <= i :: key(a[j]) <= key(a[q])
      invariant multiset(a[..]) == multiset(old(a[..]))
      invariant forall k | i < k < a.Length :: a[k] == old(a[k])
    {
      Swap(a, j - 1, j);
      j := j - 1;
    }
  }

  /** Two sequences with the same multiset and the same suffix from `n` have the same multiset before `n`. */
  lemma PrefixMultiset<T>(s: seq<T>, t: seq<T>, n: nat)
    requires n <= |s| == |t| && multiset(s) == multiset(t) && s[n..] == t[n..]
    ensures multiset(s[..n]) == multiset(t[..n])
  {
    assert s == s[..n] + s[n..];
    assert t == t[..n] + t[n..];
    var a, b, c := multiset(s[..n]), multiset(t[..n]), multiset(s[n..]);
    assert a + c == b + c;
    forall x ensures a[x] == b[x] {
      assert (a + c)[x] == (b + c)[x];
    }
  }

  predicate IsCurrentMonth(t: Tab, hoje: Instant): (current: bool)
    ensures ParseMonthKey(t.mes).Some? && t == TabOf(t.mes) ==>
      (current <==> ParseMonthKey(t.mes).value == YearMonth(hoje.date.year, hoje.date.month))
  {
    t.data.month == hoje.date.month && t.data.year == hoje.date.year
  }

  /** `findIndex` of the tab of the current month, or -1. */
  method FindCurrentMonth(a: array<Tab>, hoje: Instant) returns (index: int)
    ensures -1 <= index < a.Length
    ensures index == -1 <==> forall k | 0 <= k < a.Length :: !IsCurrentMonth(a[k], hoje)
    ensures index >= 0 ==> IsCurrentMonth(a[index], hoje) && forall k | 0 <= k < index :: !IsCurrentMonth(a[k], hoje)
  {
    index := 0;
    while index < a.Length
      invariant 0 <= index <= a.Length
      invariant forall k | 0 <= k < index :: !IsCurrentMonth(a[k], hoje)
    {
      if IsCurrentMonth(a[index], hoje) {
        return;
      }
      index := index + 1;
    }
    index := -1;
  }

  /** `[...anteriores, atual, ...seguintes]`: puts every tab back where it was. */
  function Recentred(s: seq<Tab>, index: nat): (r: seq<Tab>)
    requires index < |s|
    ensures r == s
  {
    assert s == s[..index] + s[index..];
    assert s[index..] == [s[index]] + s[index + 1..];
    s[..index] + [s[index]] + s[index + 1..]
  }

  lemma ProjectAppend<A, B>(s: seq<A>, t: seq<A>, f: A -> B)
    ensures Project(s + t, f) == Project(s, f) + Project(t, f)
  {
  }

  /** Taking out one element takes out its image. */
  lemma RemoveOne<A, B>(t: seq<A>, j: nat, f: A -> B)
    requires j < |t|
    ensures var rest := t[..j] + t[j + 1..];
            multiset(t) == multiset(rest) + multiset{t[j]}
            && multiset(Project(t, f)) == multiset(Project(rest, f)) + multiset{f(t[j])}
  {
    assert t == t[..j] + [t[j]] + t[j + 1..];
    ProjectAppend(t[..j] + [t[j]], t[j + 1..], f);
    ProjectAppend(t[..j], [t[j]], f);
    ProjectAppend(t[..j], t[j + 1..], f);
  }

  lemma HeadTail<A>(s: seq<A>)
    requires s != []
    ensures s == [s[0]] + s[1..] && multiset(s) == multiset(s[1..]) + multiset{s[0]}
  {
    assert s == [s[0]] + s[1..];
  }

  lemma Cancel<X>(a: multiset<X>, b: multiset<X>, x: X)
    requires a + multiset{x} == b + multiset{x}
    ensures a == b
  {
    assert a == (a + multiset{x}) - multiset{x};
    assert b == (b + multiset{x}) - multiset{x};
  }

  /** Rearranging a sequence rearranges its image the same way. */
  lemma {:induction false} ProjectPermutation<A, B>(s: seq<A>, t: seq<A>, f: A -> B)
    requires multiset(s) == multiset(t)
    ensures multiset(Project(s, f)) == multiset(Project(t, f))
    decreases |s|
  {
    if s == [] {
      assert t == [] by { assert |multiset(t)| == 0; }
    } else {
      var x := s[0];
      assert x in t by { assert x in multiset(s); }
      var j :| 0 <= j < |t| && t[j] == x;
      var rest := t[..j] + t[j + 1..];
      RemoveOne(t, j, f);
      HeadTail(s);
      Cancel(multiset(s[1..]), multiset(rest), x);
      ProjectPermutation(s[1..], rest, f);
      assert Project(s, f) == [f(x)] + Project(s[1..], f);
    }
  }

  /** Rearranging tabs rearranges their keys the same way. */
  lemma MesListPermutation(s: seq<Tab>, t: seq<Tab>)
    requires multiset(s) == multiset(t)
    ensures multiset(MesList(s)) == multiset(MesList(t))
  {
    ProjectPermutation(s, t, TabKey);
  }

  /** For tabs built from keys, time order is (year, month) order. */
  lemma TabTimeOrder(t1: Tab, t2: Tab)
    requires ParseMonthKey(t1.mes).Some? && t1 == TabOf(t1.mes)
    requires ParseMonthKey(t2.mes).Some? && t2 == TabOf(t2.mes)
    ensures TabTime(t1) <= TabTime(t2) <==> KeyNotAfter(t1.mes, t2.mes)
  {
    DayIndexOrder(t1.data, t2.data);
    var x, y := DayIndex(t1.data), DayIndex(t2.data);
    if x <= y {
      assert x * MsPerDay <= y * MsPerDay;
    } else {
      assert y * MsPerDay < x * MsPerDay;
    }
  }

  /**
   * The month tabs, oldest first: a rearrangement of the given keys in
   * ascending (year, month) order, whether or not the current month is
   * one of them.
   */
  method OrdenarMesesComMesAtualCentralizado(meses: seq<string>, hoje: Instant) returns (ordered: seq<string>)
    requires forall k | k in meses :: ParseMonthKey(k).Some?
    ensures multiset(ordered) == multiset(meses)
    ensures forall k | k in ordered :: ParseMonthKey(k).Some?
    ensures forall p, q | 0 <= p < q < |ordered| :: KeyNotAfter(ordered[p], ordered[q])
  {
    var tabs := seq(|meses|, i requires 0 <= i < |meses| => TabOf(meses[i]));
    var mesesComData := new Tab[|tabs|](i requires 0 <= i < |tabs| => tabs[i]);
    assert mesesComData[..] == tabs;
    SortTabs(mesesComData);
    var sorted := mesesComData[..];

    var mesAtualIndex := FindCurrentMonth(mesesComData, hoje);
    if mesAtualIndex != -1 {
      var anteriores := mesesComData[..mesAtualIndex];
      var atual := mesesComData[mesAtualIndex];
      var seguintes := mesesComData[mesAtualIndex + 1..];
      ordered := MesList(anteriores + [atual] + seguintes);
      assert anteriores + [atual] + seguintes == Recentred(sorted, mesAtualIndex);
    } else {
      ordered := MesList(sorted);
    }
    assert ordered == MesList(sorted);
    SortedTabsKeys(meses, tabs, sorted);
  }

  /**
   * The keys of the tabs built from `meses`, once sorted by time, are a
   * rearrangement of `meses` in ascending (year, month) order.
   */
  lemma SortedTabsKeys(meses: seq<string>, tabs: seq<Tab>, sorted: seq<Tab>)
    requires forall k | k in meses :: ParseMonthKey(k).Some?
    requires |tabs| == |meses| && forall i | 0 <= i < |tabs| :: tabs[i] == TabOf(meses[i])
    requires multiset(sorted) == multiset(tabs) && SortedByTime(sorted)
    ensures multiset(MesList(sorted)) == multiset(meses)
    ensures forall k | k in MesList(sorted) :: ParseMonthKey(k).Some?
    ensures SortedKeys(MesList(sorted))
  {
    MesListPermutation(sorted, tabs);
    assert MesList(tabs) == meses;
    forall t | t in sorted ensures ParseMonthKey(t.mes).Some? && t == TabOf(t.mes) {
      assert t in multiset(tabs);
    }
    var ordered := MesList(sorted);
    forall p, q | 0 <= p < q < |ordered| ensures KeyNotAfter(ordered[p], ordered[q]) {
      SortedPairKeys(sorted, p, q);
    }
    forall k | k in ordered ensures ParseMonthKey(k).Some? {
      assert k in multiset(meses);
    }
  }

  /** Two tabs built from keys, in time order, have their keys in (year, month) order. */
  lemma SortedPairKeys(sorted: seq<Tab>, p: nat, q: nat)
    requires SortedByTime(sorted) && p < q < |sorted|
    requires forall t | t in sorted :: ParseMonthKey(t.mes).Some? && t == TabOf(t.mes)
    ensures KeyNotAfter(sorted[p].mes, sorted[q].mes)
  {
    assert TabTime(sorted[p]) <= TabTime(sorted[q]);
    assert sorted[p] in sorted && sorted[q] in sorted;
    TabTimeOrder(sorted[p], sorted[q]);
  }

  /** A key spelled the way the grouping spells it. */
  predicate Canonical(k: string) {
    ParseMonthKey(k).Some? && MonthKey(ParseMonthKey(k).value.month, ParseMonthKey(k).value.year) == k
  }

  /** Keys in chronological order. */
  predicate SortedKeys(ks: seq<string>) {
    Ascending(ks, KeyNotAfter)
  }

  /** Ascending under `le`: every earlier element is `le` every later one. */
  predicate Ascending<T>(s: seq<T>, le: (T, T) -> bool) {
    forall p, q | 0 <= p < q < |s| :: le(s[p], s[q])
  }

  /** A collection on which `le` is reflexive and antisymmetric has one ascending arrangement. */
  lemma {:induction false} AscendingArrangementUnique<T>(xs: seq<T>, ys: seq<T>, le: (T, T) -> bool)
    requires multiset(xs) == multiset(ys)
    requires forall a | a in xs :: le(a, a)
    requires forall a, b | a in xs && b in xs && le(a, b) && le(b, a) :: a == b
    requires Ascending(xs, le) && Ascending(ys, le)
    ensures xs == ys
    decreases |xs|
  {
    assert |ys| == |xs| by {
      assert |multiset(xs)| == |xs| && |multiset(ys)| == |ys|;
    }
    if xs != [] {
      var a, b := xs[0], ys[0];
      assert a in multiset(ys) && b in multiset(xs);
      var i :| 0 <= i < |ys| && ys[i] == a;
      var j :| 0 <= j < |xs| && xs[j] == b;
      assert le(b, a) by { if i > 0 { assert le(ys[0], ys[i]); } }
      assert le(a, b) by { if j > 0 { assert le(xs[0], xs[j]); } }
      assert a == b;
      HeadTail(xs);
      HeadTail(ys);
      Cancel(multiset(xs[1..]), multiset(ys[1..]), a);
      AscendingTail(xs, le);
      AscendingTail(ys, le);
      AscendingArrangementUnique(xs[1..], ys[1..], le);
    }
  }

  lemma AscendingTail<T>(s: seq<T>, le: (T, T) -> bool)
    requires s != [] && Ascending(s, le)
    ensures Ascending(s[1..], le) && forall k | k in s[1..] :: k in s
  {
    forall p, q | 0 <= p < q < |s| - 1 ensures le(s[1..][p], s[1..][q]) {
      assert s[1..][p] == s[p + 1] && s[1..][q] == s[q + 1];
    }
  }

  /** On keys spelled the way the grouping spells them, `KeyNotAfter` is reflexive and antisymmetric. */
  lemma KeyOrderIsPartialOrder(a: string, b: string)
    requires Canonical(a) && Canonical(b)
    ensures KeyNotAfter(a, a)
    ensures KeyNotAfter(a, b) && KeyNotAfter(b, a) ==> a == b
  {
  }

  /**
   * There is only one ascending arrangement of a collection of grouping
   * keys: the tab order does not depend on `hoje` or on the branch taken.
   */
  lemma SortedArrangementUnique(xs: seq<string>, ys: seq<string>)
    requires multiset(xs) == multiset(ys)
    requires forall k | k in xs :: Canonical(k)
    requires SortedKeys(xs) && SortedKeys(ys)
    ensures xs == ys
  {
    forall a, b | a in xs && b in xs ensures KeyNotAfter(a, a) && (KeyNotAfter(a, b) && KeyNotAfter(b, a) ==> a == b) {
      KeyOrderIsPartialOrder(a, b);
    }
    AscendingArrangementUnique(xs, ys, KeyNotAfter);
  }

  lemma KeyFacts(m: Month, y: nat)
    ensures Canonical(MonthKey(m, y)) && ParseMonthKey(MonthKey(m, y)) == Some(YearMonth(y, m))
  {
    ParseMonthKeyRoundTrip(m, y);
  }

  /** `KeyNotAfter` on two grouping keys is (year, month) order. */
  lemma KeyNotAfterOfKeys(m1: Month, y1: nat, m2: Month, y2: nat)
    ensures KeyNotAfter(MonthKey(m1, y1), MonthKey(m2, y2)) <==> y1 < y2 || (y1 == y2 && m1 <= m2)
  {
    ParseMonthKeyRoundTrip(m1, y1);
    ParseMonthKeyRoundTrip(m2, y2);
  }

  lemma FirstQuarterSorted(y: nat)
    ensures SortedKeys([MonthKey(1, y), MonthKey(2, y), MonthKey(3, y)])
  {
    var ks := [MonthKey(1, y), MonthKey(2, y), MonthKey(3, y)];
    KeyNotAfterOfKeys(1, y, 2, y);
    KeyNotAfterOfKeys(1, y, 3, y);
    KeyNotAfterOfKeys(2, y, 3, y);
    forall p, q | 0 <= p < q < 3 ensures KeyNotAfter(ks[p], ks[q]) {
    }
  }

  lemma FirstQuarterCanonical(y: nat)
    ensures forall k | k in [MonthKey(1, y), MonthKey(2, y), MonthKey(3, y)] :: Canonical(k)
  {
    KeyFacts(1, y);
    KeyFacts(2, y);
    KeyFacts(3, y);
  }

  /** Whatever `hoje` is, the tabs 03/y, 01/y, 02/y come out as 01/y, 02/y, 03/y. */
  lemma OrderingExample(y: nat, ordered: seq<string>)
    requires multiset(ordered) == multiset([MonthKey(3, y), MonthKey(1, y), MonthKey(2, y)])
    requires SortedKeys(ordered)
    ensures ordered == [MonthKey(1, y), MonthKey(2, y), MonthKey(3, y)]
  {
    var expected := [MonthKey(1, y), MonthKey(2, y), MonthKey(3, y)];
    assert multiset(expected) == multiset([MonthKey(3, y), MonthKey(1, y), MonthKey(2, y)]);
    FirstQuarterSorted(y);
    FirstQuarterCanonical(y);
    SortedArrangementUnique(expected, ordered);
  }
}
