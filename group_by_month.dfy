/**
 * `agruparPorMes`: buckets the records by the month of their due date under
 * keys `"MM/YYYY"`, skipping records without a usable date.
 *
 * The fold and its properties are stated for any key function `keyOf`
 * (`None` meaning "skip this record"); `KeyOf` is the one the dashboard
 * uses, and the lemmas at the end of the module specialise the general
 * ones to it.
 */
module GroupByMonth {
  import opened Wrappers
  import opened Calendar
  import opened MonthKeys
  import opened Records

  /** The grouping key of a record, or `None` when its date is missing or invalid. */
  function KeyOf(r: Subscription): (key: Option<string>)
    ensures key.Some? <==> r.data.At?
    ensures key.Some? ==>
      ParseMonthKey(key.value) == Some(YearMonth(r.data.instant.date.year, r.data.instant.date.month))
  {
    match r.data
    case At(t) =>
      ParseMonthKeyRoundTrip(t.date.month, t.date.year);
      Some(MonthKey(t.date.month, t.date.year))
    case _ => None
  }

  /** The records filed under `key`, in input order. */
  function Bucket<T>(rs: seq<T>, keyOf: T -> Option<string>, key: string): seq<T>
    decreases |rs|
  {
    if rs == [] then []
    else
      var last := rs[|rs| - 1];
      Bucket(rs[..|rs| - 1], keyOf, key) + (if keyOf(last) == Some(key) then [last] else [])
  }

  /** The keys of all records that have one. */
  function Keys<T>(rs: seq<T>, keyOf: T -> Option<string>): set<string> {
    set i | 0 <= i < |rs| && keyOf(rs[i]).Some? :: keyOf(rs[i]).value
  }

  /** The grouping, stated declaratively: one bucket per key that some record has. */
  function Grouped<T>(rs: seq<T>, keyOf: T -> Option<string>): map<string, seq<T>> {
    map key | key in Keys(rs, keyOf) :: Bucket(rs, keyOf, key)
  }

  /**
   * `agruparPorMes`: the `reduce` over the records, filing each dated
   * record under its `MM/YYYY` key.
   */
  method AgruparPorMes(assinaturas: seq<Subscription>) returns (acc: map<string, seq<Subscription>>)
    ensures acc == Grouped(assinaturas, KeyOf)
  {
    acc := GroupBy(assinaturas, KeyOf);
  }

  /**
   * The `reduce` with its dictionary accumulator: a record without a key
   * is skipped, and a missing bucket is created right before the record
   * is pushed onto it.
   */
  method GroupBy<T>(rs: seq<T>, keyOf: T -> Option<string>) returns (acc: map<string, seq<T>>)
    ensures acc == Grouped(rs, keyOf)
  {
    acc := map[];
    for i := 0 to |rs|
      invariant acc == Grouped(rs[..i], keyOf)
    {
      var item := rs[i];
      ghost var before := acc;
      var chave := keyOf(item);
      if chave.Some? {
        if chave.value !in acc {
          acc := acc[chave.value := []];
        }
        acc := acc[chave.value := acc[chave.value] + [item]];
        assert acc == before[chave.value := (if chave.value in before then before[chave.value] else []) + [item]];
        GroupedSnocKeyed(rs[..i], keyOf, item, chave.value);
      } else {
        GroupedSnocUnkeyed(rs[..i], keyOf, item);
      }
      assert rs[..i + 1] == rs[..i] + [item];
    }
    assert rs[..|rs|] == rs;
  }

  lemma GroupedSnocKeyed<T>(rs: seq<T>, keyOf: T -> Option<string>, r: T, k: string)
    requires keyOf(r) == Some(k)
    ensures Grouped(rs + [r], keyOf) ==
      Grouped(rs, keyOf)[k := (if k in Grouped(rs, keyOf) then Grouped(rs, keyOf)[k] else []) + [r]]
  {
    var g, g' := Grouped(rs, keyOf), Grouped(rs + [r], keyOf);
    GroupedSnocBuckets(rs, keyOf, r);
    if k !in g {
      BucketEmptyIff(rs, keyOf, k);
    }
    var expected := g[k := (if k in g then g[k] else []) + [r]];
    assert g'.Keys == expected.Keys;
    forall key | key in g' ensures g'[key] == expected[key] {
      if key != k {
        assert Bucket(rs, keyOf, key) + [] == Bucket(rs, keyOf, key);
      }
    }
  }

  lemma GroupedSnocUnkeyed<T>(rs: seq<T>, keyOf: T -> Option<string>, r: T)
    requires keyOf(r) == None
    ensures Grouped(rs + [r], keyOf) == Grouped(rs, keyOf)
  {
    var g, g' := Grouped(rs, keyOf), Grouped(rs + [r], keyOf);
    GroupedSnocBuckets(rs, keyOf, r);
    assert g'.Keys == g.Keys;
    forall key | key in g' ensures g'[key] == g[key] {
      assert Bucket(rs, keyOf, key) + [] == Bucket(rs, keyOf, key);
    }
  }

  /** After one more record, the keys grow by its key and every bucket by the record if it is its key. */
  lemma GroupedSnocBuckets<T>(rs: seq<T>, keyOf: T -> Option<string>, r: T)
    ensures Keys(rs + [r], keyOf) == Keys(rs, keyOf) + (if keyOf(r).Some? then {keyOf(r).value} else {})
    ensures forall key | key in Grouped(rs + [r], keyOf) ::
      Grouped(rs + [r], keyOf)[key] == Bucket(rs, keyOf, key) + (if keyOf(r) == Some(key) then [r] else [])
  {
    KeysSnoc(rs, keyOf, r);
    forall key | key in Grouped(rs + [r], keyOf)
      ensures Grouped(rs + [r], keyOf)[key] == Bucket(rs, keyOf, key) + (if keyOf(r) == Some(key) then [r] else [])
    {
      BucketSnoc(rs, keyOf, r, key);
    }
  }

  lemma BucketSnoc<T>(rs: seq<T>, keyOf: T -> Option<string>, r: T, key: string)
    ensures Bucket(rs + [r], keyOf, key) == Bucket(rs, keyOf, key) + (if keyOf(r) == Some(key) then [r] else [])
  {
    assert (rs + [r])[..|rs|] == rs;
  }

  lemma KeysSnoc<T>(rs: seq<T>, keyOf: T -> Option<string>, r: T)
    ensures Keys(rs + [r], keyOf) == Keys(rs, keyOf) + (if keyOf(r).Some? then {keyOf(r).value} else {})
  {
    var s := rs + [r];
    var lhs, rhs := Keys(s, keyOf), Keys(rs, keyOf) + (if keyOf(r).Some? then {keyOf(r).value} else {});
    forall k | k in lhs ensures k in rhs {
      var i :| 0 <= i < |s| && keyOf(s[i]) == Some(k);
      if i < |rs| { assert s[i] == rs[i]; }
    }
    forall k | k in rhs ensures k in lhs {
      if k in Keys(rs, keyOf) {
        var i :| 0 <= i < |rs| && keyOf(rs[i]) == Some(k);
        assert s[i] == rs[i];
      } else {
        assert s[|rs|] == r;
      }
    }
  }

  /** A record is in a bucket exactly when it is an input record with that key. */
  lemma {:induction false} BucketMembership<T>(rs: seq<T>, keyOf: T -> Option<string>, key: string, r: T)
    ensures r in Bucket(rs, keyOf, key) <==> r in rs && keyOf(r) == Some(key)
    decreases |rs|
  {
    if rs != [] {
      var init, last := rs[..|rs| - 1], rs[|rs| - 1];
      assert rs == init + [last];
      BucketMembership(init, keyOf, key, r);
    }
  }

  lemma {:induction false} BucketEmptyIff<T>(rs: seq<T>, keyOf: T -> Option<string>, key: string)
    ensures Bucket(rs, keyOf, key) == [] <==> key !in Keys(rs, keyOf)
    decreases |rs|
  {
    if rs != [] {
      var init, last := rs[..|rs| - 1], rs[|rs| - 1];
      assert rs == init + [last];
      BucketEmptyIff(init, keyOf, key);
      KeysSnoc(init, keyOf, last);
    }
  }

  /** One step of the fold: the grouping of `rs + [r]` is the accumulator update. */
  lemma GroupedSnoc<T>(rs: seq<T>, keyOf: T -> Option<string>, r: T)
    ensures Grouped(rs + [r], keyOf) ==
      match keyOf(r)
      case None => Grouped(rs, keyOf)
      case Some(k) =>
        Grouped(rs, keyOf)[k := (if k in Grouped(rs, keyOf) then Grouped(rs, keyOf)[k] else []) + [r]]
  {
    match keyOf(r)
    case None => GroupedSnocUnkeyed(rs, keyOf, r);
    case Some(k) => GroupedSnocKeyed(rs, keyOf, r, k);
  }

  /** An empty input gives an empty grouping. */
  lemma GroupedEmpty<T>(keyOf: T -> Option<string>)
    ensures Grouped([], keyOf) == map[]
  {
    assert Keys([], keyOf) == {};
  }

  /** The input positions of the records filed under `key`, ascending. */
  function Positions<T>(rs: seq<T>, keyOf: T -> Option<string>, key: string): (ps: seq<nat>)
    ensures forall j | 0 <= j < |ps| :: ps[j] < |rs|
    decreases |rs|
  {
    if rs == [] then []
    else
      Positions(rs[..|rs| - 1], keyOf, key) + (if keyOf(rs[|rs| - 1]) == Some(key) then [|rs| - 1] else [])
  }

  /**
   * A bucket is the input restricted to the positions with its key, in
   * increasing position order: input order is kept, and nothing is
   * duplicated or invented.
   */
  lemma {:induction false} BucketIsOrderedSelection<T>(rs: seq<T>, keyOf: T -> Option<string>, key: string)
    ensures var b, ps := Bucket(rs, keyOf, key), Positions(rs, keyOf, key);
            |b| == |ps|
            && (forall j | 0 <= j < |b| :: b[j] == rs[ps[j]])
            && (forall j1, j2 | 0 <= j1 < j2 < |ps| :: ps[j1] < ps[j2])
            && (forall i | 0 <= i < |rs| :: i in ps <==> keyOf(rs[i]) == Some(key))
    decreases |rs|
  {
    if rs != [] {
      var init, last := rs[..|rs| - 1], rs[|rs| - 1];
      BucketIsOrderedSelection(init, keyOf, key);
      var b, ps := Bucket(rs, keyOf, key), Positions(rs, keyOf, key);
      assert forall i | 0 <= i < |init| :: rs[i] == init[i];
      forall i | 0 <= i < |rs| ensures i in ps <==> keyOf(rs[i]) == Some(key) {
        if i < |init| {
          assert i in Positions(init, keyOf, key) <==> keyOf(init[i]) == Some(key);
        }
      }
    }
  }

  lemma {:induction false} BucketAll<T>(rs: seq<T>, keyOf: T -> Option<string>, key: string)
    requires forall i | 0 <= i < |rs| :: keyOf(rs[i]) == Some(key)
    ensures Bucket(rs, keyOf, key) == rs
    decreases |rs|
  {
    if rs != [] {
      BucketAll(rs[..|rs| - 1], keyOf, key);
    }
  }

  /** Records that all share one key, in any order, form one group holding all of them. */
  lemma SameKeyOneGroup<T>(rs: seq<T>, keyOf: T -> Option<string>, key: string)
    requires rs != []
    requires forall i | 0 <= i < |rs| :: keyOf(rs[i]) == Some(key)
    ensures Grouped(rs, keyOf) == map[key := rs]
  {
    BucketAll(rs, keyOf, key);
    assert Keys(rs, keyOf) == {key} by {
      assert keyOf(rs[0]) == Some(key);
    }
    var g := Grouped(rs, keyOf);
    assert g.Keys == {key} && g[key] == rs;
  }

  /** The number of records that have a key. */
  function CountKeyed<T>(rs: seq<T>, keyOf: T -> Option<string>): nat
    decreases |rs|
  {
    if rs == [] then 0
    else CountKeyed(rs[..|rs| - 1], keyOf) + (if keyOf(rs[|rs| - 1]).Some? then 1 else 0)
  }

  /** The sum of the bucket sizes of a grouping. */
  ghost function TotalSize<T>(g: map<string, seq<T>>): nat
    decreases |g.Keys|
  {
    if g == map[] then 0
    else
      var k :| k in g;
      |g[k]| + TotalSize(g - {k})
  }

  /** The sum does not depend on which key is taken out first. */
  lemma {:induction false} TotalSizeRemove<T>(g: map<string, seq<T>>, k: string)
    requires k in g
    ensures TotalSize(g) == |g[k]| + TotalSize(g - {k})
    decreases |g.Keys|
  {
    var k' :| k' in g && TotalSize(g) == |g[k']| + TotalSize(g - {k'});
    if k' != k {
      var g1 := g - {k'};
      var g2 := g - {k};
      assert |g1.Keys| < |g.Keys| by { assert g1.Keys < g.Keys; }
      assert |g2.Keys| < |g.Keys| by { assert g2.Keys < g.Keys; }
      TotalSizeRemove(g1, k);
      TotalSizeRemove(g2, k');
      assert g1 - {k} == g2 - {k'};
    }
  }

  lemma TotalSizeUpdate<T>(g: map<string, seq<T>>, k: string, v: seq<T>)
    ensures TotalSize(g[k := v]) == TotalSize(g) - (if k in g then |g[k]| else 0) + |v|
  {
    TotalSizeRemove(g[k := v], k);
    assert g[k := v] - {k} == g - {k};
    if k in g {
      TotalSizeRemove(g, k);
    } else {
      assert g - {k} == g;
    }
  }

  /** The bucket sizes add up to the number of records that have a key. */
  lemma {:induction false} GroupedTotal<T>(rs: seq<T>, keyOf: T -> Option<string>)
    ensures TotalSize(Grouped(rs, keyOf)) == CountKeyed(rs, keyOf)
    decreases |rs|
  {
    if rs == [] {
      GroupedEmpty(keyOf);
    } else {
      var init, last := rs[..|rs| - 1], rs[|rs| - 1];
      assert rs == init + [last];
      GroupedTotal(init, keyOf);
      GroupedSnoc(init, keyOf, last);
      match keyOf(last)
      case None =>
      case Some(k) =>
        var g := Grouped(init, keyOf);
        TotalSizeUpdate(g, k, (if k in g then g[k] else []) + [last]);
    }
  }

  // The properties of the dashboard's grouping.

  /** A record with a missing or invalid date appears in no group. */
  lemma UndatedInNoGroup(rs: seq<Subscription>, r: Subscription)
    requires !r.data.At?
    ensures forall key | key in Grouped(rs, KeyOf) :: r !in Grouped(rs, KeyOf)[key]
  {
    forall key | key in Grouped(rs, KeyOf) ensures r !in Grouped(rs, KeyOf)[key] {
      BucketMembership(rs, KeyOf, key, r);
    }
  }

  /**
   * A dated input record appears in exactly one group, the one keyed by
   * the month and year of its due date.
   */
  lemma DatedInExactlyOneGroup(rs: seq<Subscription>, r: Subscription)
    requires r in rs && r.data.At?
    ensures var key := MonthKey(r.data.instant.date.month, r.data.instant.date.year);
            key in Grouped(rs, KeyOf) && r in Grouped(rs, KeyOf)[key]
            && forall other | other in Grouped(rs, KeyOf) && r in Grouped(rs, KeyOf)[other] :: other == key
  {
    var g := Grouped(rs, KeyOf);
    var key := KeyOf(r).value;
    var i :| 0 <= i < |rs| && rs[i] == r;
    assert key in Keys(rs, KeyOf);
    BucketMembership(rs, KeyOf, key, r);
    forall other | other in g && r in g[other] ensures other == key {
      BucketMembership(rs, KeyOf, other, r);
    }
  }

  /** Every member of a group is an input record whose due date lies in that group's month. */
  lemma GroupMembersBelong(rs: seq<Subscription>, key: string, r: Subscription)
    requires key in Grouped(rs, KeyOf) && r in Grouped(rs, KeyOf)[key]
    ensures r in rs && r.data.At?
    ensures key == MonthKey(r.data.instant.date.month, r.data.instant.date.year)
  {
    BucketMembership(rs, KeyOf, key, r);
  }

  /** Every key reads back as a month 1 to 12 and a year, and is spelled canonically. */
  lemma GroupKeysWellFormed(rs: seq<Subscription>, key: string)
    requires key in Grouped(rs, KeyOf)
    ensures ParseMonthKey(key).Some?
    ensures MonthKey(ParseMonthKey(key).value.month, ParseMonthKey(key).value.year) == key
  {
    var i :| 0 <= i < |rs| && KeyOf(rs[i]) == Some(key);
    var d := rs[i].data.instant.date;
    ParseMonthKeyRoundTrip(d.month, d.year);
  }

  /** No group is empty. */
  lemma GroupsNonEmpty(rs: seq<Subscription>, key: string)
    requires key in Grouped(rs, KeyOf)
    ensures |Grouped(rs, KeyOf)[key]| > 0
  {
    BucketEmptyIff(rs, KeyOf, key);
  }
}
