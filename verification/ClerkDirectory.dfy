/**
 The Clerk directory's pagination loop, shared in shape by the member list and the user's
 organization list: pages are fetched by offset, invalid records are dropped by a partial map,
 and the loop stops on a total that counts the dropped records too. A record is given by what
 that map makes of it, so every list and every partial map is covered.
 */
module ClerkDirectory {
  import opened Basics

  const PAGE_LIMIT: nat := 100
  const U32_MAX: nat := 0xFFFF_FFFF

  /** The records that convert, in order. */
  function FilterMap<M>(items: seq<Option<M>>): (out: seq<M>)
    ensures |out| <= |items|
  {
    if items == [] then [] else FilterMap(items[..|items| - 1]) + Converted(items[|items| - 1])
  }

  function Converted<M>(m: Option<M>): seq<M> {
    match m
    case None => []
    case Some(value) => [value]
  }

  /** What the server sends for an offset. */
  function Page<R>(items: seq<R>, offset: nat): seq<R> {
    items[Min(offset, |items|)..Min(offset + PAGE_LIMIT, |items|)]
  }

  predicate Drops<M>(items: seq<Option<M>>) {
    exists i :: 0 <= i < |items| && items[i].None?
  }

  lemma FilterMapMore<M>(items: seq<Option<M>>, r: Option<M>)
    ensures FilterMap(items + [r]) == FilterMap(items) + Converted(r)
  {
    assert (items + [r])[..|items|] == items;
  }

  lemma {:induction false} FilterMapConcat<M>(a: seq<Option<M>>, b: seq<Option<M>>)
    ensures FilterMap(a + b) == FilterMap(a) + FilterMap(b)
  {
    if b == [] {
      assert a + b == a;
    } else {
      var front, last := b[..|b| - 1], b[|b| - 1];
      calc {
        FilterMap(a + b);
        { assert a + b == (a + front) + [last]; FilterMapMore(a + front, last); }
        FilterMap(a + front) + Converted(last);
        { FilterMapConcat(a, front); }
        FilterMap(a) + FilterMap(front) + Converted(last);
        { Regroup(FilterMap(a), FilterMap(front), Converted(last)); }
        FilterMap(a) + FilterMap(b);
      }
    }
  }

  /** Everything converts exactly when nothing is dropped. */
  lemma {:induction false} FullLengthIff<M>(items: seq<Option<M>>)
    ensures |FilterMap(items)| == |items| <==> !Drops(items)
  {
    if items != [] {
      var front := items[..|items| - 1];
      FullLengthIff(front);
      assert forall i :: 0 <= i < |front| ==> front[i] == items[i];
      assert items[|items| - 1].None? ==> Drops(items);
      if Drops(front) {
        var i :| 0 <= i < |front| && front[i].None?;
        assert items[i].None?;
      }
    }
  }

  /** `at` lists, in order, exactly the records that convert. */
  ghost predicate ListsConverted<M>(items: seq<Option<M>>, at: seq<nat>) {
    && (forall i, j :: 0 <= i < j < |at| ==> at[i] < at[j])
    && (forall n: nat :: n in at <==> n < |items| && items[n].Some?)
  }

  lemma ListsConvertedMore<M>(items: seq<Option<M>>, at: seq<nat>)
    requires items != [] && ListsConverted(items[..|items| - 1], at)
    ensures ListsConverted(items, at + if items[|items| - 1].Some? then [|items| - 1] else [])
  {
    var k := |items| - 1;
    var more := at + if items[k].Some? then [k] else [];
    assert forall i :: 0 <= i < |at| ==> at[i] in at;
    forall n: nat ensures n in more <==> n < |items| && items[n].Some? {
      assert n in more <==> n in at || (n == k && items[k].Some?);
    }
  }

  /** `out[i]` is the conversion of record `at[i]`. */
  ghost predicate Conversions<M>(items: seq<Option<M>>, at: seq<nat>, out: seq<M>) {
    |out| == |at| && forall i :: 0 <= i < |at| ==> at[i] < |items| && items[at[i]] == Some(out[i])
  }

  lemma ConversionsMore<M>(items: seq<Option<M>>, at: seq<nat>, out: seq<M>)
    requires items != [] && Conversions(items[..|items| - 1], at, out)
    ensures items[|items| - 1].Some? ==> Conversions(items, at + [|items| - 1], out + [items[|items| - 1].value])
    ensures Conversions(items, at, out)
  {
  }

  /** The result holds exactly the records that convert, converted, in their order. */
  lemma {:induction false} FilterMapIs<M>(items: seq<Option<M>>) returns (at: seq<nat>)
    ensures ListsConverted(items, at) && Conversions(items, at, FilterMap(items))
  {
    at := [];
    if items != [] {
      var k := |items| - 1;
      at := FilterMapIs(items[..k]);
      ListsConvertedMore(items, at);
      ConversionsMore(items, at, FilterMap(items[..k]));
      if items[k].Some? {
        at := at + [k];
      } else {
        assert at + [] == at && FilterMap(items[..k]) + [] == FilterMap(items[..k]);
      }
    }
  }

  lemma DropsMonotone<M>(items: seq<Option<M>>, i: nat, j: nat)
    requires i <= j <= |items| && Drops(items[..i])
    ensures Drops(items[..j])
  {
    var k :| 0 <= k < i && items[..i][k].None?;
    assert items[..j][k].None?;
  }

  /** What the loop returns: everything, except that without a total it trusts a first page that lost nothing. */
  ghost function Listed<M>(items: seq<Option<M>>, reportsTotal: bool): seq<M> {
    if !reportsTotal && !Drops(Page(items, 0)) then FilterMap(Page(items, 0)) else FilterMap(items)
  }

  /** The records of the pages before an offset. */
  function Before<R>(items: seq<R>, offset: nat): seq<R> {
    items[..Min(offset, |items|)]
  }

  /** The pages fetched so far, and one more. */
  lemma NextPage<M>(items: seq<Option<M>>, offset: nat)
    ensures FilterMap(Before(items, offset + PAGE_LIMIT)) ==
            FilterMap(Before(items, offset)) + FilterMap(Page(items, offset))
  {
    FilterMapConcat(Before(items, offset), Page(items, offset));
    BeforeMore(items, offset);
  }

  lemma BeforeMore<R>(items: seq<R>, offset: nat)
    ensures Before(items, offset + PAGE_LIMIT) == Before(items, offset) + Page(items, offset)
  {
  }

  /** The total the loop compares with: the reported one, or as if this page were the last. */
  function TotalCount<R>(items: seq<R>, offset: nat, reportsTotal: bool): nat {
    if reportsTotal then |items| else |Page(items, offset)| + offset
  }

  /** Once a record is dropped, the filtered length never catches up. */
  lemma StaysShort<M>(items: seq<Option<M>>, offset: nat)
    requires Drops(Page(items, 0)) && offset < |items|
    ensures |FilterMap(Before(items, offset + PAGE_LIMIT))| < |Page(items, offset)| + offset
  {
    assert Before(items, PAGE_LIMIT) == Page(items, 0);
    DropsMonotone(items, Min(PAGE_LIMIT, |items|), Min(offset + PAGE_LIMIT, |items|));
    FullLengthIff(Before(items, offset + PAGE_LIMIT));
  }

  /** The stop test, after the page at `offset`: what it says about the records so far. */
  lemma StopTest<M>(items: seq<Option<M>>, offset: nat, reportsTotal: bool)
    requires offset > 0 && !reportsTotal ==> Drops(Page(items, 0))
    ensures var out := FilterMap(Before(items, offset + PAGE_LIMIT));
            var stop := |out| >= TotalCount(items, offset, reportsTotal) || Page(items, offset) == [];
            && (stop ==> out == Listed(items, reportsTotal))
            && (!stop ==> offset < |items| && (!reportsTotal ==> Drops(Page(items, 0))))
  {
    var seen := Before(items, offset + PAGE_LIMIT);
    FullLengthIff(seen);
    if offset >= |items| || |seen| == |items| {
      assert seen == items;
    }
    if offset == 0 {
      assert seen == Page(items, 0);
    } else if offset < |items| && !reportsTotal {
      StaysShort(items, offset);
    }
  }

  /**
   The loop terminates on every list and every placement of dropped records. With the total
   reported it returns the order-preserving filter-map of the whole list, although it compares
   the filtered length with the unfiltered total. The offset is a `u32`.
   */
  method ListAll<M>(items: seq<Option<M>>, reportsTotal: bool) returns (out: seq<M>)
    requires |items| + PAGE_LIMIT <= U32_MAX
    ensures out == Listed(items, reportsTotal)
    ensures reportsTotal ==> out == FilterMap(items)
  {
    var offset := 0;
    out := [];
    while true
      invariant offset < |items| + PAGE_LIMIT
      invariant out == FilterMap(Before(items, offset))
      invariant offset > 0 && !reportsTotal ==> Drops(Page(items, 0))
      decreases |items| + PAGE_LIMIT - offset
    {
      var page := Page(items, offset);
      var totalCount := if reportsTotal then |items| else |page| + offset;
      NextPage(items, offset);
      StopTest(items, offset, reportsTotal);
      out := out + FilterMap(page);
      if |out| >= totalCount || |page| == 0 {
        break;
      }
      offset := offset + PAGE_LIMIT;
    }
  }

  /** Such a loss: 101 records that all convert, and no total; the last one is not listed. */
  lemma MissingTotalLosesRecords() returns (items: seq<Option<nat>>)
    ensures |items| == 101 && !Drops(items)
    ensures Listed(items, false) != FilterMap(items)
  {
    items := seq(PAGE_LIMIT + 1, i => Some(i));
    FullLengthIff(items);
    FullLengthIff(items[..PAGE_LIMIT]);
    FullLengthIff(items[PAGE_LIMIT..]);
    MissingTotalIff(items);
  }

  /**
   Without a reported total the result is complete exactly when the list fits on one page, the
   first page dropped a record, or nothing after it would convert.
   */
  lemma MissingTotalIff<M>(items: seq<Option<M>>)
    ensures Listed(items, false) == FilterMap(items) <==>
            || |items| <= PAGE_LIMIT
            || Drops(items[..PAGE_LIMIT])
            || FilterMap(items[PAGE_LIMIT..]) == []
  {
    if |items| <= PAGE_LIMIT {
      assert Page(items, 0) == items;
    } else {
      var first, later := items[..PAGE_LIMIT], items[PAGE_LIMIT..];
      assert items == first + later && Page(items, 0) == first;
      FilterMapConcat(first, later);
      SameOnlyIfEmpty(FilterMap(first), FilterMap(later));
    }
  }

  lemma SameOnlyIfEmpty<T>(a: seq<T>, b: seq<T>)
    ensures a == a + b <==> b == []
  {
    assert |a + b| == |a| + |b|;
  }
}
