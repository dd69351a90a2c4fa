/** The `filteredItems` expression of the gallery: the visible subset of the
    items for the selected category filter. */
module CategoryFilter {
  import opened Catalog

  /** The items filed under category `c`, in their original order (the
      `items.filter(item => item.category === filter)` branch). */
  function KeepCategory(items: seq<Item>, c: string): (r: seq<Item>)
    ensures |r| <= |items|
    ensures forall x :: x in r ==> x in items && x.category == c
  {
    if items == [] then []
    else (if items[0].category == c then [items[0]] else []) + KeepCategory(items[1..], c)
  }

  /** The gallery's visible items for the selected filter: "All" shows the whole
      list as it is, any other filter shows only the items filed under it. */
  function FilterBy(items: seq<Item>, filter: string): (r: seq<Item>)
    ensures filter == AllLabel ==> r == items
    ensures filter != AllLabel ==> forall x :: x in r ==> x.category == filter
    ensures forall x :: x in r ==> x in items
  {
    if filter == AllLabel then items else KeepCategory(items, filter)
  }

  /** Filtering a concatenation filters each part: the filter never reorders items. */
  lemma {:induction false} KeepCategoryAppend(a: seq<Item>, b: seq<Item>, c: string)
    ensures KeepCategory(a + b, c) == KeepCategory(a, c) + KeepCategory(b, c)
  {
    if a == [] {
      assert a + b == b;
    } else {
      assert (a + b)[0] == a[0];
      assert (a + b)[1..] == a[1..] + b;
      KeepCategoryAppend(a[1..], b, c);
    }
  }

  /** Every item filed under `c` is kept, as many times as it occurs, and no other item is. */
  lemma {:induction false} KeepCategoryComplete(items: seq<Item>, c: string)
    ensures forall x :: multiset(KeepCategory(items, c))[x]
                          == if x.category == c then multiset(items)[x] else 0
  {
    if items != [] {
      KeepCategoryComplete(items[1..], c);
      assert items == [items[0]] + items[1..];
      assert multiset(items) == multiset{items[0]} + multiset(items[1..]);
    }
  }

  /** The result is exactly the items at the matching positions of the input,
      taken in increasing position order: `pos` lists those positions. */
  lemma {:induction false} KeepCategoryPositions(items: seq<Item>, c: string) returns (pos: seq<nat>)
    ensures |pos| == |KeepCategory(items, c)|
    ensures forall j :: 0 <= j < |pos| ==> pos[j] < |items| && KeepCategory(items, c)[j] == items[pos[j]]
    ensures forall j, k :: 0 <= j < k < |pos| ==> pos[j] < pos[k]
    ensures forall i :: 0 <= i < |items| ==> (i in pos <==> items[i].category == c)
  {
    if items == [] {
      pos := [];
      return;
    }
    var x, tail := items[0], items[1..];
    assert items == [x] + tail;
    var rest := KeepCategoryPositions(tail, c);
    var shifted := Shift(rest);
    var lead: seq<nat> := if x.category == c then [0] else [];
    pos := lead + shifted;
    StartIncreasing(lead, shifted);
    ConsPositionsAgree(x, tail, c, rest, shifted, lead);
    ConsPositionsMembers(x, tail, c, rest, shifted, lead);
  }

  /** Step case of KeepCategoryPositions: the positions select the right items. */
  lemma ConsPositionsAgree(x: Item, tail: seq<Item>, c: string, rest: seq<nat>, shifted: seq<nat>, lead: seq<nat>)
    requires |rest| == |KeepCategory(tail, c)|
    requires forall j :: 0 <= j < |rest| ==> rest[j] < |tail| && KeepCategory(tail, c)[j] == tail[rest[j]]
    requires |shifted| == |rest| && forall j :: 0 <= j < |rest| ==> shifted[j] == rest[j] + 1
    requires lead == if x.category == c then [0] else []
    ensures |lead + shifted| == |KeepCategory([x] + tail, c)|
    ensures forall j :: 0 <= j < |lead + shifted| ==>
      (lead + shifted)[j] < |[x] + tail| && KeepCategory([x] + tail, c)[j] == ([x] + tail)[(lead + shifted)[j]]
  {
    var items, pos := [x] + tail, lead + shifted;
    assert items[0] == x && items[1..] == tail;
    var head := if x.category == c then [x] else [];
    assert KeepCategory(items, c) == head + KeepCategory(tail, c);
    forall j | 0 <= j < |pos|
      ensures pos[j] < |items| && KeepCategory(items, c)[j] == items[pos[j]]
    {
      if j >= |lead| {
        var m := j - |lead|;
        assert pos[j] == shifted[m] == rest[m] + 1;
        assert KeepCategory(items, c)[j] == KeepCategory(tail, c)[m] == tail[rest[m]];
      }
    }
  }

  /** Step case of KeepCategoryPositions: exactly the matching positions are listed. */
  lemma ConsPositionsMembers(x: Item, tail: seq<Item>, c: string, rest: seq<nat>, shifted: seq<nat>, lead: seq<nat>)
    requires forall i :: 0 <= i < |tail| ==> (i in rest <==> tail[i].category == c)
    requires forall i: nat :: i in shifted <==> i > 0 && i - 1 in rest
    requires lead == if x.category == c then [0] else []
    ensures forall i :: 0 <= i < |[x] + tail| ==> (i in lead + shifted <==> ([x] + tail)[i].category == c)
  {
    var items := [x] + tail;
    forall i | 0 <= i < |items|
      ensures i in lead + shifted <==> items[i].category == c
    {
      if i > 0 {
        assert items[i] == tail[i - 1];
        assert i in lead + shifted <==> i in shifted;
      } else {
        assert 0 !in shifted;
      }
    }
  }

  /** Position 0 in front of later, increasing positions keeps them increasing. */
  lemma StartIncreasing(lead: seq<nat>, shifted: seq<nat>)
    requires lead == [] || lead == [0]
    requires forall j :: 0 <= j < |shifted| ==> 0 < shifted[j]
    requires forall j, k :: 0 <= j < k < |shifted| ==> shifted[j] < shifted[k]
    ensures forall j, k :: 0 <= j < k < |lead + shifted| ==> (lead + shifted)[j] < (lead + shifted)[k]
  {
    var pos := lead + shifted;
    forall j, k | 0 <= j < k < |pos|
      ensures pos[j] < pos[k]
    {
      assert pos[k] == shifted[k - |lead|];
      if j >= |lead| {
        assert pos[j] == shifted[j - |lead|];
      }
    }
  }

  /** Every position moved one place to the right (past a removed head). */
  lemma {:induction false} Shift(rest: seq<nat>) returns (shifted: seq<nat>)
    requires forall j, k :: 0 <= j < k < |rest| ==> rest[j] < rest[k]
    ensures |shifted| == |rest|
    ensures forall j :: 0 <= j < |rest| ==> shifted[j] == rest[j] + 1
    ensures forall j :: 0 <= j < |shifted| ==> 0 < shifted[j]
    ensures forall j, k :: 0 <= j < k < |shifted| ==> shifted[j] < shifted[k]
    ensures forall i: nat :: i in shifted <==> i > 0 && i - 1 in rest
  {
    shifted := seq(|rest|, j requires 0 <= j < |rest| => rest[j] + 1);
    forall i: nat
      ensures i in shifted <==> i > 0 && i - 1 in rest
    {
      if i in shifted {
        var j :| 0 <= j < |shifted| && shifted[j] == i;
      }
      if i > 0 && i - 1 in rest {
        var j :| 0 <= j < |rest| && rest[j] == i - 1;
        assert shifted[j] == i;
      }
    }
  }

  lemma {:induction false} KeepCategoryIdempotent(items: seq<Item>, c: string)
    ensures KeepCategory(KeepCategory(items, c), c) == KeepCategory(items, c)
  {
    if items != [] {
      var x, tail := items[0], KeepCategory(items[1..], c);
      KeepCategoryIdempotent(items[1..], c);
      if x.category == c {
        assert KeepCategory(items, c) == [x] + tail;
        KeepCategoryAppend([x], tail, c);
        assert [x][1..] == [];
        assert KeepCategory([x], c) == [x] + KeepCategory([], c);
      } else {
        assert KeepCategory(items, c) == [] + tail == tail;
      }
    }
  }

  /** For a label other than "All", every item filed under it is shown. */
  lemma FilterComplete(items: seq<Item>, filter: string)
    requires filter != AllLabel
    ensures forall x :: x in items && x.category == filter ==> x in FilterBy(items, filter)
  {
    KeepCategoryComplete(items, filter);
    forall x | x in items && x.category == filter
      ensures x in FilterBy(items, filter)
    {
      assert multiset(items)[x] > 0;
    }
  }

  /** Filtering the visible list again by the same filter changes nothing. */
  lemma FilterIdempotent(items: seq<Item>, filter: string)
    ensures FilterBy(FilterBy(items, filter), filter) == FilterBy(items, filter)
  {
    if filter != AllLabel {
      KeepCategoryIdempotent(items, filter);
    }
  }

  /** A filter other than "All" shows an empty grid exactly when no item is filed
      under it; an unknown filter is not an error. */
  lemma {:induction false} FilterEmptyIff(items: seq<Item>, filter: string)
    requires filter != AllLabel
    ensures FilterBy(items, filter) == [] <==> forall x :: x in items ==> x.category != filter
  {
    if items != [] {
      FilterEmptyIff(items[1..], filter);
      assert forall x :: x in items ==> x == items[0] || x in items[1..];
    }
  }

  /** The number of cards shown, summed over the filter buttons `labels`. */
  function TotalShown(items: seq<Item>, labels: seq<string>): nat {
    if labels == [] then 0 else |FilterBy(items, labels[0])| + TotalShown(items, labels[1..])
  }

  /** How many of `labels` equal `c`. */
  function Occurrences(c: string, labels: seq<string>): nat {
    if labels == [] then 0 else (if labels[0] == c then 1 else 0) + Occurrences(c, labels[1..])
  }

  lemma {:induction false} OccurrencesOfDistinct(c: string, labels: seq<string>)
    requires Distinct(labels)
    ensures Occurrences(c, labels) == if c in labels then 1 else 0
  {
    if labels != [] {
      OccurrencesOfDistinct(c, labels[1..]);
      if labels[0] == c {
        assert c !in labels[1..] by {
          forall k | 0 <= k < |labels[1..]|
            ensures labels[1..][k] != c
          {
            assert labels[1..][k] == labels[k + 1];
          }
        }
      }
    }
  }

  lemma {:induction false} TotalShownCons(x: Item, rest: seq<Item>, labels: seq<string>)
    requires AllLabel !in labels
    ensures TotalShown([x] + rest, labels) == Occurrences(x.category, labels) + TotalShown(rest, labels)
  {
    if labels != [] {
      TotalShownCons(x, rest, labels[1..]);
      assert ([x] + rest)[1..] == rest;
    }
  }

  /** With well-formed data, the buttons other than "All" partition the items:
      every item appears under exactly one of them. */
  lemma {:induction false} CategoriesPartitionItems(items: seq<Item>, cats: seq<string>)
    requires WellFormed(items, cats)
    ensures TotalShown(items, cats[1..]) == |items|
  {
    var labels := cats[1..];
    assert Distinct(labels) by {
      forall i, j | 0 <= i < j < |labels|
        ensures labels[i] != labels[j]
      {
        assert labels[i] == cats[i + 1] && labels[j] == cats[j + 1];
      }
    }
    assert AllLabel !in labels by {
      forall k | 0 <= k < |labels|
        ensures labels[k] != AllLabel
      {
        assert labels[k] == cats[k + 1];
      }
    }
    PartitionInduction(items, labels);
  }

  /** With well-formed data, each item is shown under exactly one of the
      buttons other than "All". */
  lemma ItemUnderExactlyOneButton(items: seq<Item>, cats: seq<string>, x: Item)
    requires WellFormed(items, cats) && x in items
    ensures exists k :: 1 <= k < |cats| && x in FilterBy(items, cats[k])
    ensures forall k, m :: 1 <= k < m < |cats| ==> !(x in FilterBy(items, cats[k]) && x in FilterBy(items, cats[m]))
  {
    var j :| 0 <= j < |cats[1..]| && cats[1..][j] == x.category;
    assert cats[j + 1] == x.category;
    FilterComplete(items, cats[j + 1]);
    forall k, m | 1 <= k < m < |cats|
      ensures !(x in FilterBy(items, cats[k]) && x in FilterBy(items, cats[m]))
    {
      if x in FilterBy(items, cats[k]) {
        assert cats[k] != cats[0] && cats[m] != cats[0] && cats[k] != cats[m];
        assert x.category != cats[m];
      }
    }
  }

  lemma {:induction false} PartitionInduction(items: seq<Item>, labels: seq<string>)
    requires Distinct(labels) && AllLabel !in labels
    requires forall x :: x in items ==> x.category in labels
    ensures TotalShown(items, labels) == |items|
  {
    if items == [] {
      EmptyShowsNothing(labels);
    } else {
      var rest := items[1..];
      assert items == [items[0]] + rest;
      assert forall x :: x in rest ==> x in items;
      PartitionInduction(rest, labels);
      TotalShownCons(items[0], rest, labels);
      OccurrencesOfDistinct(items[0].category, labels);
    }
  }

  lemma {:induction false} EmptyShowsNothing(labels: seq<string>)
    ensures TotalShown([], labels) == 0
  {
    if labels != [] {
      EmptyShowsNothing(labels[1..]);
    }
  }

  /** In the shipped data no filter button leads to an empty grid. */
  lemma NoEmptyCategory(k: nat)
    requires k < |Categories|
    ensures FilterBy(PortfolioItems, Categories[k]) != []
  {
    var c := Categories[k];
    if c != AllLabel {
      var sample :=
        if c == "Sanjhi" then 4 else if c == "Islamic Geometry" then 5
        else if c == "Architecture" then 0 else if c == "Miniatures" then 7
        else if c == "Mechanical Models" then 3 else 1;
      assert PortfolioItems[sample].category == c;
      FilterEmptyIff(PortfolioItems, c);
    }
  }
}
