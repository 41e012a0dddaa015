/** The three ordering policies of a descriptor and the order in which each one emits the items. */
module ModuleInfoOrdering {
  import opened Sorting
  import opened ModuleInfoItem

  /** `NATURAL`, `NATURAL_PRESERVE_COMMENTS` and `SORTED`. The precedence of kinds under `SORTED` is a
      parameter: the kind listed first is emitted first, unlisted kinds come last. */
  datatype Ordering = Natural | NaturalPreserveComments | Sorted(kindOrder: seq<Kind>)

  /** Only `NATURAL` drops the precomments. */
  predicate KeepsComments(o: Ordering) {
    !o.Natural?
  }

  /** Position of `k` in the precedence list, or the list's length when it is not listed. */
  function Rank(order: seq<Kind>, k: Kind): (r: nat)
    ensures r <= |order|
    ensures r < |order| ==> order[r] == k
    ensures forall j :: 0 <= j < r ==> order[j] != k
  {
    if |order| == 0 then 0
    else if order[0] == k then 0
    else 1 + Rank(order[1..], k)
  }

  /** Sorted order of items: by kind precedence, then by target. */
  predicate ItemLe(order: seq<Kind>, a: Item, b: Item) {
    Rank(order, a.kind) < Rank(order, b.kind)
    || (Rank(order, a.kind) == Rank(order, b.kind) && StrLe(a.target, b.target))
  }

  function ItemOrder(order: seq<Kind>): (Item, Item) -> bool {
    (a, b) => ItemLe(order, a, b)
  }

  lemma ItemOrderTotal(order: seq<Kind>)
    ensures Total(ItemOrder(order))
  {
    forall a, b
      ensures ItemLe(order, a, b) || ItemLe(order, b, a)
    {
      StrLeTotalAt(a.target, b.target);
    }
  }

  lemma ItemOrderTransitive(order: seq<Kind>)
    ensures Transitive(ItemOrder(order))
  {
    forall a, b, c | ItemLe(order, a, b) && ItemLe(order, b, c)
      ensures ItemLe(order, a, c)
    {
      if Rank(order, a.kind) == Rank(order, b.kind) == Rank(order, c.kind) {
        StrLeTransitiveAt(a.target, b.target, c.target);
      }
    }
  }

  /** Under `SORTED` the names after `to` of an exports or opens clause are sorted too. */
  function WithSortedQualifiers(it: Item): Item {
    if it.kind == Exports || it.kind == Opens then it.(withOrTo := SortStrings(it.withOrTo)) else it
  }

  function WithoutComments(it: Item): Item {
    it.(precomments := [])
  }

  /** The items in the order, and with the comments and qualifier order, that the policy emits. */
  function EmittedItems(items: seq<Item>, o: Ordering): (r: seq<Item>)
    ensures |r| == |items|
    ensures o.Natural? ==> forall i :: 0 <= i < |r| ==> r[i] == WithoutComments(items[i])
    ensures o.NaturalPreserveComments? ==> r == items
    ensures o.Sorted? ==> multiset(r) == multiset(seq(|items|, i requires 0 <= i < |items| => WithSortedQualifiers(items[i])))
    ensures o.Sorted? ==> Ordered(r, ItemOrder(o.kindOrder))
  {
    match o
    case Natural => seq(|items|, i requires 0 <= i < |items| => WithoutComments(items[i]))
    case NaturalPreserveComments => items
    case Sorted(order) =>
      ItemOrderTotal(order);
      var prepared := seq(|items|, i requires 0 <= i < |items| => WithSortedQualifiers(items[i]));
      SortOrdered(prepared, ItemOrder(order));
      SortPermutes(prepared, ItemOrder(order));
      Sort(prepared, ItemOrder(order))
  }

  /** Under `SORTED`, items are grouped by kind precedence and sorted by target inside a group, and every
      exports or opens clause lists its `to` names in sorted order. */
  lemma SortedEmission(items: seq<Item>, order: seq<Kind>, i: int, j: int)
    requires 0 <= i < j < |items|
    ensures var r := EmittedItems(items, Sorted(order));
      && Rank(order, r[i].kind) <= Rank(order, r[j].kind)
      && (r[i].kind == r[j].kind ==> StrLe(r[i].target, r[j].target))
      && (r[i].kind == Exports || r[i].kind == Opens ==> Ordered(r[i].withOrTo, StrLe))
  {
    var r := EmittedItems(items, Sorted(order));
    ItemOrderTransitive(order);
    OrderedPairwise(r, ItemOrder(order), i, j);
    var prepared := seq(|items|, k requires 0 <= k < |items| => WithSortedQualifiers(items[k]));
    assert r[i] in multiset(prepared);
    var k :| 0 <= k < |prepared| && prepared[k] == r[i];
  }

  /** Every item `SORTED` emits already lists its `to` names in sorted order. */
  lemma EmittedQualifiersSorted(items: seq<Item>, order: seq<Kind>, i: int)
    requires 0 <= i < |items|
    ensures var r := EmittedItems(items, Sorted(order)); WithSortedQualifiers(r[i]) == r[i]
  {
    var r := EmittedItems(items, Sorted(order));
    var src := seq(|items|, k requires 0 <= k < |items| => WithSortedQualifiers(items[k]));
    assert r[i] in multiset(src);
    var k :| 0 <= k < |src| && src[k] == r[i];
    if r[i].kind == Exports || r[i].kind == Opens {
      SortOfOrdered(r[i].withOrTo, StrLe);
    }
  }

  /** Emitting already emitted items changes nothing: every policy is idempotent. */
  lemma EmittedIdempotent(items: seq<Item>, o: Ordering)
    ensures EmittedItems(EmittedItems(items, o), o) == EmittedItems(items, o)
  {
    var r := EmittedItems(items, o);
    match o
    case Natural =>
    case NaturalPreserveComments =>
    case Sorted(order) =>
      var prepared := seq(|r|, i requires 0 <= i < |r| => WithSortedQualifiers(r[i]));
      forall i | 0 <= i < |r|
        ensures prepared[i] == r[i]
      {
        EmittedQualifiersSorted(items, order, i);
      }
      assert prepared == r;
      SortOfOrdered(r, ItemOrder(order));
  }
}
