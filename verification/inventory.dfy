/** The product admin's two inventory bandings. The display column labels a
    count Low (under 10), Medium (10 to 50) or High (over 50). The
    "Critical Inventory Status" list filter has its own, narrower bands,
    selected by value code: '<3', '3<=10' (both ends inclusive) and '>10'.
    A selection the filter does not recognise narrows nothing. */
module Inventory {
  import opened Optional
  import opened Schema

  // ---------------------------------------------------------------------
  // The display column.

  const LowStockBelow: int := 10
  const HighStockAbove: int := 50

  /** The label the listing shows in its inventory-status column. */
  function InventoryStatus(inventory: int): (status: string)
    ensures status == "Low" <==> inventory < LowStockBelow
    ensures status == "High" <==> inventory > HighStockAbove
    ensures status == "Medium" <==> LowStockBelow <= inventory <= HighStockAbove
    ensures status in {"Low", "Medium", "High"}
  {
    if inventory < LowStockBelow then "Low"
    else if inventory > HighStockAbove then "High"
    else "Medium"
  }

  /** Position of a label on the scale Low < Medium < High. */
  function StatusRank(status: string): nat
  {
    if status == "Low" then 0 else if status == "Medium" then 1 else 2
  }

  /** More stock never gives a lower label. */
  lemma InventoryStatusMonotone(a: int, b: int)
    requires a <= b
    ensures StatusRank(InventoryStatus(a)) <= StatusRank(InventoryStatus(b))
  {
  }

  // ---------------------------------------------------------------------
  // The list filter.

  const LessThan3: string := "<3"
  const Between3And10: string := "3<=10"
  const GreaterThan10: string := ">10"

  /** The filter's choices as (value code, label) pairs, in display order.
      The '<3' band is labelled 'High': the label grades how critical the
      stock is, not how much there is. */
  const InventoryLookups: seq<(string, string)> :=
    [(LessThan3, "High"), (Between3And10, "Medium"), (GreaterThan10, "OK")]

  predicate IsLookupCode(code: string)
  {
    exists i :: 0 <= i < |InventoryLookups| && InventoryLookups[i].0 == code
  }

  /** The range a recognised code selects. */
  predicate InBand(code: string, inventory: int)
  {
    if code == LessThan3 then inventory < 3
    else if code == Between3And10 then 3 <= inventory <= 10
    else if code == GreaterThan10 then inventory > 10
    else false
  }

  /** Each count lies in exactly one band, whatever its sign. */
  lemma BandsPartition(inventory: int)
    ensures InBand(LessThan3, inventory) || InBand(Between3And10, inventory) || InBand(GreaterThan10, inventory)
    ensures !(InBand(LessThan3, inventory) && InBand(Between3And10, inventory))
    ensures !(InBand(LessThan3, inventory) && InBand(GreaterThan10, inventory))
    ensures !(InBand(Between3And10, inventory) && InBand(GreaterThan10, inventory))
  {
  }

  /** The rows of `xs` that `keep` accepts, in their original order. */
  function Filter<T(!new)>(xs: seq<T>, keep: T -> bool): (r: seq<T>)
    ensures |r| <= |xs|
    ensures forall x :: x in r <==> x in xs && keep(x)
    ensures forall x :: multiset(r)[x] == if keep(x) then multiset(xs)[x] else 0
  {
    if xs == [] then []
    else
      assert xs == [xs[0]] + xs[1..];
      if keep(xs[0]) then [xs[0]] + Filter(xs[1..], keep)
      else Filter(xs[1..], keep)
  }

  /** `sub` is obtained from `xs` by dropping elements, keeping order. */
  ghost predicate IsSubsequence<T>(sub: seq<T>, xs: seq<T>)
    decreases |xs|
  {
    if sub == [] then true
    else if xs == [] then false
    else (sub[0] == xs[0] && IsSubsequence(sub[1..], xs[1..])) || IsSubsequence(sub, xs[1..])
  }

  lemma {:induction false} FilterIsSubsequence<T(!new)>(xs: seq<T>, keep: T -> bool)
    ensures IsSubsequence(Filter(xs, keep), xs)
    decreases |xs|
  {
    if xs != [] {
      FilterIsSubsequence(xs[1..], keep);
      if keep(xs[0]) {
        var r := Filter(xs, keep);
        assert r[0] == xs[0] && r[1..] == Filter(xs[1..], keep);
      }
    }
  }

  /** The filter's narrowing of the listing: the rows in the selected band,
      or no narrowing at all (None) when nothing it knows is selected. */
  function Queryset(value: Option<string>, products: seq<Product>): (r: Option<seq<Product>>)
    ensures r.Some? <==> value.Some? && IsLookupCode(value.value)
    ensures value == Some(LessThan3) ==>
      r.Some? && forall p :: p in r.value <==> p in products && p.inventory < 3
    ensures value == Some(Between3And10) ==>
      r.Some? && forall p :: p in r.value <==> p in products && 3 <= p.inventory <= 10
    ensures value == Some(GreaterThan10) ==>
      r.Some? && forall p :: p in r.value <==> p in products && p.inventory > 10
    ensures r.Some? ==>
      forall p :: multiset(r.value)[p] == if InBand(value.value, p.inventory) then multiset(products)[p] else 0
    ensures r.Some? ==> IsSubsequence(r.value, products)
  {
    assert InventoryLookups[0].0 == LessThan3;
    assert InventoryLookups[1].0 == Between3And10;
    assert InventoryLookups[2].0 == GreaterThan10;
    if value == Some(LessThan3) then
      FilterIsSubsequence(products, (p: Product) => p.inventory < 3);
      Some(Filter(products, (p: Product) => p.inventory < 3))
    else if value == Some(Between3And10) then
      FilterIsSubsequence(products, (p: Product) => 3 <= p.inventory <= 10);
      Some(Filter(products, (p: Product) => 3 <= p.inventory <= 10))
    else if value == Some(GreaterThan10) then
      FilterIsSubsequence(products, (p: Product) => p.inventory > 10);
      Some(Filter(products, (p: Product) => p.inventory > 10))
    else None
  }

  /** What the listing shows once the filter has run: its narrowing, or the
      rows unchanged when it returned nothing. */
  function ApplyInventoryFilter(value: Option<string>, products: seq<Product>): (r: seq<Product>)
    ensures !(value.Some? && IsLookupCode(value.value)) ==> r == products
    ensures value.Some? && IsLookupCode(value.value) ==>
      forall p :: p in r <==> p in products && InBand(value.value, p.inventory)
    ensures value.Some? && IsLookupCode(value.value) ==>
      forall p :: multiset(r)[p] == if InBand(value.value, p.inventory) then multiset(products)[p] else 0
    ensures IsSubsequence(r, products)
  {
    match Queryset(value, products)
    case Some(q) => q
    case None => IsSubsequenceOfSelf(products); products
  }

  lemma {:induction false} IsSubsequenceOfSelf<T>(xs: seq<T>)
    ensures IsSubsequence(xs, xs)
    decreases |xs|
  {
    if xs != [] {
      IsSubsequenceOfSelf(xs[1..]);
    }
  }

  /** Running the three bands over one listing splits it: together the
      three results hold every row exactly as often as the listing does. */
  lemma BandsSplitListing(products: seq<Product>)
    ensures
      var low := ApplyInventoryFilter(Some(LessThan3), products);
      var medium := ApplyInventoryFilter(Some(Between3And10), products);
      var ok := ApplyInventoryFilter(Some(GreaterThan10), products);
      multiset(low) + multiset(medium) + multiset(ok) == multiset(products)
  {
    var low := Filter(products, (p: Product) => p.inventory < 3);
    var medium := Filter(products, (p: Product) => 3 <= p.inventory <= 10);
    var ok := Filter(products, (p: Product) => p.inventory > 10);
    assert multiset(low) + multiset(medium) + multiset(ok) == multiset(products) by {
      forall p
        ensures (multiset(low) + multiset(medium) + multiset(ok))[p] == multiset(products)[p]
      {
      }
    }
  }

  /** Every row the '<3' choice keeps is labelled Low by the status column,
      and every row labelled High passes the '>10' choice. */
  lemma FilterBandsAgainstStatus(p: Product)
    ensures InBand(LessThan3, p.inventory) ==> InventoryStatus(p.inventory) == "Low"
    ensures InventoryStatus(p.inventory) == "High" ==> InBand(GreaterThan10, p.inventory)
  {
  }
}
