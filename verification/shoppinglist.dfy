/** The shopping list (`src/screens/application/ShoppingListScreen.js`):
    the typed name and the list of items, with add, tick and delete. */
module ShoppingList {
  datatype Item = Item(name: string, completed: bool)

  /** The screen state: the text field and the list. */
  datatype ListState = ListState(name: string, products: seq<Item>)

  /** Adding an empty name does nothing; otherwise the name goes to the end
      of the list, unticked, and the field is cleared. */
  function AddProduct(st: ListState): (r: ListState)
    ensures |st.name| == 0 ==> r == st
    ensures |st.name| > 0 ==> r.name == "" && |r.products| == |st.products| + 1
    ensures |st.name| > 0 ==> r.products[..|st.products|] == st.products
    ensures |st.name| > 0 ==> r.products[|st.products|] == Item(st.name, false)
  {
    if |st.name| == 0 then st
    else ListState("", st.products + [Item(st.name, false)])
  }

  /** Typing replaces the field and leaves the list alone. */
  function SetName(st: ListState, name: string): (r: ListState)
  {
    ListState(name, st.products)
  }

  /** Adding a typed name: the list grows by exactly that name when it is
      non-empty, and the field is empty afterwards either way. */
  lemma TypeThenAdd(st: ListState, name: string)
    ensures AddProduct(SetName(st, name)).name == ""
    ensures AddProduct(SetName(st, name)).products ==
      if |name| == 0 then st.products else st.products + [Item(name, false)]
  {
  }

  /** Flip the tick of the item at `target`; every other item is kept as is. */
  function ToggleComplete(products: seq<Item>, target: int): (r: seq<Item>)
    ensures |r| == |products|
    ensures forall i :: 0 <= i < |r| ==>
      r[i].name == products[i].name &&
      r[i].completed == (if i == target then !products[i].completed else products[i].completed)
    ensures !(0 <= target < |products|) ==> r == products
  {
    seq(|products|, i requires 0 <= i < |products| =>
      if i == target then Item(products[i].name, !products[i].completed) else products[i])
  }

  /** Ticking twice restores the list. */
  lemma ToggleInvolution(products: seq<Item>, target: int)
    ensures ToggleComplete(ToggleComplete(products, target), target) == products
  {
  }

  /** How many items are ticked. */
  function Ticked(products: seq<Item>): (n: nat)
  {
    if |products| == 0 then 0 else (if products[0].completed then 1 else 0) + Ticked(products[1..])
  }

  /** Ticking an item in range moves the ticked count by exactly one. */
  lemma {:induction false} ToggleTicked(products: seq<Item>, target: int)
    requires 0 <= target < |products|
    ensures Ticked(ToggleComplete(products, target)) ==
      if products[target].completed then Ticked(products) - 1 else Ticked(products) + 1
  {
    var r := ToggleComplete(products, target);
    assert r[1..] == ToggleComplete(products[1..], target - 1);
    if target > 0 {
      ToggleTicked(products[1..], target - 1);
    }
  }

  /** `filter((product, index) => targetIndex !== index)` over the suffix
      starting at position `offset`. */
  function FilterIndex(products: seq<Item>, target: int, offset: int): (r: seq<Item>)
    ensures r == if offset <= target < offset + |products|
                 then products[..target - offset] + products[target - offset + 1..]
                 else products
  {
    if |products| == 0 then []
    else
      var rest := FilterIndex(products[1..], target, offset + 1);
      if offset != target then
        assert [products[0]] + products[1..] == products;
        [products[0]] + rest
      else rest
  }

  /** Removing by index: exactly the item at `target` disappears, and an
      index outside the list removes nothing. */
  function DeleteProduct(products: seq<Item>, target: int): (r: seq<Item>)
    ensures 0 <= target < |products| ==> |r| == |products| - 1 && r == products[..target] + products[target + 1..]
    ensures !(0 <= target < |products|) ==> r == products
  {
    FilterIndex(products, target, 0)
  }

  /** Deleting and ticking different items commute once indices are shifted. */
  lemma DeleteThenToggle(products: seq<Item>, d: int, t: int)
    requires 0 <= d < t < |products|
    ensures ToggleComplete(DeleteProduct(products, d), t - 1) == DeleteProduct(ToggleComplete(products, t), d)
  {
    var a := ToggleComplete(DeleteProduct(products, d), t - 1);
    var b := DeleteProduct(ToggleComplete(products, t), d);
    assert |a| == |b|;
    forall k | 0 <= k < |a| ensures a[k] == b[k] {
      if k < d {
        assert a[k] == products[k] == b[k];
      } else {
        assert DeleteProduct(products, d)[k] == products[k + 1];
        assert b[k] == ToggleComplete(products, t)[k + 1];
      }
    }
  }
}
