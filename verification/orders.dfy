/**
  `OrderItem` and `Order`: an order keeps a list of `OrderItem` objects, one per menu code,
  and changes them in place. Each method is proved to change the order's lines
  (`Lines()`) as the functions of `OrderLines` say.
*/
module Orders {
  import opened JavaLang
  import opened ModelTypes
  import opened OrderLines

  /** One line of an order: a fixed menu item and a mutable quantity, never below 1. */
  class OrderItem {
    const menuItem: MenuItem
    var quantity: Int32

    /** `new OrderItem(menuItem, quantity)` stores `max(1, quantity)`. */
    constructor (menuItem: MenuItem, quantity: Int32)
      ensures this.menuItem == menuItem && this.quantity == Max(1, quantity)
    {
      this.menuItem := menuItem;
      this.quantity := Max(1, quantity);
    }

    /** The line this item stands for. */
    function LineOf(): (l: Line)
      reads this
      ensures l.item == menuItem && l.quantity == quantity
    {
      Line(menuItem, quantity)
    }

    /** `increaseQuantity(delta)`: `max(1, quantity + delta)` in Java `int` arithmetic. */
    method IncreaseQuantity(delta: Int32)
      modifies this
      ensures quantity == Increased(old(quantity), delta) && quantity >= 1
    {
      quantity := Max(1, Wrap32(quantity + delta));
    }

    /** `setQuantity(n)`: `max(1, n)`. */
    method SetQuantity(n: Int32)
      modifies this
      ensures quantity == Max(1, n) && quantity >= 1
    {
      quantity := Max(1, n);
    }
  }

  /** The lines a list of `OrderItem`s stands for. */
  function LinesOf(xs: seq<OrderItem>): (lines: seq<Line>)
    reads xs
    ensures |lines| == |xs|
    ensures forall i | 0 <= i < |xs| :: lines[i] == xs[i].LineOf()
  {
    seq(|xs|, i requires 0 <= i < |xs| reads xs => xs[i].LineOf())
  }

  /** `remove` of one more line: that line is kept exactly when its code differs. */
  lemma RemovedStep(lines: seq<Line>, i: nat, code: Text)
    requires i < |lines|
    ensures Removed(lines[..i + 1], code)
      == Removed(lines[..i], code) + (if lines[i].item.code == code then [] else [lines[i]])
  {
    assert lines[..i + 1][..i] == lines[..i];
  }

  /** Appending an item appends its line. */
  lemma LinesOfAppend(xs: seq<OrderItem>, x: OrderItem)
    ensures LinesOf(xs + [x]) == LinesOf(xs) + [x.LineOf()]
  {
  }

  /** Distinct objects: no item appears twice in the list. */
  predicate Distinct(xs: seq<OrderItem>)
  {
    forall a, b | 0 <= a < b < |xs| :: xs[a] != xs[b]
  }

  /** The `removeIf` loop: the items whose code is not `code`, in their order. */
  method KeepOthers(xs: seq<OrderItem>, code: Text) returns (kept: seq<OrderItem>)
    requires Distinct(xs)
    ensures Distinct(kept) && LinesOf(kept) == Removed(LinesOf(xs), code)
  {
    ghost var lines := LinesOf(xs);
    kept := [];
    var i := 0;
    while i < |xs|
      invariant 0 <= i <= |xs|
      invariant LinesOf(kept) == Removed(lines[..i], code)
      invariant forall x | x in kept :: x in xs[..i]
      invariant Distinct(kept)
    {
      RemovedStep(lines, i, code);
      assert xs[..i + 1] == xs[..i] + [xs[i]];
      if xs[i].menuItem.code != code {
        assert xs[i] !in xs[..i];
        LinesOfAppend(kept, xs[i]);
        kept := kept + [xs[i]];
      }
      i := i + 1;
    }
    assert lines[..i] == lines;
  }

  /** An order: its line items, status, table and notes. The id and creation time are not modelled. */
  class Order {
    var items: seq<OrderItem>
    var status: OrderStatus
    var tableNumber: Text
    var notes: Text

    /**
      Every item is a separate object, no two items share a menu code (`addItem` raises the
      quantity of a present code instead of adding a second item) and every quantity is at least 1.
    */
    ghost predicate Valid()
      reads this, items
    {
      && Distinct(items)
      && DistinctCodes(Lines())
      && Positive(Lines())
    }

    /** The order's lines, in list order. */
    function Lines(): seq<Line>
      reads this, items
    {
      LinesOf(items)
    }

    /** `new Order()`: no items, status NEW, table "TBD", empty notes. */
    constructor ()
      ensures Valid() && items == [] && Lines() == []
      ensures status == New && tableNumber == Lit("TBD") && notes == []
    {
      items := [];
      status := New;
      tableNumber := Lit("TBD");
      notes := [];
    }

    method SetStatus(s: OrderStatus)
      modifies this
      ensures status == s
      ensures items == old(items) && tableNumber == old(tableNumber) && notes == old(notes)
    {
      status := s;
    }

    method SetTableNumber(t: Text)
      modifies this
      ensures tableNumber == t
      ensures items == old(items) && status == old(status) && notes == old(notes)
    {
      tableNumber := t;
    }

    method SetNotes(t: Text)
      modifies this
      ensures notes == t
      ensures items == old(items) && status == old(status) && tableNumber == old(tableNumber)
    {
      notes := t;
    }

    /** `getItems()`: a read-only view of the items, in order. */
    method GetItems() returns (r: seq<OrderItem>)
      ensures r == items && LinesOf(r) == Lines()
    {
      r := items;
    }

    /** The search of `stream().filter(same code).findFirst()`. */
    method FindItem(code: Text) returns (r: Option<nat>)
      ensures r == FindCode(Lines(), code)
    {
      var i := 0;
      while i < |items| && items[i].menuItem.code != code
        invariant 0 <= i <= |items|
        invariant forall k | 0 <= k < i :: Lines()[k].item.code != code
      {
        i := i + 1;
      }
      r := if i < |items| then Some(i) else None;
    }

    /** Raising or setting the quantity of the item at `p` changes that one line only. */
    twostate lemma OneItemChanged(p: nat)
      requires old(Valid()) && p < |old(items)| && items == old(items)
      requires forall i | 0 <= i < |items| && i != p :: unchanged(items[i])
      requires items[p].menuItem == old(items[p].menuItem) && items[p].quantity >= 1
      ensures Valid()
      ensures Lines() == old(Lines())[p := items[p].LineOf()]
    {
      assert forall i | 0 <= i < |items| && i != p :: items[i].LineOf() == old(items[i].LineOf());
      assert forall i | 0 <= i < |items| :: Lines()[i].item == old(Lines()[i].item);
    }

    /** Appending a new item appends its line and keeps the order valid when its code is new. */
    twostate lemma OneItemAppended(new x: OrderItem)
      requires old(Valid()) && !old(allocated(x)) && items == old(items) + [x]
      requires forall i | 0 <= i < |old(items)| :: unchanged(old(items)[i])
      requires !HasCode(old(Lines()), x.menuItem.code) && x.quantity >= 1
      ensures Valid()
      ensures Lines() == old(Lines()) + [x.LineOf()]
    {
      LinesOfAppend(old(items), x);
      assert LinesOf(old(items)) == old(Lines());
    }

    /** `addItem(menuItem, quantity)`: raise a present code by `quantity`, or append `max(1, quantity)`. */
    method AddItem(m: MenuItem, quantity: Int32)
      requires Valid()
      modifies this, items
      ensures Valid() && Lines() == WithItem(old(Lines()), m, quantity)
      ensures status == old(status) && tableNumber == old(tableNumber) && notes == old(notes)
      ensures forall x | x in items :: x in old(items) || fresh(x)
    {
      var found := FindItem(m.code);
      match found
      case Some(p) =>
        items[p].IncreaseQuantity(quantity);
        OneItemChanged(p);
      case None =>
        var item := new OrderItem(m, Max(1, quantity));
        items := items + [item];
        OneItemAppended(item);
    }

    /** `addOrIncrement(menuItem)`: `addItem(menuItem, 1)`, one more of a present code or a new line of 1. */
    method AddOrIncrement(m: MenuItem)
      requires Valid()
      modifies this, items
      ensures Valid() && Lines() == WithItem(old(Lines()), m, 1)
      ensures status == old(status) && tableNumber == old(tableNumber) && notes == old(notes)
      ensures forall x | x in items :: x in old(items) || fresh(x)
    {
      AddItem(m, 1);
    }

    /** `remove(menuItem)`: `removeIf` on the code, keeping the other items in order. */
    method Remove(m: MenuItem)
      requires Valid()
      modifies this
      ensures Valid() && Lines() == Removed(old(Lines()), m.code)
      ensures status == old(status) && tableNumber == old(tableNumber) && notes == old(notes)
    {
      var kept := KeepOthers(items, m.code);
      RemovedKeeps(Lines(), m.code);
      items := kept;
    }

    /** `updateQuantity(menuItem, quantity)`: the first item with the code gets `max(1, quantity)`. */
    method UpdateQuantity(m: MenuItem, quantity: Int32)
      requires Valid()
      modifies items
      ensures Valid() && Lines() == Updated(old(Lines()), m.code, quantity)
    {
      var found := FindItem(m.code);
      match found
      case Some(p) =>
        items[p].SetQuantity(quantity);
        OneItemChanged(p);
      case None =>
    }
  }
}
