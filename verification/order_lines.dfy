/**
  The line items of an order as values: what `Order` keeps in its list of `OrderItem`s,
  read as (menu item, quantity) pairs. The methods of `Order` are proved to change these
  lines as the functions below say.
*/
module OrderLines {
  import opened JavaLang
  import opened ModelTypes

  /** One `OrderItem`: the menu item and how many of it. */
  datatype Line = Line(item: MenuItem, quantity: Int32)

  /** No two lines are for the same menu code. */
  predicate DistinctCodes(lines: seq<Line>)
  {
    forall i, j | 0 <= i < j < |lines| :: lines[i].item.code != lines[j].item.code
  }

  /** Every quantity is at least 1. */
  predicate Positive(lines: seq<Line>)
  {
    forall i | 0 <= i < |lines| :: lines[i].quantity >= 1
  }

  /** Some line is for `code`. */
  predicate HasCode(lines: seq<Line>, code: Text)
  {
    exists i | 0 <= i < |lines| :: lines[i].item.code == code
  }

  /** `items.stream().filter(same code).findFirst()`: the position of the first line for `code`. */
  function FindCode(lines: seq<Line>, code: Text): (r: Option<nat>)
    ensures r.Some? ==> r.value < |lines| && lines[r.value].item.code == code
    ensures r.Some? ==> forall i | 0 <= i < r.value :: lines[i].item.code != code
    ensures r.None? <==> !HasCode(lines, code)
  {
    if lines == [] then None
    else if lines[0].item.code == code then Some(0)
    else
      match FindCode(lines[1..], code)
      case None =>
        assert forall i | 1 <= i < |lines| :: lines[i] == lines[1..][i - 1];
        None
      case Some(p) =>
        assert forall i | 1 <= i <= p + 1 :: lines[i] == lines[1..][i - 1];
        Some(p + 1)
  }

  /** `increaseQuantity(delta)`: the Java `int` sum, wrapping on overflow, and then at least 1. */
  function Increased(quantity: Int32, delta: Int32): (r: Int32)
    ensures 1 <= r
    ensures INT_MIN <= quantity + delta <= INT_MAX ==> r == Max(1, quantity + delta)
  {
    Max(1, Wrap32(quantity + delta))
  }

  /**
    `addItem(menuItem, quantity)`: the first line with the item's code has its quantity
    increased; otherwise a line with `max(1, quantity)` is appended.
  */
  function WithItem(lines: seq<Line>, m: MenuItem, quantity: Int32): seq<Line>
  {
    match FindCode(lines, m.code)
    case Some(p) => lines[p := Line(lines[p].item, Increased(lines[p].quantity, quantity))]
    case None => lines + [Line(m, Max(1, quantity))]
  }

  /** `remove(menuItem)`: every line for the item's code is dropped; the rest keep their order. */
  function Removed(lines: seq<Line>, code: Text): seq<Line>
  {
    if lines == [] then []
    else
      var last := lines[|lines| - 1];
      Removed(lines[..|lines| - 1], code) + (if last.item.code == code then [] else [last])
  }

  /** `updateQuantity(menuItem, quantity)`: the first line for the code gets `max(1, quantity)`; nothing else changes. */
  function Updated(lines: seq<Line>, code: Text, quantity: Int32): seq<Line>
  {
    match FindCode(lines, code)
    case Some(p) => lines[p := Line(lines[p].item, Max(1, quantity))]
    case None => lines
  }

  /** `addItem` of a code no line has appends one line with `max(1, quantity)` and changes nothing else. */
  lemma {:induction false} WithItemNew(lines: seq<Line>, m: MenuItem, quantity: Int32)
    requires !HasCode(lines, m.code)
    ensures WithItem(lines, m, quantity) == lines + [Line(m, Max(1, quantity))]
  {
  }

  /**
    `addItem` of a code the line at `p` has: that line keeps its menu item and gets
    `max(1, old + quantity)`; the length and every other line stay as they were.
  */
  lemma {:induction false} WithItemPresent(lines: seq<Line>, m: MenuItem, quantity: Int32, p: nat)
    requires DistinctCodes(lines) && p < |lines| && lines[p].item.code == m.code
    ensures var r := WithItem(lines, m, quantity);
      && |r| == |lines|
      && r[p] == Line(lines[p].item, Increased(lines[p].quantity, quantity))
      && forall i | 0 <= i < |lines| && i != p :: r[i] == lines[i]
  {
    var f := FindCode(lines, m.code);
    assert f.Some?;
    assert f.value == p;
  }

  /** `addOrIncrement` of a code already present raises that line's quantity by exactly 1, below the `int` ceiling. */
  lemma {:induction false} AddOneRaises(lines: seq<Line>, m: MenuItem, p: nat)
    requires DistinctCodes(lines) && p < |lines| && lines[p].item.code == m.code
    requires 1 <= lines[p].quantity < INT_MAX
    ensures |WithItem(lines, m, 1)| == |lines|
    ensures WithItem(lines, m, 1)[p].quantity == lines[p].quantity + 1
  {
    WithItemPresent(lines, m, 1, p);
  }

  /**
    Java `int` arithmetic: `addOrIncrement` on a line already at `Integer.MAX_VALUE`
    wraps to a negative sum, which the clamp turns into 1.
  */
  lemma {:induction false} AddOneAtCeiling(lines: seq<Line>, m: MenuItem, p: nat)
    requires DistinctCodes(lines) && p < |lines| && lines[p].item.code == m.code
    requires lines[p].quantity == INT_MAX
    ensures WithItem(lines, m, 1)[p].quantity == 1
  {
    WithItemPresent(lines, m, 1, p);
  }

  /** `addItem` keeps the codes distinct and every quantity at least 1. */
  lemma {:induction false} WithItemKeeps(lines: seq<Line>, m: MenuItem, quantity: Int32)
    requires DistinctCodes(lines) && Positive(lines)
    ensures DistinctCodes(WithItem(lines, m, quantity)) && Positive(WithItem(lines, m, quantity))
  {
    var r := WithItem(lines, m, quantity);
    match FindCode(lines, m.code)
    case Some(p) =>
      assert forall i | 0 <= i < |r| :: r[i].item == lines[i].item;
    case None =>
      assert forall i | 0 <= i < |lines| :: r[i] == lines[i];
  }

  /** The codes the lines are for. */
  function Codes(lines: seq<Line>): set<Text>
  {
    set i | 0 <= i < |lines| :: lines[i].item.code
  }

  /** The menu items the lines hold. */
  function Items(lines: seq<Line>): set<MenuItem>
  {
    set i | 0 <= i < |lines| :: lines[i].item
  }

  /**
    `addItem` adds the item's code to the order's codes and no other; every line still
    holds a menu item the order held before or the one added; no line is lost.
  */
  lemma {:induction false} WithItemSets(lines: seq<Line>, m: MenuItem, quantity: Int32)
    ensures Codes(WithItem(lines, m, quantity)) == Codes(lines) + {m.code}
    ensures Items(WithItem(lines, m, quantity)) <= Items(lines) + {m}
    ensures |lines| <= |WithItem(lines, m, quantity)|
  {
    var r := WithItem(lines, m, quantity);
    match FindCode(lines, m.code)
    case Some(p) =>
      assert forall i | 0 <= i < |r| :: r[i].item == lines[i].item;
      assert m.code == lines[p].item.code;
    case None =>
      assert forall i | 0 <= i < |lines| :: r[i] == lines[i];
      assert r[|lines|].item == m;
  }

  /** A line survives `remove` exactly when it was there and is for another code. */
  lemma {:induction false} RemovedLines(lines: seq<Line>, code: Text)
    ensures forall l :: l in Removed(lines, code) <==> l in lines && l.item.code != code
    decreases |lines|
  {
    if lines != [] {
      var init, last := lines[..|lines| - 1], lines[|lines| - 1];
      RemovedLines(init, code);
      assert lines == init + [last];
    }
  }

  /** `remove` keeps the surviving lines in their order: it works piece by piece. */
  lemma {:induction false} RemovedAppend(a: seq<Line>, b: seq<Line>, code: Text)
    ensures Removed(a + b, code) == Removed(a, code) + Removed(b, code)
    decreases |b|
  {
    if b == [] {
      assert a + b == a;
    } else {
      var init, last := b[..|b| - 1], b[|b| - 1];
      RemovedAppend(a, init, code);
      assert (a + b)[..|a + b| - 1] == a + init;
    }
  }

  /** `remove` of a code no line has changes nothing. */
  lemma {:induction false} RemovedAbsent(lines: seq<Line>, code: Text)
    requires !HasCode(lines, code)
    ensures Removed(lines, code) == lines
    decreases |lines|
  {
    if lines != [] {
      var init := lines[..|lines| - 1];
      assert !HasCode(init, code) by {
        forall i | 0 <= i < |init|
          ensures init[i].item.code != code
        {
          assert init[i] == lines[i];
        }
      }
      RemovedAbsent(init, code);
    }
  }

  /** Removing the same code twice is removing it once. */
  lemma {:induction false} RemovedTwice(lines: seq<Line>, code: Text)
    ensures Removed(Removed(lines, code), code) == Removed(lines, code)
  {
    RemovedLines(lines, code);
    RemovedAbsent(Removed(lines, code), code);
  }

  /** `remove` keeps the codes distinct and every quantity at least 1. */
  lemma {:induction false} RemovedKeeps(lines: seq<Line>, code: Text)
    requires DistinctCodes(lines) && Positive(lines)
    ensures DistinctCodes(Removed(lines, code)) && Positive(Removed(lines, code))
    decreases |lines|
  {
    if lines != [] {
      var init, last := lines[..|lines| - 1], lines[|lines| - 1];
      RemovedKeeps(init, code);
      RemovedLines(init, code);
      forall l | l in Removed(init, code)
        ensures l.item.code != last.item.code
      {
        var i :| 0 <= i < |init| && init[i] == l;
        assert lines[i] == l;
      }
    }
  }

  /**
    `updateQuantity` sets the first line for the code to `max(1, quantity)`, keeping its
    menu item and every other line; without such a line nothing changes.
  */
  lemma {:induction false} UpdatedLines(lines: seq<Line>, code: Text, quantity: Int32)
    ensures !HasCode(lines, code) ==> Updated(lines, code, quantity) == lines
    ensures HasCode(lines, code) ==> exists p | 0 <= p < |lines| ::
      && lines[p].item.code == code
      && (forall i | 0 <= i < p :: lines[i].item.code != code)
      && Updated(lines, code, quantity) == lines[p := Line(lines[p].item, Max(1, quantity))]
  {
    match FindCode(lines, code)
    case Some(p) =>
      assert lines[p].item.code == code;
    case None =>
  }

  /** `updateQuantity` keeps the codes distinct and every quantity at least 1. */
  lemma {:induction false} UpdatedKeeps(lines: seq<Line>, code: Text, quantity: Int32)
    requires DistinctCodes(lines) && Positive(lines)
    ensures DistinctCodes(Updated(lines, code, quantity)) && Positive(Updated(lines, code, quantity))
  {
    var r := Updated(lines, code, quantity);
    assert forall i | 0 <= i < |r| :: r[i].item == lines[i].item;
  }
}
