/**
  `OrderManager`: the history of served orders, newest first, never longer than its limit.
  Adding an order marks it served, puts it at the front and drops the oldest orders past
  the limit.
*/
module OrderManagement {
  import opened JavaLang
  import opened ModelTypes
  import opened Orders

  /** The first `limit` elements of `s`, or all of it when it is shorter. */
  function Take<T>(s: seq<T>, limit: nat): (r: seq<T>)
    ensures |r| == if |s| <= limit then |s| else limit
    ensures r == s[..|r|]
  {
    if |s| <= limit then s else s[..limit]
  }

  /** The history after `addOrder(x)`: `x` in front, then as many earlier orders as the limit leaves room for. */
  function Admit<T>(history: seq<T>, x: T, limit: nat): seq<T>
  {
    Take([x] + history, limit)
  }

  /** `s` back to front. */
  function Reverse<T>(s: seq<T>): (r: seq<T>)
    ensures |r| == |s|
    ensures forall k | 0 <= k < |s| :: r[k] == s[|s| - 1 - k]
  {
    if s == [] then [] else [s[|s| - 1]] + Reverse(s[..|s| - 1])
  }

  /** The history after adding each of `xs` in turn. */
  function AdmitAll<T>(history: seq<T>, xs: seq<T>, limit: nat): seq<T>
  {
    if xs == [] then history else Admit(AdmitAll(history, xs[..|xs| - 1], limit), xs[|xs| - 1], limit)
  }

  /**
    One `addOrder`: the new order is first (the limit is at least 1), the earlier orders
    follow in their order, and the history grows by one until it reaches the limit.
  */
  lemma {:induction false} AdmitShape<T>(history: seq<T>, x: T, limit: nat)
    requires 1 <= limit && |history| <= limit
    ensures var r := Admit(history, x, limit);
      && r[0] == x
      && |r| == (if |history| < limit then |history| + 1 else limit)
      && forall k | 1 <= k < |r| :: r[k] == history[k - 1]
  {
  }

  /** When the history is full, `addOrder` evicts exactly the oldest order. */
  lemma {:induction false} AdmitEvictsOldest<T>(history: seq<T>, x: T, limit: nat)
    requires 1 <= limit && |history| == limit
    ensures Admit(history, x, limit) == [x] + history[..limit - 1]
  {
    assert ([x] + history)[..limit] == [x] + history[..limit - 1];
  }

  /** Taking twice is taking once. */
  lemma TakeFront<T>(x: T, s: seq<T>, limit: nat)
    ensures Take([x] + Take(s, limit), limit) == Take([x] + s, limit)
  {
    if |s| > limit {
      assert ([x] + s[..limit])[..limit] == ([x] + s)[..limit];
    }
  }

  /**
    After any run of `addOrder` calls the history is the most recent orders, newest first,
    as many as the limit allows: the orders added, back to front, and then the earlier
    history.
  */
  lemma {:induction false} AdmitAllRecent<T>(history: seq<T>, xs: seq<T>, limit: nat)
    requires |history| <= limit
    ensures AdmitAll(history, xs, limit) == Take(Reverse(xs) + history, limit)
    decreases |xs|
  {
    if xs != [] {
      var init, last := xs[..|xs| - 1], xs[|xs| - 1];
      AdmitAllRecent(history, init, limit);
      TakeFront(last, Reverse(init) + history, limit);
      assert Reverse(xs) == [last] + Reverse(init);
      assert [last] + (Reverse(init) + history) == Reverse(xs) + history;
    }
  }

  class OrderManager {
    /** The served orders, newest first (the front of the deque). */
    var history: seq<Order>
    const historyLimit: int

    /** The limit is at least 5 and the history never longer than it. */
    predicate Valid()
      reads this
    {
      5 <= historyLimit && |history| <= historyLimit
    }

    /** `new OrderManager()`: a limit of 12. */
    constructor Default()
      ensures Valid() && history == [] && historyLimit == 12
    {
      history := [];
      historyLimit := 12;
    }

    /** `new OrderManager(historyLimit)`: the limit is raised to at least 5. */
    constructor (historyLimit: Int32)
      ensures Valid() && history == [] && this.historyLimit == Max(5, historyLimit)
    {
      history := [];
      this.historyLimit := Max(5, historyLimit);
    }

    /**
      `addOrder(order)`: the order is marked served and put at the front; the oldest orders
      are removed while the history is longer than the limit.
    */
    method AddOrder(order: Order)
      requires Valid()
      modifies this, order
      ensures Valid() && history == Admit(old(history), order, historyLimit)
      ensures order.status == Served
      ensures order.items == old(order.items) && order.tableNumber == old(order.tableNumber)
      ensures order.notes == old(order.notes)
      ensures order.Lines() == old(order.Lines()) && (old(order.Valid()) ==> order.Valid())
    {
      order.SetStatus(Served);
      history := [order] + history;
      ghost var all := history;
      while |history| > historyLimit
        modifies this
        invariant |history| <= |all| && history == all[..|history|]
        invariant |history| < |all| ==> historyLimit <= |history|
        decreases |history|
      {
        history := history[..|history| - 1];
      }
    }

    /** `getHistory()`: a copy of the history, newest first. */
    method GetHistory() returns (r: seq<Order>)
      ensures r == history
    {
      r := history;
    }

    /** `clearHistory()`. */
    method ClearHistory()
      modifies this
      ensures history == [] && (old(Valid()) ==> Valid())
    {
      history := [];
    }
  }
}
