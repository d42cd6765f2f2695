/** Order totals. `BigDecimal` arithmetic is exact, so amounts are integers
    in minor units and a total is a plain sum that no rounding disturbs. */
module Money {
  import opened Entities

  /** A non-empty set has an element. */
  lemma HasElement(s: set<int>)
    requires s != {}
    ensures exists x :: x in s
  {
    if forall x :: x !in s {
      assert false;
    }
  }

  /** The sum of the amounts of the given keys, taken in no particular order. */
  ghost function SumOver(keys: set<int>, amounts: map<int, int>): int
    requires keys <= amounts.Keys
  {
    if keys == {} then 0
    else
      HasElement(keys);
      var k :| k in keys;
      amounts[k] + SumOver(keys - {k}, amounts)
  }

  /** The sum of all amounts of the map. */
  ghost function Sum(amounts: map<int, int>): int {
    SumOver(amounts.Keys, amounts)
  }

  /** Any key can be taken out first: the sum does not depend on the order
      in which the keys are visited. */
  lemma {:induction false} SumOverRemove(keys: set<int>, amounts: map<int, int>, k: int)
    requires keys <= amounts.Keys
    requires k in keys
    ensures SumOver(keys, amounts) == amounts[k] + SumOver(keys - {k}, amounts)
  {
    HasElement(keys);
    var j :| j in keys && SumOver(keys, amounts) == amounts[j] + SumOver(keys - {j}, amounts);
    if j != k {
      assert keys - {j} - {k} == keys - {k} - {j};
      SumOverRemove(keys - {j}, amounts, k);
      SumOverRemove(keys - {k}, amounts, j);
    }
  }

  /** A sum reads only the amounts of the keys it adds up. */
  lemma {:induction false} SumOverFrame(keys: set<int>, a: map<int, int>, b: map<int, int>)
    requires keys <= a.Keys && keys <= b.Keys
    requires forall k :: k in keys ==> a[k] == b[k]
    ensures SumOver(keys, a) == SumOver(keys, b)
  {
    if keys != {} {
      HasElement(keys);
      var k :| k in keys && SumOver(keys, a) == a[k] + SumOver(keys - {k}, a);
      SumOverRemove(keys, b, k);
      SumOverFrame(keys - {k}, a, b);
    }
  }

  /** Taking one entry out of a map takes its amount out of the sum. */
  lemma SumRemove(amounts: map<int, int>, k: int)
    requires k in amounts
    ensures Sum(amounts) == amounts[k] + Sum(amounts - {k})
  {
    SumOverRemove(amounts.Keys, amounts, k);
    assert (amounts - {k}).Keys == amounts.Keys - {k};
    SumOverFrame(amounts.Keys - {k}, amounts, amounts - {k});
  }

  /** Adding one fresh entry adds its amount to the sum. */
  lemma SumAdd(amounts: map<int, int>, k: int, v: int)
    requires k !in amounts
    ensures Sum(amounts[k := v]) == Sum(amounts) + v
  {
    SumRemove(amounts[k := v], k);
    assert amounts[k := v] - {k} == amounts;
  }

  /** The running total of a loop that visits the keys in the order `keys`. */
  function RunningTotal(keys: seq<int>, amounts: map<int, int>): int
    requires forall i :: 0 <= i < |keys| ==> keys[i] in amounts
  {
    if keys == [] then 0
    else RunningTotal(keys[..|keys| - 1], amounts) + amounts[keys[|keys| - 1]]
  }

  /** Whatever order a loop visits the entries in, its running total is the sum. */
  lemma {:induction false} RunningTotalIsSum(keys: seq<int>, amounts: map<int, int>)
    requires forall i, j :: 0 <= i < j < |keys| ==> keys[i] != keys[j]
    requires forall k :: k in amounts <==> k in keys
    ensures RunningTotal(keys, amounts) == Sum(amounts)
  {
    if keys == [] {
      assert amounts.Keys == {} by {
        forall k | k in amounts.Keys ensures k in keys { }
      }
    } else {
      var n := |keys| - 1;
      var last := keys[n];
      var rest := amounts - {last};
      SumRemove(amounts, last);
      forall k ensures k in rest <==> k in keys[..n] {
        if k in keys[..n] {
          var i :| 0 <= i < n && keys[i] == k;
          assert k != last;
        }
      }
      RunningTotalIsSum(keys[..n], rest);
      RunningTotalFrame(keys[..n], rest, amounts);
    }
  }

  /** A running total reads only the amounts of the keys it visits. */
  lemma {:induction false} RunningTotalFrame(keys: seq<int>, a: map<int, int>, b: map<int, int>)
    requires forall i :: 0 <= i < |keys| ==> keys[i] in a && keys[i] in b && a[keys[i]] == b[keys[i]]
    ensures RunningTotal(keys, a) == RunningTotal(keys, b)
  {
    if keys != [] {
      RunningTotalFrame(keys[..|keys| - 1], a, b);
    }
  }

  /** What one order line contributes to its order's total: price times quantity. */
  function Subtotal(item: OrderItem): int {
    item.price * item.quantity
  }

  /** The subtotal of every line of a set of order lines, by line id. */
  function Subtotals(items: map<int, OrderItem>): (r: map<int, int>)
    ensures r.Keys == items.Keys
    ensures forall i :: i in items ==> r[i] == items[i].price * items[i].quantity
  {
    map i | i in items :: Subtotal(items[i])
  }

  /** The total of a set of order lines. */
  ghost function Total(items: map<int, OrderItem>): int {
    Sum(Subtotals(items))
  }

  /** Adding a line to an order adds its subtotal to the order's total. */
  lemma TotalAdd(items: map<int, OrderItem>, k: int, item: OrderItem)
    requires k !in items
    ensures Total(items[k := item]) == Total(items) + item.price * item.quantity
  {
    assert Subtotals(items[k := item]) == Subtotals(items)[k := Subtotal(item)];
    SumAdd(Subtotals(items), k, Subtotal(item));
  }

  /** The first order of the test data: 500 x 1, 420 x 1 and 450 x 2 make 1820. */
  lemma FirstTestOrderTotal(order: int, b0: int, b1: int, b2: int)
    ensures Total(map[1 := OrderItem(order, b0, 1, 500, false),
                      2 := OrderItem(order, b2, 1, 420, false),
                      3 := OrderItem(order, b1, 2, 450, false)]) == 1820
  {
    var l1 := OrderItem(order, b0, 1, 500, false);
    var l2 := OrderItem(order, b2, 1, 420, false);
    var l3 := OrderItem(order, b1, 2, 450, false);
    var empty: map<int, OrderItem> := map[];
    assert Total(empty) == 0 by {
      assert Subtotals(empty) == map[];
    }
    TotalAdd(empty, 1, l1);
    TotalAdd(empty[1 := l1], 2, l2);
    TotalAdd(empty[1 := l1][2 := l2], 3, l3);
    assert empty[1 := l1][2 := l2][3 := l3] == map[1 := l1, 2 := l2, 3 := l3];
  }
}
