/**
 * The value-level view of one table's cart in the dashboard
 * (src/screens/Dashboard.tsx): cart lines, `findIndex`, the slot update made by
 * `addToCart` and `decQty`, and the `total` reduction.
 */
module Cart {
  import opened Seqs

  /** A dish as the dashboard sees it. Prices are whole rupees. */
  datatype MenuItem = MenuItem(id: string, name: string, price: int, categoryId: string)

  /** One line of a cart. `qty` is a plain number: a backend order may carry any value. */
  datatype CartLine = CartLine(item: MenuItem, qty: int)

  /** The cart invariant: every quantity is at least 1 and no dish id appears twice. */
  ghost predicate WellFormed(cart: seq<CartLine>) {
    && (forall i :: 0 <= i < |cart| ==> cart[i].qty >= 1)
    && (forall i, j :: 0 <= i < j < |cart| ==> cart[i].item.id != cart[j].item.id)
  }

  /** `cart.findIndex(x => x.item.id === id)`: the first line with that dish id, or -1. */
  function IndexOf(cart: seq<CartLine>, id: string): (k: int)
    ensures -1 <= k < |cart|
    ensures k >= 0 ==> cart[k].item.id == id
    ensures forall j :: 0 <= j < |cart| && (k < 0 || j < k) ==> cart[j].item.id != id
  {
    if cart == [] then -1
    else if cart[0].item.id == id then 0
    else
      var k := IndexOf(cart[1..], id);
      if k < 0 then -1 else k + 1
  }

  /**
   * Reference definition of the slot update of `addToCart`: the first line for the
   * dish gets one more, otherwise a line of quantity 1 goes at the end.
   */
  function AddLine(cart: seq<CartLine>, item: MenuItem): (r: seq<CartLine>)
    ensures |cart| <= |r| <= |cart| + 1
    ensures |r| == |cart| + 1 ==> r[|cart|] == CartLine(item, 1)
    ensures |r| == |cart| + 1 <==> IndexOf(cart, item.id) < 0
  {
    if cart == [] then [CartLine(item, 1)]
    else if cart[0].item.id == item.id then [cart[0].(qty := cart[0].qty + 1)] + cart[1..]
    else [cart[0]] + AddLine(cart[1..], item)
  }

  /** Every line carrying `id` set to quantity `q` (the `copy.map(...)` branch of `decQty`). */
  function SetQty(cart: seq<CartLine>, id: string, q: int): (r: seq<CartLine>)
    ensures |r| == |cart|
    ensures forall i :: 0 <= i < |cart| ==> r[i].item == cart[i].item
    ensures forall i :: 0 <= i < |cart| ==> r[i].qty == if cart[i].item.id == id then q else cart[i].qty
  {
    seq(|cart|, i requires 0 <= i < |cart| =>
      if cart[i].item.id == id then cart[i].(qty := q) else cart[i])
  }

  /** Every line carrying `id` dropped (the `copy.filter(...)` branch of `decQty`). */
  function RemoveId(cart: seq<CartLine>, id: string): (r: seq<CartLine>)
    ensures |r| <= |cart|
    ensures forall i :: 0 <= i < |r| ==> r[i].item.id != id && r[i] in cart
  {
    Filter(cart, (l: CartLine) => l.item.id != id)
  }

  /** `filter` drops every copy of a line with the id and keeps every copy of every other line. */
  lemma RemoveIdMultiset(cart: seq<CartLine>, id: string)
    ensures forall i :: 0 <= i < |cart| && cart[i].item.id != id ==> cart[i] in RemoveId(cart, id)
    ensures forall l :: multiset(RemoveId(cart, id))[l] == if l.item.id != id then multiset(cart)[l] else 0
  {
    FilterMultiset(cart, (l: CartLine) => l.item.id != id);
  }

  /**
   * The slot update of `decQty`: nothing when the dish is absent; otherwise the
   * quantity of its first line, less one, decides between dropping and decrementing.
   */
  function DecLine(cart: seq<CartLine>, id: string): (r: seq<CartLine>)
    ensures IndexOf(cart, id) < 0 ==> r == cart
    ensures |r| <= |cart|
  {
    var k := IndexOf(cart, id);
    if k < 0 then cart
    else if cart[k].qty - 1 <= 0 then RemoveId(cart, id)
    else SetQty(cart, id, cart[k].qty - 1)
  }

  /** `cart.reduce((sum, c) => sum + c.qty * c.item.price, 0)`, folding from the left. */
  function Total(cart: seq<CartLine>): (t: int)
    ensures cart == [] ==> t == 0
    ensures |cart| == 1 ==> t == LineAmount(cart[0])
  {
    if cart == [] then 0
    else Total(cart[..|cart| - 1]) + cart[|cart| - 1].qty * cart[|cart| - 1].item.price
  }

  function LineAmount(l: CartLine): int {
    l.qty * l.item.price
  }

  /** Adding the same dish `n` times in a row. */
  function AddTimes(cart: seq<CartLine>, item: MenuItem, n: nat): seq<CartLine>
  {
    if n == 0 then cart else AddLine(AddTimes(cart, item, n - 1), item)
  }

  /** Under the invariant, `findIndex` of a line's own dish id is that line. */
  lemma IndexOfUnique(cart: seq<CartLine>, k: int)
    requires WellFormed(cart) && 0 <= k < |cart|
    ensures IndexOf(cart, cart[k].item.id) == k
  {
  }

  // ---------------------------------------------------------------- addToCart

  /** A dish already in the cart: its first line gains exactly one, in place. */
  lemma {:induction false} AddLineExisting(cart: seq<CartLine>, item: MenuItem)
    requires IndexOf(cart, item.id) >= 0
    ensures var k := IndexOf(cart, item.id);
      AddLine(cart, item) == cart[k := cart[k].(qty := cart[k].qty + 1)]
  {
    if cart[0].item.id != item.id {
      AddLineExisting(cart[1..], item);
      var k := IndexOf(cart[1..], item.id);
      assert [cart[0]] + cart[1..][k := cart[k + 1].(qty := cart[k + 1].qty + 1)]
          == cart[k + 1 := cart[k + 1].(qty := cart[k + 1].qty + 1)];
    }
  }

  /** A dish not yet in the cart: a line of quantity 1 is appended, the rest untouched. */
  lemma {:induction false} AddLineNew(cart: seq<CartLine>, item: MenuItem)
    requires IndexOf(cart, item.id) < 0
    ensures AddLine(cart, item) == cart + [CartLine(item, 1)]
  {
    if cart != [] {
      AddLineNew(cart[1..], item);
      assert [cart[0]] + (cart[1..] + [CartLine(item, 1)]) == cart + [CartLine(item, 1)];
    }
  }

  /** The two cases of `addToCart`, chosen by the index `findIndex` returns. */
  lemma AddLineByIndex(cart: seq<CartLine>, item: MenuItem, k: int)
    requires k == IndexOf(cart, item.id)
    ensures AddLine(cart, item) ==
      if k >= 0 then cart[k := cart[k].(qty := cart[k].qty + 1)] else cart + [CartLine(item, 1)]
  {
    if k >= 0 {
      AddLineExisting(cart, item);
    } else {
      AddLineNew(cart, item);
    }
  }

  /** `addToCart` keeps the cart invariant. */
  lemma AddLineWellFormed(cart: seq<CartLine>, item: MenuItem)
    requires WellFormed(cart)
    ensures WellFormed(AddLine(cart, item))
    ensures IndexOf(AddLine(cart, item), item.id) >= 0
  {
    if IndexOf(cart, item.id) >= 0 {
      AddLineExisting(cart, item);
    } else {
      AddLineNew(cart, item);
      assert AddLine(cart, item)[|cart|].item.id == item.id;
    }
  }

  /** Adding the same dish `n` times to an empty cart yields one line of quantity `n`. */
  lemma {:induction false} AddTimesFromEmpty(item: MenuItem, n: nat)
    requires n >= 1
    ensures AddTimes([], item, n) == [CartLine(item, n)]
  {
    if n > 1 {
      AddTimesFromEmpty(item, n - 1);
    }
  }

  // ---------------------------------------------------------------- decQty

  /** The two cases of `decQty` for a dish in the cart, chosen by the quantity at its first line. */
  lemma DecLineByIndex(cart: seq<CartLine>, id: string, k: int, r: seq<CartLine>)
    requires k == IndexOf(cart, id) && k >= 0
    requires r == if cart[k].qty - 1 <= 0 then RemoveId(cart, id) else SetQty(cart, id, cart[k].qty - 1)
    ensures DecLine(cart, id) == r
  {
  }

  /** `decQty` keeps every line of every other dish. */
  lemma DecLineKeepsOthers(cart: seq<CartLine>, id: string)
    ensures forall i :: 0 <= i < |cart| && cart[i].item.id != id ==> cart[i] in DecLine(cart, id)
  {
    var k := IndexOf(cart, id);
    if k >= 0 {
      if cart[k].qty - 1 <= 0 {
        RemoveIdMultiset(cart, id);
      } else {
        var r := SetQty(cart, id, cart[k].qty - 1);
        forall i | 0 <= i < |cart| && cart[i].item.id != id
          ensures cart[i] in r
        {
          assert r[i] == cart[i];
        }
      }
    }
  }

  /** Under the invariant, dropping "every line with the id" drops exactly line `k`. */
  lemma RemoveIdUnique(cart: seq<CartLine>, k: int)
    requires WellFormed(cart) && 0 <= k < |cart|
    ensures RemoveId(cart, cart[k].item.id) == cart[..k] + cart[k + 1..]
  {
    var id := cart[k].item.id;
    var p := (l: CartLine) => l.item.id != id;
    assert cart == cart[..k] + ([cart[k]] + cart[k + 1..]);
    FilterAppend(cart[..k], [cart[k]] + cart[k + 1..], p);
    FilterAppend([cart[k]], cart[k + 1..], p);
    FilterAll(cart[..k], p);
    FilterAll(cart[k + 1..], p);
  }

  /** Under the invariant, setting "every line with the id" sets exactly line `k`. */
  lemma SetQtyUnique(cart: seq<CartLine>, k: int, q: int)
    requires WellFormed(cart) && 0 <= k < |cart|
    ensures SetQty(cart, cart[k].item.id, q) == cart[k := cart[k].(qty := q)]
  {
  }

  /** `decQty` of a dish whose line holds 1: that line disappears, the others keep their order. */
  lemma DecLineDrop(cart: seq<CartLine>, id: string)
    requires WellFormed(cart) && IndexOf(cart, id) >= 0 && cart[IndexOf(cart, id)].qty == 1
    ensures DecLine(cart, id) == cart[..IndexOf(cart, id)] + cart[IndexOf(cart, id) + 1..]
  {
    RemoveIdUnique(cart, IndexOf(cart, id));
  }

  /** `decQty` of a dish whose line holds more than 1: that line drops by exactly one, in place. */
  lemma DecLineDecrement(cart: seq<CartLine>, id: string)
    requires WellFormed(cart) && IndexOf(cart, id) >= 0 && cart[IndexOf(cart, id)].qty != 1
    ensures var k := IndexOf(cart, id);
      DecLine(cart, id) == cart[k := cart[k].(qty := cart[k].qty - 1)]
  {
    var k := IndexOf(cart, id);
    SetQtyUnique(cart, k, cart[k].qty - 1);
  }

  /** Dropping line `k` keeps the invariant and leaves no line with that line's dish id. */
  lemma RemoveAtWellFormed(cart: seq<CartLine>, k: int)
    requires WellFormed(cart) && 0 <= k < |cart|
    ensures WellFormed(cart[..k] + cart[k + 1..])
    ensures IndexOf(cart[..k] + cart[k + 1..], cart[k].item.id) < 0
  {
    var r := cart[..k] + cart[k + 1..];
    assert forall i :: 0 <= i < |r| ==> r[i] == cart[if i < k then i else i + 1];
  }

  /** Lowering the quantity of a line above 1 keeps the invariant. */
  lemma DecrementWellFormed(cart: seq<CartLine>, k: int)
    requires WellFormed(cart) && 0 <= k < |cart| && cart[k].qty != 1
    ensures WellFormed(cart[k := cart[k].(qty := cart[k].qty - 1)])
  {
  }

  /** `decQty` keeps the cart invariant, and taking back the last unit removes the dish. */
  lemma DecLineWellFormed(cart: seq<CartLine>, id: string)
    requires WellFormed(cart)
    ensures WellFormed(DecLine(cart, id))
    ensures IndexOf(cart, id) >= 0 && cart[IndexOf(cart, id)].qty == 1 ==> IndexOf(DecLine(cart, id), id) < 0
  {
    var k := IndexOf(cart, id);
    if k >= 0 {
      if cart[k].qty == 1 {
        DecLineDrop(cart, id);
        RemoveAtWellFormed(cart, k);
      } else {
        DecLineDecrement(cart, id);
        DecrementWellFormed(cart, k);
      }
    }
  }

  /** `decQty` undoes `addToCart` on a well-formed cart. */
  lemma DecLineUndoesAddLine(cart: seq<CartLine>, item: MenuItem)
    requires WellFormed(cart)
    ensures DecLine(AddLine(cart, item), item.id) == cart
  {
    var k := IndexOf(cart, item.id);
    var added := AddLine(cart, item);
    AddLineByIndex(cart, item, k);
    if k >= 0 {
      DecLineUndoesIncrement(cart, k, added);
    } else {
      DecLineUndoesAppend(cart, item, added);
    }
  }

  lemma DecLineUndoesIncrement(cart: seq<CartLine>, k: int, added: seq<CartLine>)
    requires WellFormed(cart) && 0 <= k < |cart|
    requires added == cart[k := cart[k].(qty := cart[k].qty + 1)]
    ensures DecLine(added, cart[k].item.id) == cart
  {
    var id := cart[k].item.id;
    assert WellFormed(added);
    IndexOfUnique(added, k);
    DecLineDecrement(added, id);
  }

  lemma DecLineUndoesAppend(cart: seq<CartLine>, item: MenuItem, added: seq<CartLine>)
    requires WellFormed(cart) && IndexOf(cart, item.id) < 0
    requires added == cart + [CartLine(item, 1)]
    ensures DecLine(added, item.id) == cart
  {
    assert WellFormed(added);
    IndexOfUnique(added, |cart|);
    DecLineDrop(added, item.id);
    assert added[..|cart|] == cart;
  }

  // ---------------------------------------------------------------- total

  lemma {:induction false} TotalAppend(a: seq<CartLine>, b: seq<CartLine>)
    ensures Total(a + b) == Total(a) + Total(b)
    decreases |b|
  {
    if b == [] {
      assert a + b == a;
    } else {
      assert (a + b)[..|a + b| - 1] == a + b[..|b| - 1];
      TotalAppend(a, b[..|b| - 1]);
    }
  }

  /** The total is the sum of the line amounts: splitting off line `k`. */
  lemma TotalSplit(cart: seq<CartLine>, k: int)
    requires 0 <= k < |cart|
    ensures Total(cart) == Total(cart[..k]) + LineAmount(cart[k]) + Total(cart[k + 1..])
  {
    var before, after := cart[..k], cart[k + 1..];
    assert cart == (before + [cart[k]]) + after;
    TotalAppend(before + [cart[k]], after);
    TotalAppendOne(before, cart[k]);
  }

  /** `addToCart` raises the total by the price stored on the dish's line (or the new dish's price). */
  lemma {:induction false} TotalAddLine(cart: seq<CartLine>, item: MenuItem)
    ensures var k := IndexOf(cart, item.id);
      Total(AddLine(cart, item)) == Total(cart) + if k >= 0 then cart[k].item.price else item.price
  {
    if cart == [] {
      assert [CartLine(item, 1)][..0] == [];
    } else {
      var head, rest := cart[0], cart[1..];
      assert cart == [head] + rest;
      TotalCons(head, rest);
      if head.item.id == item.id {
        TotalCons(head.(qty := head.qty + 1), rest);
        MoreOf(head.qty, head.item.price);
      } else {
        TotalAddLine(rest, item);
        TotalCons(head, AddLine(rest, item));
      }
    }
  }

  /** The total of a cart is its first line's amount plus the total of the rest. */
  lemma TotalCons(l: CartLine, cart: seq<CartLine>)
    ensures Total([l] + cart) == LineAmount(l) + Total(cart)
  {
    TotalAppend([l], cart);
  }

  /** `decQty` of a dish in a well-formed cart lowers the total by that line's price. */
  lemma TotalDecLine(cart: seq<CartLine>, id: string)
    requires WellFormed(cart) && IndexOf(cart, id) >= 0
    ensures Total(DecLine(cart, id)) == Total(cart) - cart[IndexOf(cart, id)].item.price
  {
    if cart[IndexOf(cart, id)].qty == 1 {
      TotalDecLineDrop(cart, id);
    } else {
      TotalDecLineDecrement(cart, id);
    }
  }

  lemma TotalDecLineDrop(cart: seq<CartLine>, id: string)
    requires WellFormed(cart) && IndexOf(cart, id) >= 0 && cart[IndexOf(cart, id)].qty == 1
    ensures Total(DecLine(cart, id)) == Total(cart) - cart[IndexOf(cart, id)].item.price
  {
    var k := IndexOf(cart, id);
    var d := cart[..k] + cart[k + 1..];
    DecLineDrop(cart, id);
    TotalRemoveSingle(cart, k);
    assert Total(d) == Total(cart) - cart[k].item.price;
  }

  lemma TotalDecLineDecrement(cart: seq<CartLine>, id: string)
    requires WellFormed(cart) && IndexOf(cart, id) >= 0 && cart[IndexOf(cart, id)].qty != 1
    ensures Total(DecLine(cart, id)) == Total(cart) - cart[IndexOf(cart, id)].item.price
  {
    var k := IndexOf(cart, id);
    var d := cart[k := cart[k].(qty := cart[k].qty - 1)];
    DecLineDecrement(cart, id);
    TotalDecrementAt(cart, k);
    assert Total(d) == Total(cart) - cart[k].item.price;
  }

  /** With non-negative prices and quantities the total is non-negative. */
  lemma {:induction false} TotalNonNegative(cart: seq<CartLine>)
    requires forall i :: 0 <= i < |cart| ==> cart[i].qty >= 0 && cart[i].item.price >= 0
    ensures Total(cart) >= 0
  {
    if cart != [] {
      TotalNonNegative(cart[..|cart| - 1]);
    }
  }

  lemma TotalAppendOne(cart: seq<CartLine>, l: CartLine)
    ensures Total(cart + [l]) == Total(cart) + LineAmount(l)
  {
    assert (cart + [l])[..|cart|] == cart;
  }

  lemma TotalRemoveSingle(cart: seq<CartLine>, k: int)
    requires 0 <= k < |cart| && cart[k].qty == 1
    ensures Total(cart[..k] + cart[k + 1..]) == Total(cart) - cart[k].item.price
  {
    TotalRemove(cart, k);
  }

  lemma TotalDecrementAt(cart: seq<CartLine>, k: int)
    requires 0 <= k < |cart|
    ensures Total(cart[k := cart[k].(qty := cart[k].qty - 1)]) == Total(cart) - cart[k].item.price
  {
    var l := cart[k].(qty := cart[k].qty - 1);
    TotalUpdate(cart, k, l);
    MoreOf(l.qty, l.item.price);
  }

  /** Dropping line `k` lowers the total by that line's amount. */
  lemma TotalRemove(cart: seq<CartLine>, k: int)
    requires 0 <= k < |cart|
    ensures Total(cart[..k] + cart[k + 1..]) == Total(cart) - LineAmount(cart[k])
  {
    TotalSplit(cart, k);
    TotalAppend(cart[..k], cart[k + 1..]);
  }

  lemma MoreOf(q: int, p: int)
    ensures (q + 1) * p == q * p + p
  {
  }

  /** Replacing line `k` changes the total by the difference of the two line amounts. */
  lemma TotalUpdate(cart: seq<CartLine>, k: int, l: CartLine)
    requires 0 <= k < |cart|
    ensures Total(cart[k := l]) == Total(cart) - LineAmount(cart[k]) + LineAmount(l)
  {
    var r := cart[k := l];
    TotalSplit(cart, k);
    TotalSplit(r, k);
    assert r[..k] == cart[..k] && r[k + 1..] == cart[k + 1..];
  }

  /** The carts and totals of adding one dish twice to an empty cart and taking one back. */
  lemma AddTwiceDecOnce(d: MenuItem)
    ensures AddLine([], d) == [CartLine(d, 1)]
    ensures AddLine([CartLine(d, 1)], d) == [CartLine(d, 2)]
    ensures DecLine([CartLine(d, 2)], d.id) == [CartLine(d, 1)]
    ensures Total([CartLine(d, 2)]) == 2 * d.price && Total([CartLine(d, 1)]) == d.price
  {
    assert DecLine([CartLine(d, 2)], d.id) == SetQty([CartLine(d, 2)], d.id, 1);
  }
}
