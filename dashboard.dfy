/**
 * The point-of-sale dashboard (src/screens/Dashboard.tsx): reference data loaded
 * from the backend, the active table and category, the search box, and one cart
 * per table kept in `cartByTable`. Backend responses are method inputs; a failed
 * request leaves every field as it was, so it has no method here.
 */
module Dashboard {
  import opened Wrappers
  import opened Seqs
  import opened Text
  import opened Cart

  datatype Table = Table(id: string, tableLabel: string, occupied: bool)
  datatype Category = Category(id: string, name: string)

  /** Backend records. `None` stands for a field the JSON leaves out. */
  datatype ApiTable = ApiTable(id: string, tableNumber: string, occupied: Option<bool>)
  datatype ApiCategory = ApiCategory(id: string, name: string)
  datatype ApiDish = ApiDish(id: string, name: string, price: int, categoryId: string, isAvailable: Option<bool>)
  datatype ApiOrderDish = ApiOrderDish(id: string, name: string, price: Option<int>, categoryId: string)
  datatype ApiOrderLine = ApiOrderLine(dish: ApiOrderDish, qty: Option<int>)

  /** What pressing "Place order" does: refuse locally, or send the active cart. */
  datatype OrderAttempt = NoTableSelected | CartEmpty | Send(tableId: string, lines: seq<CartLine>)

  function TableFromApi(t: ApiTable): Table {
    Table(t.id, t.tableNumber, t.occupied == Some(true))
  }

  /** `fetchTables`' mapping: one table per record, in order; a missing `occupied` reads as free. */
  function TablesFromApi(api: seq<ApiTable>): (r: seq<Table>)
    ensures |r| == |api|
    ensures forall i :: 0 <= i < |api| ==>
      r[i].id == api[i].id && r[i].tableLabel == api[i].tableNumber && (r[i].occupied <==> api[i].occupied == Some(true))
  {
    seq(|api|, i requires 0 <= i < |api| => TableFromApi(api[i]))
  }

  /** `fetchCategories`' mapping: one category per record, same id and name, in order. */
  function CategoriesFromApi(api: seq<ApiCategory>): (r: seq<Category>)
    ensures |r| == |api|
    ensures forall i :: 0 <= i < |api| ==> r[i].id == api[i].id && r[i].name == api[i].name
  {
    seq(|api|, i requires 0 <= i < |api| => Category(api[i].id, api[i].name))
  }

  function ItemFromApi(d: ApiDish): MenuItem {
    MenuItem(d.id, d.name, d.price, d.categoryId)
  }

  /** `map(d => ({ id, name, price, categoryId }))`: one menu item per record, in order. */
  function MapItems(api: seq<ApiDish>): (r: seq<MenuItem>)
    ensures |r| == |api|
    ensures forall i :: 0 <= i < |api| ==> r[i] == ItemFromApi(api[i])
  {
    if api == [] then [] else [ItemFromApi(api[0])] + MapItems(api[1..])
  }

  /**
   * The menu the dashboard offers: every dish not explicitly marked unavailable,
   * in backend order (a missing `isAvailable` counts as available).
   */
  function DishesFromApi(api: seq<ApiDish>): (r: seq<MenuItem>)
    ensures |r| == Count(api, IsOffered)
    ensures Subsequence(r, MapItems(api))
    ensures forall d :: d in api && d.isAvailable != Some(false) ==> ItemFromApi(d) in r
    ensures forall x :: x in r ==> exists d :: d in api && d.isAvailable != Some(false) && x == ItemFromApi(d)
  {
    var kept := Filter(api, IsOffered);
    MapItemsMembers(kept);
    FilterLength(api, IsOffered);
    FilterIsSubsequence(api, IsOffered);
    MapItemsSubsequence(kept, api);
    MapItems(kept)
  }

  /** `d.isAvailable !== false`. */
  predicate IsOffered(d: ApiDish) {
    d.isAvailable != Some(false)
  }

  /** Mapping keeps a subsequence a subsequence. */
  lemma {:induction false} MapItemsSubsequence(a: seq<ApiDish>, b: seq<ApiDish>)
    requires Subsequence(a, b)
    ensures Subsequence(MapItems(a), MapItems(b))
    decreases |b|
  {
    if a != [] {
      var ma, mb := MapItems(a), MapItems(b);
      assert ma[1..] == MapItems(a[1..]);
      assert mb[1..] == MapItems(b[1..]);
      if a[0] == b[0] {
        MapItemsSubsequence(a[1..], b[1..]);
      } else {
        MapItemsSubsequence(a, b[1..]);
        SubsequenceSkip(ma, mb);
      }
    }
  }

  lemma {:induction false} MapItemsMembers(api: seq<ApiDish>)
    ensures forall d :: d in api ==> ItemFromApi(d) in MapItems(api)
    ensures forall x :: x in MapItems(api) ==> exists d :: d in api && x == ItemFromApi(d)
  {
    if api != [] {
      MapItemsMembers(api[1..]);
    }
  }

  /** One line of a backend order: a missing price reads as 0, a missing quantity as 1. */
  function LineFromApi(l: ApiOrderLine): (c: CartLine)
    ensures c.item.id == l.dish.id
    ensures l.dish.price.None? ==> c.item.price == 0
    ensures l.dish.price.Some? ==> c.item.price == l.dish.price.value
    ensures l.qty.None? ==> c.qty == 1
    ensures l.qty.Some? ==> c.qty == l.qty.value
  {
    CartLine(MenuItem(l.dish.id, l.dish.name, l.dish.price.GetOr(0), l.dish.categoryId), l.qty.GetOr(1))
  }

  /** `setCartByTable` after `loadActiveOrder`: one cart line per order line, in order. */
  function LoadedCart(lines: seq<ApiOrderLine>): (r: seq<CartLine>)
    ensures |r| == |lines|
    ensures forall i :: 0 <= i < |lines| ==> r[i] == LineFromApi(lines[i])
  {
    seq(|lines|, i requires 0 <= i < |lines| => LineFromApi(lines[i]))
  }

  /** A backend order that names each dish once with a positive (or absent) quantity. */
  ghost predicate OrderWellFormed(lines: seq<ApiOrderLine>) {
    && (forall i :: 0 <= i < |lines| ==> lines[i].qty.None? || lines[i].qty.value >= 1)
    && (forall i, j :: 0 <= i < j < |lines| ==> lines[i].dish.id != lines[j].dish.id)
  }

  /** A well-formed backend order loads as a cart that satisfies the cart invariant. */
  lemma LoadedCartWellFormed(lines: seq<ApiOrderLine>)
    requires OrderWellFormed(lines)
    ensures WellFormed(LoadedCart(lines))
  {
    var c := LoadedCart(lines);
    forall i | 0 <= i < |c| ensures c[i].qty >= 1 {
      assert c[i] == LineFromApi(lines[i]);
    }
    forall i, j | 0 <= i < j < |c| ensures c[i].item.id != c[j].item.id {
      assert c[i] == LineFromApi(lines[i]) && c[j] == LineFromApi(lines[j]);
    }
  }

  ghost predicate AllWellFormed(m: map<string, seq<CartLine>>) {
    forall t :: t in m ==> WellFormed(m[t])
  }

  /** Storing a well-formed cart in one slot keeps every slot well formed. */
  lemma UpdateKeepsAllWellFormed(m: map<string, seq<CartLine>>, tableId: string, cart: seq<CartLine>)
    requires AllWellFormed(m) && WellFormed(cart)
    ensures AllWellFormed(m[tableId := cart])
  {
  }

  /** `cartByTable[tableId] || []`: a table without a slot has the empty cart. */
  function CartOf(m: map<string, seq<CartLine>>, tableId: string): (r: seq<CartLine>)
    ensures tableId in m ==> r == m[tableId]
    ensures tableId !in m ==> r == []
  {
    if tableId in m then m[tableId] else []
  }

  predicate InCategory(categoryId: string, i: MenuItem) {
    i.categoryId == categoryId
  }

  predicate NameMatches(q: string, i: MenuItem) {
    Contains(ToLower(i.name), q)
  }

  /** The query the dashboard searches with: the search box trimmed and lower-cased. */
  function Query(search: string): (q: string)
    ensures |q| <= |search|
    ensures q == [] <==> AllSpace(search)
    ensures forall i :: 0 <= i < |q| ==> !('A' <= q[i] <= 'Z')
  {
    ToLowerIdempotent(Trim(search));
    ToLower(Trim(search))
  }

  /** A dish `visibleItems` shows for category `categoryId` and query `q`. */
  predicate Shown(categoryId: string, q: string, i: MenuItem) {
    InCategory(categoryId, i) && (q == [] || NameMatches(q, i))
  }

  /**
   * `visibleItems`: the dishes of the active category, in menu order, narrowed to
   * the names containing the query (ignoring ASCII case) when the query is not blank.
   * Every copy of a shown dish is kept and no copy of any other dish.
   */
  function VisibleItems(items: seq<MenuItem>, categoryId: string, search: string): (r: seq<MenuItem>)
    ensures Subsequence(r, items)
    ensures forall x :: x in r <==> x in items && Shown(categoryId, Query(search), x)
    ensures forall x :: multiset(r)[x] == if Shown(categoryId, Query(search), x) then multiset(items)[x] else 0
  {
    var q := Query(search);
    var inCategory := (i: MenuItem) => InCategory(categoryId, i);
    var matches := (i: MenuItem) => NameMatches(q, i);
    var shown := (i: MenuItem) => Shown(categoryId, q, i);
    var byCategory := Filter(items, inCategory);
    var r := if q == [] then byCategory else Filter(byCategory, matches);
    VisibleAsOneFilter(items, categoryId, q, inCategory, matches, shown);
    FilterIsSubsequence(items, shown);
    FilterMultiset(items, shown);
    r
  }

  /** The two filters of `visibleItems` select what one filter by `Shown` selects. */
  lemma VisibleAsOneFilter(items: seq<MenuItem>, categoryId: string, q: string,
                           inCategory: MenuItem -> bool, matches: MenuItem -> bool, shown: MenuItem -> bool)
    requires forall x :: inCategory(x) == InCategory(categoryId, x)
    requires forall x :: matches(x) == NameMatches(q, x)
    requires forall x :: shown(x) == Shown(categoryId, q, x)
    ensures (if q == [] then Filter(items, inCategory) else Filter(Filter(items, inCategory), matches))
      == Filter(items, shown)
  {
    if q == [] {
      FilterSame(items, inCategory, shown);
    } else {
      FilterFilter(items, inCategory, matches, shown);
    }
  }

  /** A blank search box shows the whole category, in menu order. */
  lemma VisibleItemsBlankSearch(items: seq<MenuItem>, categoryId: string, search: string)
    requires AllSpace(search)
    ensures VisibleItems(items, categoryId, search) == Filter(items, (i: MenuItem) => InCategory(categoryId, i))
  {
  }

  /** `findIndex` over the cart, as a loop: the first line for `id`, or -1 when there is none. */
  method FindIndex(cart: seq<CartLine>, id: string) returns (k: int)
    ensures -1 <= k < |cart|
    ensures k >= 0 ==> cart[k].item.id == id
    ensures forall j :: 0 <= j < |cart| && (k < 0 || j < k) ==> cart[j].item.id != id
  {
    k := 0;
    while k < |cart| && cart[k].item.id != id
      invariant 0 <= k <= |cart|
      invariant forall j :: 0 <= j < k ==> cart[j].item.id != id
    {
      k := k + 1;
    }
    if k == |cart| {
      k := -1;
    }
  }

  /** Two "first index" results for the same cart and id agree. */
  lemma FirstIndexUnique(cart: seq<CartLine>, id: string, k: int)
    requires -1 <= k < |cart|
    requires k >= 0 ==> cart[k].item.id == id
    requires forall j :: 0 <= j < |cart| && (k < 0 || j < k) ==> cart[j].item.id != id
    ensures k == IndexOf(cart, id)
  {
  }

  class Session {
    var tables: seq<Table>
    var activeTableId: string
    var categories: seq<Category>
    var activeCategoryId: string
    var items: seq<MenuItem>
    var search: string
    var cartByTable: map<string, seq<CartLine>>

    /** Every table's cart satisfies the cart invariant. */
    ghost predicate Valid()
      reads this
    {
      AllWellFormed(cartByTable)
    }

    /** `cart`: the active table's cart. */
    function ActiveCart(): seq<CartLine>
      reads this
    {
      CartOf(cartByTable, activeTableId)
    }

    /** The screen as first rendered: nothing loaded, nothing selected, no carts. */
    constructor ()
      ensures Valid()
      ensures tables == [] && categories == [] && items == []
      ensures activeTableId == "" && activeCategoryId == "" && search == ""
      ensures cartByTable == map[] && ActiveCart() == []
    {
      tables, categories, items := [], [], [];
      activeTableId, activeCategoryId, search := "", "", "";
      cartByTable := map[];
    }

    /**
     * `fetchTables` succeeded with `api`: the table list is replaced, and the first
     * table becomes active when none was. The result names the table whose active
     * order the dashboard then fetches (the effect on `activeTableId`), if any.
     */
    method ApplyTables(api: seq<ApiTable>) returns (fetchOrderFor: Option<string>)
      modifies this`tables, this`activeTableId
      ensures tables == TablesFromApi(api)
      ensures activeTableId == if old(activeTableId) == "" && |api| > 0 then api[0].id else old(activeTableId)
      ensures fetchOrderFor == if activeTableId != old(activeTableId) && activeTableId != "" then Some(activeTableId) else None
    {
      var mapped := TablesFromApi(api);
      tables := mapped;
      fetchOrderFor := None;
      if activeTableId == "" && |mapped| > 0 {
        activeTableId := mapped[0].id;
        if activeTableId != "" {
          fetchOrderFor := Some(activeTableId);
        }
      }
    }

    /** A table button: re-selecting the active table fetches nothing. */
    method SelectTable(tableId: string) returns (fetchOrderFor: Option<string>)
      modifies this`activeTableId
      ensures activeTableId == tableId
      ensures fetchOrderFor == if tableId != old(activeTableId) && tableId != "" then Some(tableId) else None
    {
      fetchOrderFor := if tableId != activeTableId && tableId != "" then Some(tableId) else None;
      activeTableId := tableId;
    }

    /** `fetchCategories` succeeded: the list is replaced; the first category is selected when none was. */
    method ApplyCategories(api: seq<ApiCategory>)
      modifies this`categories, this`activeCategoryId
      ensures categories == CategoriesFromApi(api)
      ensures activeCategoryId == if |api| > 0 && old(activeCategoryId) == "" then api[0].id else old(activeCategoryId)
    {
      categories := CategoriesFromApi(api);
      if |categories| > 0 && activeCategoryId == "" {
        activeCategoryId := categories[0].id;
      }
    }

    /** `fetchDishes` succeeded: the menu is replaced by the available dishes. */
    method ApplyDishes(api: seq<ApiDish>)
      modifies this`items
      ensures items == DishesFromApi(api)
    {
      items := DishesFromApi(api);
    }

    /**
     * `loadActiveOrder(tableId)` resolved with `lines`: the slot of the table the fetch
     * was issued for is overwritten (not merged), whichever table is active by now.
     */
    method ApplyActiveOrder(tableId: string, lines: seq<ApiOrderLine>)
      modifies this`cartByTable
      ensures cartByTable == old(cartByTable)[tableId := LoadedCart(lines)]
      ensures forall t :: t != tableId ==> CartOf(cartByTable, t) == CartOf(old(cartByTable), t)
      ensures activeTableId != tableId ==> ActiveCart() == old(ActiveCart())
      ensures old(Valid()) && OrderWellFormed(lines) ==> Valid()
    {
      if Valid() && OrderWellFormed(lines) {
        LoadedCartWellFormed(lines);
        UpdateKeepsAllWellFormed(cartByTable, tableId, LoadedCart(lines));
      }
      cartByTable := cartByTable[tableId := LoadedCart(lines)];
    }

    /**
     * `addToCart(item)`: without an active table nothing happens; otherwise only the
     * active table's slot changes, as `AddLine` describes.
     */
    method AddToCart(item: MenuItem)
      modifies this`cartByTable
      ensures activeTableId == "" ==> cartByTable == old(cartByTable)
      ensures activeTableId != "" ==> cartByTable == old(cartByTable)[activeTableId := AddLine(old(ActiveCart()), item)]
      ensures forall t :: t != activeTableId ==> CartOf(cartByTable, t) == CartOf(old(cartByTable), t)
      ensures old(Valid()) ==> Valid()
    {
      if activeTableId == "" {
        return;
      }
      var current := CartOf(cartByTable, activeTableId);
      var idx := FindIndex(current, item.id);
      FirstIndexUnique(current, item.id, idx);
      var updated: seq<CartLine>;
      if idx >= 0 {
        updated := current[idx := current[idx].(qty := current[idx].qty + 1)];
      } else {
        updated := current + [CartLine(item, 1)];
      }
      AddLineByIndex(current, item, idx);
      assert updated == AddLine(current, item);
      if Valid() {
        AddLineWellFormed(current, item);
        UpdateKeepsAllWellFormed(cartByTable, activeTableId, updated);
      }
      cartByTable := cartByTable[activeTableId := updated];
    }

    /**
     * `decQty(id)`: without an active table, or when the dish is not in the active
     * cart, nothing happens; otherwise only the active slot changes, as `DecLine` describes.
     */
    method DecQty(id: string)
      modifies this`cartByTable
      ensures activeTableId == "" || IndexOf(old(ActiveCart()), id) < 0 ==> cartByTable == old(cartByTable)
      ensures activeTableId != "" ==> CartOf(cartByTable, activeTableId) == DecLine(old(ActiveCart()), id)
      ensures forall t :: t != activeTableId ==> CartOf(cartByTable, t) == CartOf(old(cartByTable), t)
      ensures old(Valid()) ==> Valid()
    {
      if activeTableId == "" {
        return;
      }
      var current := CartOf(cartByTable, activeTableId);
      var idx := FindIndex(current, id);
      FirstIndexUnique(current, id, idx);
      if idx < 0 {
        return;
      }
      var nextQty := current[idx].qty - 1;
      var updated := if nextQty <= 0 then RemoveId(current, id) else SetQty(current, id, nextQty);
      DecLineByIndex(current, id, idx, updated);
      if Valid() {
        DecLineWellFormed(current, id);
        UpdateKeepsAllWellFormed(cartByTable, activeTableId, updated);
      }
      cartByTable := cartByTable[activeTableId := updated];
    }

    /**
     * `placeOrder`'s guards: no request without an active table or with an empty
     * cart; otherwise the request carries the active table and its whole cart.
     */
    method PlaceOrder() returns (attempt: OrderAttempt)
      ensures attempt == NoTableSelected <==> activeTableId == ""
      ensures attempt == CartEmpty <==> activeTableId != "" && ActiveCart() == []
      ensures attempt.Send? ==> attempt.tableId == activeTableId && attempt.lines == ActiveCart() && attempt.lines != []
    {
      if activeTableId == "" {
        return NoTableSelected;
      }
      var cart := ActiveCart();
      if |cart| == 0 {
        return CartEmpty;
      }
      attempt := Send(activeTableId, cart);
    }

    /** The order was accepted: the tables are refetched and no cart is cleared. */
    method OrderPlaced(api: seq<ApiTable>) returns (fetchOrderFor: Option<string>)
      modifies this`tables, this`activeTableId
      ensures tables == TablesFromApi(api)
      ensures cartByTable == old(cartByTable)
      ensures old(activeTableId) != "" ==> activeTableId == old(activeTableId) && fetchOrderFor == None
    {
      fetchOrderFor := ApplyTables(api);
    }
  }

  /**
   * One table, one dish at 250: load the table (its active order is empty), add the
   * dish twice, take one back, place the order.
   */
  method EndToEndScenario() returns (afterAdds: seq<CartLine>, totalAfterAdds: int,
                                     afterDec: seq<CartLine>, totalAfterDec: int, attempt: OrderAttempt)
    ensures afterAdds == [CartLine(MenuItem("d1", "Paneer Tikka", 250, "c1"), 2)] && totalAfterAdds == 500
    ensures afterDec == [CartLine(MenuItem("d1", "Paneer Tikka", 250, "c1"), 1)] && totalAfterDec == 250
    ensures attempt == Send("t1", afterDec)
  {
    var s := new Session();
    var fetch := s.ApplyTables([ApiTable("t1", "01", Some(false))]);
    assert fetch == Some("t1");
    s.ApplyActiveOrder("t1", []);
    s.ApplyDishes([ApiDish("d1", "Paneer Tikka", 250, "c1", Some(true))]);
    var d1 := MenuItem("d1", "Paneer Tikka", 250, "c1");
    AddTwiceDecOnce(d1);
    assert s.ActiveCart() == [];
    s.AddToCart(d1);
    assert s.ActiveCart() == [CartLine(d1, 1)];
    s.AddToCart(d1);
    afterAdds := s.ActiveCart();
    totalAfterAdds := Total(afterAdds);
    s.DecQty("d1");
    afterDec := s.ActiveCart();
    totalAfterDec := Total(afterDec);
    attempt := s.PlaceOrder();
  }

  /**
   * Select t1, then t2 before t1's active order arrives, add a dish on t2, and let
   * t1's order arrive: it lands in t1's slot and the displayed t2 cart is untouched.
   */
  method StaleFetchScenario(t1Lines: seq<ApiOrderLine>) returns (displayed: seq<CartLine>, t1Cart: seq<CartLine>)
    ensures displayed == [CartLine(MenuItem("d1", "Paneer Tikka", 250, "c1"), 1)]
    ensures t1Cart == LoadedCart(t1Lines)
  {
    var s := new Session();
    var f1 := s.SelectTable("t1");
    var f2 := s.SelectTable("t2");
    assert f1 == Some("t1") && f2 == Some("t2");
    s.ApplyActiveOrder("t2", []);
    s.AddToCart(MenuItem("d1", "Paneer Tikka", 250, "c1"));
    s.ApplyActiveOrder("t1", t1Lines);
    displayed := s.ActiveCart();
    t1Cart := CartOf(s.cartByTable, "t1");
  }
}
