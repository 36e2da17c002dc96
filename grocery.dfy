/** Grocery stock (backend/controllers/groceryController.js over
    backend/models/Grocery.js): a POST adds its quantity to the item of that
    name, or creates the item. The handler has no try/catch, so a document
    the schema refuses leaves the request Unhandled. */
module Grocery {
  import opened Base

  datatype Item = Item(id: Id, itemName: string, currentStock: real, unit: string, minStockLevel: real, lastUpdated: int)

  function IdOf(g: Item): Id { g.id }

  function NameOf(g: Item): string { g.itemName }

  datatype StockRequest = StockRequest(itemName: string, quantity: NumberInput, unit: string, minStockLevel: NumberInput)

  const DEFAULT_MIN_STOCK := 5.0

  /** updateStock: the named item with `Number(quantity)` added and
      `lastUpdated` set to now, its unit and alert level untouched; or a new
      item holding the quantity (0 when absent) and the given unit and
      alert level (5 when absent). There is no sign check. Both answer 201. */
  function StockOutcome(items: seq<Item>, req: StockRequest, id: Id, now: int): (r: Outcome<Item>)
    ensures !r.Fail?
    ensures var i := KeyIndex(items, NameOf, req.itemName);
      (i >= 0 ==>
        (r.Done? <==> req.quantity.Num?)
        && (r.Done? ==> r.value == Restocked(items[i], req.quantity.value, now)))
      && (i < 0 ==>
        (r.Done? <==> req.itemName != "" && req.unit != "" && !req.quantity.NotANumber? && !req.minStockLevel.NotANumber?)
        && (r.Done? ==>
              r.value.id == id && r.value.itemName == req.itemName && r.value.unit == req.unit
              && r.value.lastUpdated == now
              && r.value.currentStock == (if req.quantity.Num? then req.quantity.value else 0.0)
              && r.value.minStockLevel == (if req.minStockLevel.Num? then req.minStockLevel.value else DEFAULT_MIN_STOCK)))
  {
    var i := KeyIndex(items, NameOf, req.itemName);
    if i >= 0 then
      match req.quantity
      case Num(q) => Done(Restocked(items[i], q, now))
      case _ => Unhandled
    else if req.itemName == "" || req.unit == "" || req.quantity.NotANumber? || req.minStockLevel.NotANumber? then Unhandled
    else
      var stock := if req.quantity.Num? then req.quantity.value else 0.0;
      var level := if req.minStockLevel.Num? then req.minStockLevel.value else DEFAULT_MIN_STOCK;
      Done(Item(id, req.itemName, stock, req.unit, level, now))
  }

  /** The item with `q` more in stock, updated at `now`; its id, name, unit
      and minimum level are kept. */
  function Restocked(g: Item, q: real, now: int): (r: Item)
    ensures r.currentStock == g.currentStock + q && r.lastUpdated == now
    ensures r.id == g.id && r.itemName == g.itemName && r.unit == g.unit && r.minStockLevel == g.minStockLevel
  {
    g.(currentStock := g.currentStock + q, lastUpdated := now)
  }

  /** Two restocks are one of the summed quantity, at the later time. */
  lemma RestockedTwice(g: Item, q1: real, q2: real, now1: int, now2: int)
    ensures Restocked(Restocked(g, q1, now1), q2, now2) == Restocked(g, q1 + q2, now2)
  {
  }

  /** The collection after updateStock. */
  function AfterStock(items: seq<Item>, req: StockRequest, id: Id, now: int): (r: seq<Item>)
    ensures !StockOutcome(items, req, id, now).Done? ==> r == items
    ensures StockOutcome(items, req, id, now).Done? ==>
      StockOutcome(items, req, id, now).value in r
      && |r| == (if req.itemName in KeySet(items, NameOf) then |items| else |items| + 1)
    ensures forall j :: 0 <= j < |items| && items[j].itemName != req.itemName ==> r[j] == items[j]
  {
    var i := KeyIndex(items, NameOf, req.itemName);
    match StockOutcome(items, req, id, now)
    case Done(g) => if i >= 0 then assert items[i := g][i] == g; items[i := g] else items + [g]
    case _ => items
  }

  /** Names stay unique: a request either updates the item of its name or
      adds the first item of that name. */
  lemma StockKeepsNamesUnique(items: seq<Item>, req: StockRequest, id: Id, now: int)
    requires KeysUnique(items, NameOf)
    ensures KeysUnique(AfterStock(items, req, id, now), NameOf)
  {
    var i := KeyIndex(items, NameOf, req.itemName);
    match StockOutcome(items, req, id, now)
    case Done(g) =>
      if i >= 0 {
        ReplaceKeysUnique(items, NameOf, i, g);
      } else {
        AppendKeysUnique(items, NameOf, g);
      }
    case _ =>
  }

  /** Adding q1 and then q2 to an existing item leaves it as adding q1 + q2
      once (at the later time). */
  lemma StockAccumulates(items: seq<Item>, name: string, q1: real, q2: real, unit: string, level: NumberInput,
                         id1: Id, id2: Id, now1: int, now2: int)
    requires KeysUnique(items, NameOf) && name in KeySet(items, NameOf)
    ensures AfterStock(AfterStock(items, StockRequest(name, Num(q1), unit, level), id1, now1),
                       StockRequest(name, Num(q2), unit, level), id2, now2)
         == AfterStock(items, StockRequest(name, Num(q1 + q2), unit, level), id1, now2)
  {
    var i := KeyIndex(items, NameOf, name);
    var mid := AfterStock(items, StockRequest(name, Num(q1), unit, level), id1, now1);
    StockKnown(items, name, q1, unit, level, id1, now1, i);
    assert mid == items[i := Restocked(items[i], q1, now1)];
    StockAgain(items, name, q1, q2, unit, level, id2, now1, now2, i);
    StockKnown(items, name, q1 + q2, unit, level, id1, now2, i);
  }

  /** The second request, on the collection the first one left. */
  lemma StockAgain(items: seq<Item>, name: string, q1: real, q2: real, unit: string, level: NumberInput,
                   id2: Id, now1: int, now2: int, i: int)
    requires KeysUnique(items, NameOf) && i == KeyIndex(items, NameOf, name) && i >= 0
    ensures AfterStock(items[i := Restocked(items[i], q1, now1)], StockRequest(name, Num(q2), unit, level), id2, now2)
            == items[i := Restocked(items[i], q1 + q2, now2)]
  {
    var g := Restocked(items[i], q1, now1);
    var mid := items[i := g];
    ReplaceKeysUnique(items, NameOf, i, g);
    KeyIndexUnique(mid, NameOf, i);
    StockKnown(mid, name, q2, unit, level, id2, now2, i);
    RestockedTwice(items[i], q1, q2, now1, now2);
    assert mid[i := Restocked(g, q2, now2)] == items[i := Restocked(items[i], q1 + q2, now2)];
  }

  /** A numeric quantity for an item of that name at position `i` adds to
      that item alone. */
  lemma StockKnown(items: seq<Item>, name: string, q: real, unit: string, level: NumberInput, id: Id, now: int, i: int)
    requires i == KeyIndex(items, NameOf, name) && i >= 0
    ensures AfterStock(items, StockRequest(name, Num(q), unit, level), id, now)
            == items[i := Restocked(items[i], q, now)]
  {
  }

  /** A negative quantity takes stock away: nothing stops the stock from
      going below zero. */
  lemma NegativeQuantityDrains(items: seq<Item>, name: string, q: real, unit: string, level: NumberInput, id: Id, now: int)
    requires KeysUnique(items, NameOf) && name in KeySet(items, NameOf) && q < 0.0
    ensures var i := KeyIndex(items, NameOf, name);
      var after := AfterStock(items, StockRequest(name, Num(q), unit, level), id, now);
      |after| == |items| && after[i].currentStock < items[i].currentStock
      && (items[i].currentStock < -q ==> after[i].currentStock < 0.0)
  {
  }

  /** The Grocery collection; getGroceries returns `items` as it is. */
  class GroceryStore {
    var items: seq<Item>

    ghost predicate Valid()
      reads this
    {
      KeysUnique(items, IdOf) && KeysUnique(items, NameOf)
    }

    constructor ()
      ensures Valid() && items == []
    {
      items := [];
    }

    /** updateStock; `id` is the fresh id a new item gets. */
    method UpdateStock(req: StockRequest, id: Id, now: int) returns (out: Outcome<Item>)
      requires Valid() && id !in KeySet(items, IdOf)
      modifies this
      ensures Valid()
      ensures out == StockOutcome(old(items), req, id, now)
      ensures items == AfterStock(old(items), req, id, now)
    {
      out := StockOutcome(items, req, id, now);
      var i := KeyIndex(items, NameOf, req.itemName);
      StockKeepsNamesUnique(items, req, id, now);
      if out.Done? {
        if i >= 0 {
          ReplaceKeysUnique(items, IdOf, i, out.value);
          items := items[i := out.value];
        } else {
          AppendKeysUnique(items, IdOf, out.value);
          items := items + [out.value];
        }
      }
    }
  }
}
