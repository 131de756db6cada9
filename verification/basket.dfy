/**
 The shopping basket: a map from book id to requested quantity, changed by the
 single-book page (set a quantity) and the remove route, and read by the basket
 page, which prices every entry whose book is still in the catalog.

 Prices are whole cents, so rounding the total to two decimals changes nothing.
 */
module ShoppingBasket {

  datatype Option<T> = None | Some(value: T)

  /** A row of the `books` table; `price` is in cents. */
  datatype Book = Book(
    id: int,
    title: string,
    description: string,
    price: int,
    cover: string,
    environmentalImpact: int)

  /** The catalog as the basket page sees it: lookup of a book by primary key. */
  type Catalog = map<int, Book>

  type Basket = map<int, int>

  /** One line of the basket page: the resolved book and its quantity. */
  datatype BasketLine = BasketLine(book: Book, quantity: int)

  /** Every book is stored under its own id, as a primary-key lookup guarantees. */
  predicate Keyed(catalog: Catalog) {
    forall id :: id in catalog ==> catalog[id].id == id
  }

  /** Submitting a quantity on a book's page: the entry for `id` is inserted or overwritten. */
  function SetQuantity(basket: Basket, id: int, quantity: int): (r: Basket)
    ensures id in r && r[id] == quantity
    ensures r.Keys == basket.Keys + {id}
    ensures forall k :: k in basket && k != id ==> r[k] == basket[k]
  {
    basket[id := quantity]
  }

  /** The remove route: the entry for `id` is deleted if present; otherwise nothing happens. */
  function Remove(basket: Basket, id: int): (r: Basket)
    ensures r.Keys == basket.Keys - {id}
    ensures forall k :: k in r ==> r[k] == basket[k]
    ensures id !in basket ==> r == basket
  {
    if id in basket then basket - {id} else basket
  }

  /** What one entry adds to the total: its price times its quantity, or nothing for an unknown id. */
  function LineTotal(catalog: Catalog, id: int, quantity: int): int {
    if id in catalog then catalog[id].price * quantity else 0
  }

  /** A set of ids is empty exactly when nothing is in it. */
  lemma NoneInEmpty(ids: set<int>)
    ensures ids == {} <==> forall id :: id !in ids
  {
    if forall id :: id !in ids {
      assert ids == {};
    }
  }

  /** The sum of all line totals, taking the entries in an arbitrary order. */
  ghost function Subtotal(catalog: Catalog, basket: Basket): int
    decreases |basket|
  {
    if basket.Keys == {} then 0
    else
      NoneInEmpty(basket.Keys);
      var id :| id in basket.Keys;
      assert (basket - {id}).Keys == basket.Keys - {id};
      LineTotal(catalog, id, basket[id]) + Subtotal(catalog, basket - {id})
  }

  /** The total the basket page shows: absent instead of zero. */
  ghost function Total(catalog: Catalog, basket: Basket): Option<int> {
    var s := Subtotal(catalog, basket);
    if s == 0 then None else Some(s)
  }

  /** The entries whose ids resolve in the catalog. */
  function Known(catalog: Catalog, basket: Basket): (r: Basket)
    ensures r.Keys == basket.Keys * catalog.Keys
    ensures forall id :: id in r ==> r[id] == basket[id]
  {
    map id | id in basket && id in catalog :: basket[id]
  }

  /** The ids of the books listed on the basket page. */
  function LineIds(lines: seq<BasketLine>): set<int> {
    set i | 0 <= i < |lines| :: lines[i].book.id
  }

  /** Every line shows a book of the catalog with the quantity the basket holds for it. */
  predicate LinesAgree(catalog: Catalog, basket: Basket, lines: seq<BasketLine>) {
    forall i :: 0 <= i < |lines| ==>
      var id := lines[i].book.id;
      id in basket && id in catalog && lines[i] == BasketLine(catalog[id], basket[id])
  }

  /** No book is listed twice. */
  predicate Distinct(lines: seq<BasketLine>) {
    forall i, j :: 0 <= i < j < |lines| ==> lines[i].book.id != lines[j].book.id
  }

  /** Listing one more resolved entry keeps the lines in agreement with the basket and free of repeats. */
  lemma AppendLine(catalog: Catalog, basket: Basket, lines: seq<BasketLine>, id: int)
    requires Keyed(catalog)
    requires id in basket && id in catalog && id !in LineIds(lines)
    requires LinesAgree(catalog, basket, lines) && Distinct(lines)
    ensures var extended := lines + [BasketLine(catalog[id], basket[id])];
      LinesAgree(catalog, basket, extended) && Distinct(extended) &&
      LineIds(extended) == LineIds(lines) + {id}
  {
    var extended := lines + [BasketLine(catalog[id], basket[id])];
    assert extended[|lines|].book.id == id;
    forall k | k in LineIds(lines)
      ensures k in LineIds(extended)
    {
      var i :| 0 <= i < |lines| && lines[i].book.id == k;
      assert extended[i] == lines[i];
    }
    forall i, j | 0 <= i < j < |extended|
      ensures extended[i].book.id != extended[j].book.id
    {
      if j == |lines| {
        assert lines[i].book.id in LineIds(lines);
      }
    }
  }

  /**
   The basket page: walks the entries in whatever order the map yields them,
   collecting a line for each resolved book and summing price times quantity.
   */
  method ViewBasket(catalog: Catalog, basket: Basket) returns (lines: seq<BasketLine>, total: Option<int>)
    requires Keyed(catalog)
    ensures LinesAgree(catalog, basket, lines)
    ensures forall id :: id in LineIds(lines) <==> id in basket && id in catalog
    ensures Distinct(lines)
    ensures total == Total(catalog, basket)
  {
    var remaining := basket;
    var sum := 0;
    lines := [];
    while remaining.Keys != {}
      invariant forall id :: id in remaining ==> id in basket && remaining[id] == basket[id]
      invariant sum + Subtotal(catalog, remaining) == Subtotal(catalog, basket)
      invariant LinesAgree(catalog, basket, lines)
      invariant forall k :: k in LineIds(lines) <==> k in basket && k !in remaining && k in catalog
      invariant Distinct(lines)
      decreases |remaining|
    {
      NoneInEmpty(remaining.Keys);
      var id :| id in remaining.Keys;
      var quantity := remaining[id];
      SubtotalPick(catalog, remaining, id);
      if id in catalog {
        var book := catalog[id];
        sum := sum + book.price * quantity;
        AppendLine(catalog, basket, lines, id);
        lines := lines + [BasketLine(book, quantity)];
      }
      assert (remaining - {id}).Keys == remaining.Keys - {id};
      remaining := remaining - {id};
    }
    total := if sum == 0 then None else Some(sum);
  }

  // ---------------------------------------------------------------------------
  // The total does not depend on the order of the entries
  // ---------------------------------------------------------------------------

  lemma RemoveShrinks(basket: Basket, id: int)
    requires id in basket
    ensures |basket - {id}| == |basket| - 1
  {
    assert (basket - {id}).Keys == basket.Keys - {id};
  }

  lemma RemoveSwap(basket: Basket, a: int, b: int)
    ensures (basket - {a}) - {b} == (basket - {b}) - {a}
  {
  }

  /** Any entry may be taken first: the subtotal is that entry's line total plus the rest. */
  lemma {:induction false} SubtotalPick(catalog: Catalog, basket: Basket, id: int)
    requires id in basket
    ensures Subtotal(catalog, basket) == LineTotal(catalog, id, basket[id]) + Subtotal(catalog, basket - {id})
    decreases |basket|
  {
    var first :| first in basket &&
      Subtotal(catalog, basket) == LineTotal(catalog, first, basket[first]) + Subtotal(catalog, basket - {first});
    if first != id {
      var withoutFirst, withoutId := basket - {first}, basket - {id};
      RemoveShrinks(basket, first);
      RemoveShrinks(basket, id);
      assert id in withoutFirst && withoutFirst[id] == basket[id];
      assert first in withoutId && withoutId[first] == basket[first];
      SubtotalPick(catalog, withoutFirst, id);
      SubtotalPick(catalog, withoutId, first);
      RemoveSwap(basket, first, id);
    }
  }

  lemma KnownWithout(catalog: Catalog, basket: Basket, id: int)
    ensures Known(catalog, basket - {id}) == Known(catalog, basket) - {id}
    ensures id !in catalog ==> Known(catalog, basket) - {id} == Known(catalog, basket)
  {
  }

  /** Entries whose book is not in the catalog contribute nothing. */
  lemma {:induction false} SubtotalIgnoresUnknown(catalog: Catalog, basket: Basket)
    ensures Subtotal(catalog, basket) == Subtotal(catalog, Known(catalog, basket))
    decreases |basket|
  {
    if basket.Keys != {} {
      NoneInEmpty(basket.Keys);
      var id :| id in basket.Keys;
      var rest := basket - {id};
      SubtotalPick(catalog, basket, id);
      assert rest.Keys == basket.Keys - {id};
      SubtotalIgnoresUnknown(catalog, rest);
      KnownWithout(catalog, basket, id);
      if id in catalog {
        SubtotalPick(catalog, Known(catalog, basket), id);
      }
    }
  }

  lemma EmptyBasketHasNoTotal(catalog: Catalog)
    ensures Total(catalog, map[]) == None
  {
  }

  /** A basket none of whose ids resolve has no total. */
  lemma UnknownBooksHaveNoTotal(catalog: Catalog, basket: Basket)
    requires basket.Keys * catalog.Keys == {}
    ensures Total(catalog, basket) == None
  {
    SubtotalIgnoresUnknown(catalog, basket);
    assert Known(catalog, basket) == map[];
  }

  predicate PositivePrices(catalog: Catalog) {
    forall id :: id in catalog ==> catalog[id].price > 0
  }

  predicate PositiveQuantities(basket: Basket) {
    forall id :: id in basket ==> basket[id] > 0
  }

  lemma {:induction false} SubtotalPositive(catalog: Catalog, basket: Basket)
    requires PositivePrices(catalog) && PositiveQuantities(basket)
    ensures Subtotal(catalog, basket) >= 0
    ensures basket.Keys * catalog.Keys != {} ==> Subtotal(catalog, basket) > 0
    decreases |basket|
  {
    if basket.Keys != {} {
      NoneInEmpty(basket.Keys);
      var id :| id in basket.Keys;
      SubtotalPick(catalog, basket, id);
      assert (basket - {id}).Keys == basket.Keys - {id};
      SubtotalPositive(catalog, basket - {id});
      if id in catalog {
        assert LineTotal(catalog, id, basket[id]) > 0;
      } else if basket.Keys * catalog.Keys != {} {
        NoneInEmpty(basket.Keys * catalog.Keys);
        var k :| k in basket.Keys * catalog.Keys;
        assert k in (basket - {id}).Keys * catalog.Keys;
      }
    }
  }

  /**
   With positive prices and quantities, the total is absent exactly when no
   entry resolves in the catalog.
   */
  lemma TotalAbsentIff(catalog: Catalog, basket: Basket)
    requires PositivePrices(catalog) && PositiveQuantities(basket)
    ensures Total(catalog, basket) == None <==> basket.Keys * catalog.Keys == {}
  {
    SubtotalPositive(catalog, basket);
    if basket.Keys * catalog.Keys == {} {
      UnknownBooksHaveNoTotal(catalog, basket);
    }
  }

  // ---------------------------------------------------------------------------
  // How the basket operations move the total, and how they compose
  // ---------------------------------------------------------------------------

  /** Setting a quantity replaces that entry's old line total with the new one. */
  lemma SubtotalAfterSet(catalog: Catalog, basket: Basket, id: int, quantity: int)
    ensures Subtotal(catalog, SetQuantity(basket, id, quantity)) ==
      Subtotal(catalog, Remove(basket, id)) + LineTotal(catalog, id, quantity)
  {
    var b := SetQuantity(basket, id, quantity);
    SubtotalPick(catalog, b, id);
    assert b - {id} == Remove(basket, id);
  }

  /** Removing an entry takes exactly its line total off the subtotal. */
  lemma SubtotalAfterRemove(catalog: Catalog, basket: Basket, id: int)
    ensures Subtotal(catalog, Remove(basket, id)) ==
      Subtotal(catalog, basket) - (if id in basket then LineTotal(catalog, id, basket[id]) else 0)
  {
    if id in basket {
      SubtotalPick(catalog, basket, id);
    }
  }

  /**
   A quantity submitted for an id the catalog does not know is stored all the
   same, but the total is what it would be without that entry.
   */
  lemma UnknownIdStoredButNotPriced(catalog: Catalog, basket: Basket, id: int, quantity: int)
    requires id !in catalog
    ensures id in SetQuantity(basket, id, quantity)
    ensures Total(catalog, SetQuantity(basket, id, quantity)) == Total(catalog, Remove(basket, id))
  {
    SubtotalAfterSet(catalog, basket, id, quantity);
  }

  /** Two copies of a 12.50 book and one 8.99 book, plus an entry for a book that no longer exists. */
  lemma SampleBasketTotal()
    ensures Total(
      map[1 := Book(1, "Dune", "", 1250, "dune.jpg", 3), 2 := Book(2, "Emma", "", 899, "emma.jpg", 1)],
      map[1 := 2, 2 := 1, 7 := 3]) == Some(3399)
  {
    var catalog := map[1 := Book(1, "Dune", "", 1250, "dune.jpg", 3), 2 := Book(2, "Emma", "", 899, "emma.jpg", 1)];
    var basket := map[1 := 2, 2 := 1, 7 := 3];
    SubtotalPick(catalog, basket, 7);
    assert basket - {7} == map[1 := 2, 2 := 1];
    SubtotalPick(catalog, map[1 := 2, 2 := 1], 2);
    assert map[1 := 2, 2 := 1] - {2} == map[1 := 2];
    SubtotalPick(catalog, map[1 := 2], 1);
    assert map[1 := 2] - {1} == map[];
  }

  /** A second quantity for the same book replaces the first rather than adding to it. */
  lemma SetOverwrites(basket: Basket, id: int, q1: int, q2: int)
    ensures SetQuantity(SetQuantity(basket, id, q1), id, q2) == SetQuantity(basket, id, q2)
  {
  }

  /** Quantities set for different books do not interfere. */
  lemma SetCommutes(basket: Basket, a: int, qa: int, b: int, qb: int)
    requires a != b
    ensures SetQuantity(SetQuantity(basket, a, qa), b, qb) == SetQuantity(SetQuantity(basket, b, qb), a, qa)
  {
  }

  lemma RemoveIdempotent(basket: Basket, id: int)
    ensures Remove(Remove(basket, id), id) == Remove(basket, id)
  {
  }

  /** Removing a book undoes setting it, whatever quantity was set. */
  lemma RemoveAfterSet(basket: Basket, id: int, quantity: int)
    ensures Remove(SetQuantity(basket, id, quantity), id) == Remove(basket, id)
  {
  }
}
