/**
 * The shopping cart held in the client's React context (app/context/CartContext.tsx).
 *
 * Each state update of the context is a function from the previous cart to the
 * next one, so the cart is modelled on values. Prices are numbers in the
 * source; here a price is a whole number of cents, or `NaN` when the catalog
 * could not parse one (see FullCatalog), and NaN spreads through the total as
 * it does in JavaScript arithmetic.
 */
module Cart {

  /** A JavaScript number as the cart sees it: NaN, or a whole number (cents for prices). */
  datatype Num = NaN | Val(v: int)

  function Plus(a: Num, b: Num): Num {
    if a.NaN? || b.NaN? then NaN else Val(a.v + b.v)
  }

  function Times(a: Num, k: int): Num {
    if a.NaN? then NaN else Val(a.v * k)
  }

  datatype Note = Note(
    id: string,
    title: string,
    description: string,
    topics: seq<string>,
    pages: Num,
    price: Num,
    preview: string,
    rating: int,
    reviews: int,
    key: string)

  datatype CartItem = CartItem(note: Note, quantity: nat)

  /** Some item of the cart carries `id`. */
  predicate IsInCart(cart: seq<CartItem>, id: string) {
    exists i :: 0 <= i < |cart| && cart[i].note.id == id
  }

  /** No two items carry the same id. */
  predicate UniqueIds(cart: seq<CartItem>) {
    forall i, j :: 0 <= i < j < |cart| ==> cart[i].note.id != cart[j].note.id
  }

  /** The items carrying `id` get one more copy; the others stay as they are. */
  function Bump(cart: seq<CartItem>, id: string): (r: seq<CartItem>)
    ensures |r| == |cart|
    ensures forall i :: 0 <= i < |cart| ==>
              r[i] == if cart[i].note.id == id then cart[i].(quantity := cart[i].quantity + 1) else cart[i]
  {
    seq(|cart|, i requires 0 <= i < |cart| =>
      if cart[i].note.id == id then cart[i].(quantity := cart[i].quantity + 1) else cart[i])
  }

  /** `addToCart`: one more copy of a note already there, or the note appended with quantity 1. */
  function AddToCart(cart: seq<CartItem>, note: Note): (r: seq<CartItem>)
    ensures IsInCart(r, note.id)
    ensures !IsInCart(cart, note.id) ==> r == cart + [CartItem(note, 1)]
    ensures IsInCart(cart, note.id) ==> r == Bump(cart, note.id)
  {
    if IsInCart(cart, note.id) then
      var i :| 0 <= i < |cart| && cart[i].note.id == note.id;
      assert Bump(cart, note.id)[i].note.id == note.id;
      Bump(cart, note.id)
    else
      assert (cart + [CartItem(note, 1)])[|cart|].note.id == note.id;
      cart + [CartItem(note, 1)]
  }

  /** `removeFromCart`: the items not carrying `id`, in their order. */
  function RemoveFromCart(cart: seq<CartItem>, id: string): (r: seq<CartItem>)
    ensures |r| <= |cart|
    ensures forall i :: 0 <= i < |r| ==> r[i].note.id != id
    ensures forall x :: x in r <==> x in cart && x.note.id != id
    decreases |cart|
  {
    if cart == [] then []
    else
      var last := cart[|cart| - 1];
      assert cart == cart[..|cart| - 1] + [last];
      RemoveFromCart(cart[..|cart| - 1], id) + (if last.note.id != id then [last] else [])
  }

  /** `clearCart` */
  function ClearCart(): seq<CartItem> {
    []
  }

  /** `getCartTotal`: the left fold of price times quantity, from zero. */
  function CartTotal(cart: seq<CartItem>): Num
    decreases |cart|
  {
    if cart == [] then Val(0)
    else
      var last := cart[|cart| - 1];
      Plus(CartTotal(cart[..|cart| - 1]), Times(last.note.price, last.quantity))
  }

  /** `getCartCount`: the sum of the quantities. */
  function CartCount(cart: seq<CartItem>): int
    decreases |cart|
  {
    if cart == [] then 0 else CartCount(cart[..|cart| - 1]) + cart[|cart| - 1].quantity
  }

  /** The number of copies of the note `id` in the cart. */
  function CopiesOf(cart: seq<CartItem>, id: string): nat
    decreases |cart|
  {
    if cart == [] then 0
    else
      var last := cart[|cart| - 1];
      CopiesOf(cart[..|cart| - 1], id) + (if last.note.id == id then last.quantity else 0)
  }

  /** The sum of the prices of the items carrying `id`, once each. */
  function PriceOf(cart: seq<CartItem>, id: string): Num
    decreases |cart|
  {
    if cart == [] then Val(0)
    else
      var last := cart[|cart| - 1];
      Plus(PriceOf(cart[..|cart| - 1], id), if last.note.id == id then last.note.price else Val(0))
  }

  /** The number of items carrying `id`. */
  function ItemsWith(cart: seq<CartItem>, id: string): nat
    decreases |cart|
  {
    if cart == [] then 0
    else ItemsWith(cart[..|cart| - 1], id) + (if cart[|cart| - 1].note.id == id then 1 else 0)
  }

  // ------------------------------------------------------------------ lemmas

  lemma BumpPrefix(cart: seq<CartItem>, id: string, k: nat)
    requires k <= |cart|
    ensures Bump(cart, id)[..k] == Bump(cart[..k], id)
  {
  }

  /** Adding a copy of a note raises the count by one per item carrying its id. */
  lemma {:induction false} BumpCount(cart: seq<CartItem>, id: string)
    ensures CartCount(Bump(cart, id)) == CartCount(cart) + ItemsWith(cart, id)
    decreases |cart|
  {
    if cart != [] {
      var n := |cart| - 1;
      BumpPrefix(cart, id, n);
      BumpCount(cart[..n], id);
    }
  }

  lemma PlusShuffle(a: Num, b: Num, c: Num, d: Num)
    ensures Plus(Plus(a, b), Plus(c, d)) == Plus(Plus(a, c), Plus(b, d))
  {
  }

  lemma TimesSucc(p: Num, q: nat)
    ensures Times(p, q + 1) == Plus(Times(p, q), p)
  {
    if p.Val? {
      assert p.v * (q + 1) == p.v * q + p.v;
    }
  }

  /** ... and the total by the price of each such item. */
  lemma {:induction false} BumpTotal(cart: seq<CartItem>, id: string)
    ensures CartTotal(Bump(cart, id)) == Plus(CartTotal(cart), PriceOf(cart, id))
    decreases |cart|
  {
    if cart != [] {
      var n := |cart| - 1;
      var b := Bump(cart, id);
      var last := cart[n];
      BumpPrefix(cart, id, n);
      BumpTotal(cart[..n], id);
      assert CartTotal(b) == Plus(CartTotal(Bump(cart[..n], id)), Times(b[n].note.price, b[n].quantity));
      var t, p := CartTotal(cart[..n]), PriceOf(cart[..n], id);
      if last.note.id == id {
        TimesSucc(last.note.price, last.quantity);
        PlusShuffle(t, p, Times(last.note.price, last.quantity), last.note.price);
      } else {
        PlusShuffle(t, p, Times(last.note.price, last.quantity), Val(0));
      }
    }
  }

  lemma {:induction false} ItemsWithUnique(cart: seq<CartItem>, id: string)
    requires UniqueIds(cart)
    ensures ItemsWith(cart, id) == if IsInCart(cart, id) then 1 else 0
    decreases |cart|
  {
    if cart != [] {
      var n := |cart| - 1;
      var prefix := cart[..n];
      assert UniqueIds(prefix);
      ItemsWithUnique(prefix, id);
      assert IsInCart(cart, id) <==> IsInCart(prefix, id) || cart[n].note.id == id by {
        if IsInCart(cart, id) {
          var i :| 0 <= i < |cart| && cart[i].note.id == id;
          if i < n {
            assert prefix[i] == cart[i];
          }
        }
        if IsInCart(prefix, id) {
          var i :| 0 <= i < n && prefix[i].note.id == id;
          assert cart[i] == prefix[i];
        }
      }
      if cart[n].note.id == id {
        forall i | 0 <= i < n ensures prefix[i].note.id != id {
          assert prefix[i] == cart[i];
        }
      }
    }
  }

  /** Adding a note to a cart with distinct ids keeps the ids distinct. */
  lemma AddKeepsIdsUnique(cart: seq<CartItem>, note: Note)
    requires UniqueIds(cart)
    ensures UniqueIds(AddToCart(cart, note))
  {
    if !IsInCart(cart, note.id) {
      var r := AddToCart(cart, note);
      forall i, j | 0 <= i < j < |r| ensures r[i].note.id != r[j].note.id {
        if j == |cart| {
          assert r[i] == cart[i];
        }
      }
    }
  }

  /** Adding a note puts exactly one more copy in the cart. */
  lemma AddCountsOne(cart: seq<CartItem>, note: Note)
    requires UniqueIds(cart)
    ensures CartCount(AddToCart(cart, note)) == CartCount(cart) + 1
  {
    if IsInCart(cart, note.id) {
      BumpCount(cart, note.id);
      ItemsWithUnique(cart, note.id);
    } else {
      assert (cart + [CartItem(note, 1)])[..|cart|] == cart;
    }
  }

  /** Adding a note adds its price once to the total: the price stored for it, or its own when new. */
  lemma AddPaysOnce(cart: seq<CartItem>, note: Note)
    ensures CartTotal(AddToCart(cart, note))
            == Plus(CartTotal(cart), if IsInCart(cart, note.id) then PriceOf(cart, note.id) else Times(note.price, 1))
  {
    if IsInCart(cart, note.id) {
      BumpTotal(cart, note.id);
    } else {
      assert (cart + [CartItem(note, 1)])[..|cart|] == cart;
    }
  }

  /** Removing the note just added to a cart that did not hold it gives back the cart. */
  lemma {:induction false} RemoveUndoesAdd(cart: seq<CartItem>, note: Note)
    requires !IsInCart(cart, note.id)
    ensures RemoveFromCart(AddToCart(cart, note), note.id) == cart
  {
    var r := cart + [CartItem(note, 1)];
    assert r[..|r| - 1] == cart;
    RemoveAll(cart, note.id);
  }

  /** Removing an id that no item carries changes nothing. */
  lemma {:induction false} RemoveAll(cart: seq<CartItem>, id: string)
    requires !IsInCart(cart, id)
    ensures RemoveFromCart(cart, id) == cart
    decreases |cart|
  {
    if cart != [] {
      var n := |cart| - 1;
      forall i | 0 <= i < n ensures cart[..n][i].note.id != id {
        assert cart[..n][i] == cart[i];
      }
      RemoveAll(cart[..n], id);
      assert cart[..n] + [cart[n]] == cart;
    }
  }

  /** The count of a cart with one more item at the end. */
  lemma CountSnoc(front: seq<CartItem>, last: CartItem)
    ensures CartCount(front + [last]) == CartCount(front) + last.quantity
  {
    assert (front + [last])[..|front|] == front;
  }

  /** Removing a note takes away exactly its copies from the count. */
  lemma {:induction false} RemoveCount(cart: seq<CartItem>, id: string)
    ensures CartCount(RemoveFromCart(cart, id)) == CartCount(cart) - CopiesOf(cart, id)
    decreases |cart|
  {
    if cart != [] {
      var n := |cart| - 1;
      var last := cart[n];
      RemoveCount(cart[..n], id);
      var front := RemoveFromCart(cart[..n], id);
      assert CartCount(cart) == CartCount(cart[..n]) + last.quantity;
      assert CopiesOf(cart, id) == CopiesOf(cart[..n], id) + (if last.note.id == id then last.quantity else 0);
      if last.note.id != id {
        assert RemoveFromCart(cart, id) == front + [last];
        CountSnoc(front, last);
      } else {
        assert RemoveFromCart(cart, id) == front;
      }
    }
  }

  /** After removal the note is no longer in the cart. */
  lemma RemoveLeavesOut(cart: seq<CartItem>, id: string)
    ensures !IsInCart(RemoveFromCart(cart, id), id)
  {
  }

  /** Removing keeps every other item and the order among them. */
  lemma {:induction false} RemoveKeepsOrder(cart: seq<CartItem>, id: string, k: nat)
    requires k <= |cart|
    ensures RemoveFromCart(cart[..k], id) <= RemoveFromCart(cart, id)
    decreases |cart| - k
  {
    if k < |cart| {
      RemoveKeepsOrder(cart, id, k + 1);
      assert cart[..k + 1][..k] == cart[..k];
    } else {
      assert cart[..k] == cart;
    }
  }

  /** Appending an item whose id no earlier item carries keeps the ids distinct. */
  lemma SnocKeepsIdsUnique(front: seq<CartItem>, last: CartItem)
    requires UniqueIds(front)
    requires forall k :: 0 <= k < |front| ==> front[k].note.id != last.note.id
    ensures UniqueIds(front + [last])
  {
    var r := front + [last];
    forall i, j | 0 <= i < j < |r| ensures r[i].note.id != r[j].note.id {
      if j < |front| {
        assert r[i] == front[i] && r[j] == front[j];
      } else {
        assert r[i] == front[i] && r[j] == last;
      }
    }
  }

  /** Removing a note from a cart with distinct ids keeps the ids distinct. */
  lemma {:induction false} RemoveKeepsIdsUnique(cart: seq<CartItem>, id: string)
    requires UniqueIds(cart)
    ensures UniqueIds(RemoveFromCart(cart, id))
    decreases |cart|
  {
    if cart != [] {
      var n := |cart| - 1;
      var last := cart[n];
      var init := cart[..n];
      assert UniqueIds(init) by {
        forall i, j | 0 <= i < j < n ensures init[i].note.id != init[j].note.id {
          assert init[i] == cart[i] && init[j] == cart[j];
        }
      }
      var front := RemoveFromCart(init, id);
      RemoveKeepsIdsUnique(init, id);
      assert cart == init + [last];
      if last.note.id != id {
        assert RemoveFromCart(cart, id) == front + [last];
        forall k | 0 <= k < |front| ensures front[k].note.id != last.note.id {
          assert front[k] in init;
          var m :| 0 <= m < n && init[m] == front[k];
          assert cart[m] == front[k];
        }
        SnocKeepsIdsUnique(front, last);
      } else {
        assert RemoveFromCart(cart, id) == front;
      }
    }
  }

  /** The updates the context offers. */
  datatype CartOp = AddOp(note: Note) | RemoveOp(id: string) | ClearOp

  function ApplyOp(cart: seq<CartItem>, op: CartOp): seq<CartItem> {
    match op
    case AddOp(note) => AddToCart(cart, note)
    case RemoveOp(id) => RemoveFromCart(cart, id)
    case ClearOp => ClearCart()
  }

  function RunOps(cart: seq<CartItem>, ops: seq<CartOp>): seq<CartItem>
    decreases |ops|
  {
    if ops == [] then cart else RunOps(ApplyOp(cart, ops[0]), ops[1..])
  }

  /** From a cart with distinct ids, the empty one among them, no sequence of updates ever puts the same
      note in two items. */
  lemma {:induction false} IdsStayUnique(cart: seq<CartItem>, ops: seq<CartOp>)
    requires UniqueIds(cart)
    ensures UniqueIds(RunOps(cart, ops))
    decreases |ops|
  {
    if ops != [] {
      match ops[0] {
        case AddOp(note) => AddKeepsIdsUnique(cart, note);
        case RemoveOp(id) => RemoveKeepsIdsUnique(cart, id);
        case ClearOp =>
      }
      IdsStayUnique(ApplyOp(cart, ops[0]), ops[1..]);
    }
  }

  /** An empty cart holds nothing and costs nothing. */
  lemma ClearEmpties(id: string)
    ensures CartCount(ClearCart()) == 0 && CartTotal(ClearCart()) == Val(0) && !IsInCart(ClearCart(), id)
  {
  }

  /** One unpriced note makes the whole total NaN; a fully priced cart has a number as its total. */
  lemma {:induction false} TotalNaNExactly(cart: seq<CartItem>)
    ensures CartTotal(cart).NaN? <==> exists i :: 0 <= i < |cart| && cart[i].note.price.NaN?
    decreases |cart|
  {
    if cart != [] {
      var n := |cart| - 1;
      TotalNaNExactly(cart[..n]);
      if exists i :: 0 <= i < n && cart[..n][i].note.price.NaN? {
        var i :| 0 <= i < n && cart[..n][i].note.price.NaN?;
        assert cart[i].note.price.NaN?;
      }
      if exists i :: 0 <= i < |cart| && cart[i].note.price.NaN? {
        var i :| 0 <= i < |cart| && cart[i].note.price.NaN?;
        if i < n {
          assert cart[..n][i].note.price.NaN?;
        }
      }
    }
  }
}
