/**
 * The item records of the checkout: what the client posts for each cart item
 * (to both checkout steps), and the record the payment step stores in the
 * payment intent's `items` metadata for the webhook to read back.
 */
module CheckoutItems {
  import opened Wrappers
  import opened JsStrings
  import Cart

  /** One entry of the request's `items` array. */
  datatype RequestItem = RequestItem(id: string, title: string, price: Cart.Num, key: Option<string>)

  /** `sha256(JSON.stringify(items))` as hex: an opaque deterministic function of the items. */
  type ItemsHash = seq<RequestItem> -> string

  /** One entry of the intent's `items` metadata: the storage key is always filled in. */
  datatype MetaItem = MetaItem(id: string, title: string, price: Cart.Num, key: string)

  /** `{ id, title, price, key: item.key || item.id }` */
  function MetaItemOf(item: RequestItem): MetaItem {
    MetaItem(item.id, item.title, item.price, Or(item.key, item.id))
  }

  /** `items.map(...)`: one metadata record per posted item, in order, keeping id, title and price,
      with the item's own key when it is non-empty and its id otherwise. */
  function MetaItems(items: seq<RequestItem>): (r: seq<MetaItem>)
    ensures |r| == |items|
    ensures forall i :: 0 <= i < |items| ==>
              && r[i].id == items[i].id && r[i].title == items[i].title && r[i].price == items[i].price
              && (Truthy(items[i].key) ==> r[i].key == items[i].key.value)
              && (!Truthy(items[i].key) ==> r[i].key == items[i].id)
  {
    seq(|items|, i requires 0 <= i < |items| => MetaItemOf(items[i]))
  }
}
