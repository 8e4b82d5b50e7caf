/** The order store: the records of placed orders (`active_orders`) and the
    stop-loss watches (`stop_loss_orders`), both keyed by order id, plus the
    shapes of the messages exchanged with the broker. */
module Orders {
  import opened Wrappers
  import opened OrderedMap
  import Registry

  type OrderId = string

  type Token = Registry.Token

  /** A price in the smallest currency unit. */
  type Price = int

  /** The body of a place-order request. */
  datatype Payload = Payload(
    quantity: int,
    product: string,
    validity: string,
    price: Price,
    tag: string,
    token: Token,
    orderType: string,
    transactionType: string,
    disclosedQuantity: int,
    triggerPrice: Price,
    isAmo: bool)

  /** A broker response that parsed as JSON; `orderId` is its `data.order_id`
      when the response carries one. */
  datatype Reply = Reply(orderId: Option<string>)

  /** An entry of `active_orders`. */
  datatype OrderRecord = OrderRecord(
    symbol: string,
    token: Token,
    transactionType: string,
    quantity: int,
    price: Price,
    orderType: string,
    product: string,
    time: string,
    status: string,
    response: Reply,
    credential: string)

  /** An entry of `stop_loss_orders`: the position bought by the order with the
      same id, to be sold once the price falls to `stopLoss`. */
  datatype Watch = Watch(
    symbol: string,
    token: Token,
    quantity: int,
    product: string,
    stopLoss: Price,
    buyPrice: Price,
    credential: string)

  datatype Store = Store(orders: map<OrderId, OrderRecord>, watches: Dict<OrderId, Watch>)

  /** The only status the ingestion pipeline ever writes. */
  const StatusPlaced: string := "placed"

  function EmptyStore(): (s: Store)
    ensures Inv(s)
  {
    Store(map[], Empty())
  }

  /** What ingestion and the monitor keep true of the store: the watch dict is
      well formed, every watch belongs to a recorded order, and every watch has
      a non-zero instrument token (so the monitor groups it). */
  ghost predicate Inv(s: Store) {
    && Valid(s.watches)
    && s.watches.entries.Keys <= s.orders.Keys
    && forall id :: id in s.watches.entries ==> s.watches.entries[id].token != 0
  }
}
