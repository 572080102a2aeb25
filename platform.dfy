/**
 * The small stateful pieces of a multi-product platform: the inventory
 * object that reserves stock, the order endpoint that reserves before it
 * writes, the queue consumers that ack or retry each message, the room
 * object that keeps a list of sessions, and the cache-aside product lookup.
 * Storage, queues, the database and sockets are outside the model; their
 * answers arrive as parameters and their writes are recorded as effects.
 */
module Platform {
  import opened Text

  // ---------------------------------------------------------------------------
  // Inventory
  // ---------------------------------------------------------------------------

  /** `storage.get('available') || 0`: an absent count is 0. */
  function StockOf(available: Option<int>): (r: int)
    ensures available.None? ==> r == 0
    ensures r == 0 || available == Some(r)
  {
    if available.Some? then available.value else 0
  }

  /** A product whose count was never stored holds nothing: every positive reservation is refused. */
  lemma UnsetStockRefuses(quantity: int)
    requires quantity > 0
    ensures Reserve(StockOf(None), quantity) == Reservation(409, 0)
  {
  }

  datatype Reservation = Reservation(status: int, stock: int)

  /** The reservation rule on the current stock: 409 when short, otherwise 200 and `quantity` fewer. */
  function Reserve(stock: int, quantity: int): (r: Reservation)
    ensures r.status == 409 <==> stock < quantity
    ensures r.status == 200 <==> quantity <= stock
    ensures r.status == 409 ==> r.stock == stock
    ensures r.status == 200 ==> r.stock == stock - quantity && r.stock + quantity == stock
    ensures stock >= 0 ==> r.stock >= 0
  {
    if stock < quantity then Reservation(409, stock) else Reservation(200, stock - quantity)
  }

  /** Reservations one after the other never take more than the stock held: what is left is never negative. */
  lemma {:induction false} ReserveSequence(stock: int, quantities: seq<int>)
    requires stock >= 0
    ensures ReserveAll(stock, quantities) >= 0
    ensures ReserveAll(stock, quantities) == stock - Granted(stock, quantities)
    decreases |quantities|
  {
    if quantities != [] {
      ReserveSequence(Reserve(stock, quantities[0]).stock, quantities[1..]);
    }
  }

  /** The stock left after a series of reservation requests. */
  function ReserveAll(stock: int, quantities: seq<int>): int
    decreases |quantities|
  {
    if quantities == [] then stock else ReserveAll(Reserve(stock, quantities[0]).stock, quantities[1..])
  }

  /** The total quantity granted by a series of reservation requests. */
  function Granted(stock: int, quantities: seq<int>): int
    decreases |quantities|
  {
    if quantities == [] then 0
    else
      var r := Reserve(stock, quantities[0]);
      (if r.status == 200 then quantities[0] else 0) + Granted(r.stock, quantities[1..])
  }

  /** The `Inventory` durable object: its storage holds the 'available' count. */
  class Inventory {
    var available: Option<int>

    ghost predicate Valid()
      reads this
    {
      StockOf(available) >= 0
    }

    constructor(initial: Option<int>)
      requires StockOf(initial) >= 0
      ensures available == initial && Valid()
    {
      available := initial;
    }

    /**
     * `fetch`: POST `/reserve` applies the reservation rule and writes the
     * new count only on success; any other request is 404 and leaves the
     * storage alone.
     */
    method Fetch(path: string, verb: string, quantity: int) returns (status: int)
      requires Valid()
      modifies this
      ensures Valid()
      ensures !(path == "/reserve" && verb == "POST") ==> status == 404 && available == old(available)
      ensures path == "/reserve" && verb == "POST" ==>
        var r := Reserve(StockOf(old(available)), quantity);
        && status == r.status
        && available == (if r.status == 200 then Some(r.stock) else old(available))
    {
      if path == "/reserve" && verb == "POST" {
        var stock := StockOf(available);
        if stock < quantity {
          return 409;
        }
        available := Some(stock - quantity);
        return 200;
      }
      return 404;
    }
  }

  // ---------------------------------------------------------------------------
  // Orders
  // ---------------------------------------------------------------------------

  datatype Order = Order(productId: string, quantity: int, userId: string, email: string, total: real)

  /** The writes the order endpoint performs, in order. */
  datatype Effect =
    | InsertOrder(userId: string, productId: string, quantity: int, total: real)
    | SendOrderMessage(orderId: nat, userId: string, email: string)

  /**
   * `POST /orders`: reserve at the product's inventory first; an answer
   * that is not ok is 409 'Out of stock' with nothing written; otherwise the
   * order row is inserted (the database gives `orderId`), the processing
   * message is queued, and the answer is 201.
   */
  method CreateOrder(inventory: Inventory, order: Order, orderId: nat) returns (status: int, effects: seq<Effect>)
    requires inventory.Valid()
    modifies inventory
    ensures inventory.Valid()
    ensures var r := Reserve(StockOf(old(inventory.available)), order.quantity);
      && (r.status != 200 ==> status == 409 && effects == [] && inventory.available == old(inventory.available))
      && (r.status == 200 ==>
            && status == 201
            && inventory.available == Some(r.stock)
            && effects == [InsertOrder(order.userId, order.productId, order.quantity, order.total),
                           SendOrderMessage(orderId, order.userId, order.email)])
  {
    var check := inventory.Fetch("/reserve", "POST", order.quantity);
    if !(200 <= check <= 299) {
      return 409, [];
    }
    effects := [InsertOrder(order.userId, order.productId, order.quantity, order.total)];
    effects := effects + [SendOrderMessage(orderId, order.userId, order.email)];
    status := 201;
  }

  // ---------------------------------------------------------------------------
  // Queue consumers
  // ---------------------------------------------------------------------------

  /** The call made on one message: `ack()` or `retry()`. */
  datatype Decision = Ack(id: nat) | Retry(id: nat)

  /** Processing an order message: email, fulfilment and the status update, each of which can fail. */
  datatype OrderSteps = OrderSteps(emailSent: bool, fulfilled: bool, updated: bool)

  /** A failure at any step skips the rest and the message is retried. */
  function OrderProcessed(steps: OrderSteps): (ok: bool)
    ensures ok <==> steps.emailSent && steps.fulfilled && steps.updated
  {
    if !steps.emailSent then false
    else if !steps.fulfilled then false
    else steps.updated
  }

  /**
   * The `queue` handlers: one decision per message, in batch order; a
   * message that fails is retried and the loop goes on with the next.
   * `succeeded[i]` is whether processing message `i` finished.
   */
  method Consume(succeeded: seq<bool>) returns (decisions: seq<Decision>)
    ensures |decisions| == |succeeded|
    ensures forall i :: 0 <= i < |succeeded| ==> decisions[i] == (if succeeded[i] then Ack(i) else Retry(i))
  {
    decisions := [];
    for i := 0 to |succeeded|
      invariant |decisions| == i
      invariant forall j :: 0 <= j < i ==> decisions[j] == (if succeeded[j] then Ack(j) else Retry(j))
    {
      if succeeded[i] {
        decisions := decisions + [Ack(i)];
      } else {
        decisions := decisions + [Retry(i)];
      }
    }
  }

  /** The order consumer: each message's three steps decide its ack or retry. */
  method ConsumeOrders(steps: seq<OrderSteps>) returns (decisions: seq<Decision>)
    ensures |decisions| == |steps|
    ensures forall i :: 0 <= i < |steps| ==>
      (decisions[i] == Ack(i) <==> OrderProcessed(steps[i])) && (decisions[i] == Retry(i) <==> !OrderProcessed(steps[i]))
  {
    var succeeded := seq(|steps|, i requires 0 <= i < |steps| => OrderProcessed(steps[i]));
    decisions := Consume(succeeded);
  }

  // ---------------------------------------------------------------------------
  // Room sessions
  // ---------------------------------------------------------------------------

  /** The `Room` durable object, with its sessions as a list and its last stored update. */
  class Room<S(==), D> {
    var sessions: seq<S>
    var lastUpdate: Option<D>

    /** Every socket is in the list at most once. */
    ghost predicate Valid()
      reads this
    {
      NoDup(sessions)
    }

    constructor()
      ensures sessions == [] && lastUpdate == None && Valid()
    {
      sessions := [];
      lastUpdate := None;
    }

    /** `fetch`: a WebSocket upgrade adds the new server socket and answers 101; anything else is 400. */
    method Connect(upgrade: Option<string>, server: S) returns (status: int)
      requires Valid() && server !in sessions
      modifies this
      ensures Valid() && lastUpdate == old(lastUpdate)
      ensures upgrade == Some("websocket") ==> status == 101 && sessions == old(sessions) + [server]
      ensures upgrade != Some("websocket") ==> status == 400 && sessions == old(sessions)
    {
      if upgrade == Some("websocket") {
        sessions := sessions + [server];
        return 101;
      }
      return 400;
    }

    /** The 'message' listener: stores the update, then sends it to every other session in order. */
    method Broadcast(sender: S, message: D) returns (recipients: seq<S>)
      requires Valid()
      modifies this
      ensures Valid() && sessions == old(sessions) && lastUpdate == Some(message)
      ensures recipients == Without(sessions, sender)
    {
      lastUpdate := Some(message);
      var list := sessions;
      recipients := [];
      for i := 0 to |list|
        invariant sessions == list && lastUpdate == Some(message)
        invariant recipients == Without(list[..i], sender)
      {
        assert list[..i + 1] == list[..i] + [list[i]];
        WithoutAppend(list[..i], [list[i]], sender);
        if list[i] != sender {
          recipients := recipients + [list[i]];
        }
      }
      assert list[..|list|] == list;
    }

    /** The 'close' listener: `sessions.filter(s => s !== server)`. */
    method Close(server: S)
      requires Valid()
      modifies this
      ensures Valid() && lastUpdate == old(lastUpdate)
      ensures sessions == Without(old(sessions), server)
    {
      sessions := Without(sessions, server);
      WithoutNoDup(old(sessions), server);
    }
  }

  /** Removing keeps the list free of repeats. */
  lemma {:induction false} WithoutNoDup<S>(s: seq<S>, x: S)
    requires NoDup(s)
    ensures NoDup(Without(s, x))
    decreases |s|
  {
    if s != [] {
      WithoutNoDup(s[1..], x);
      var rest := Without(s[1..], x);
      if s[0] != x {
        forall k | 0 <= k < |rest| ensures rest[k] != s[0] {
          assert rest[k] in s[1..];
        }
        assert forall i :: 1 <= i < |[s[0]] + rest| ==> ([s[0]] + rest)[i] == rest[i - 1];
      }
    }
  }

  /** In a list without repeats, an element occurs neither before nor after its own place. */
  lemma NoDupSplit<S>(before: seq<S>, x: S, after: seq<S>)
    requires NoDup(before + [x] + after)
    ensures x !in before && x !in after
  {
    var whole := before + [x] + after;
    assert whole[|before|] == x;
    forall k | 0 <= k < |before| ensures before[k] != x {
      assert whole[k] == before[k];
    }
    forall k | 0 <= k < |after| ensures after[k] != x {
      assert whole[|before| + 1 + k] == after[k];
    }
  }

  /** Closing a socket removes exactly it: the others stay, in order. */
  lemma CloseRemovesOnly<S>(before: seq<S>, server: S, after: seq<S>)
    requires NoDup(before + [server] + after)
    ensures Without(before + [server] + after, server) == before + after
  {
    NoDupSplit(before, server, after);
    WithoutSplice(before, server, after);
  }

  lemma WithoutSplice<S>(before: seq<S>, x: S, after: seq<S>)
    requires x !in before && x !in after
    ensures Without(before + [x] + after, x) == before + after
  {
    var left := before + [x];
    WithoutAppend(left, after, x);
    WithoutAppend(before, [x], x);
    WithoutAbsent(before, x);
    WithoutAbsent(after, x);
    assert [x][1..] == [];
    assert Without([x], x) == [];
    assert Without(left, x) == before + [];
    assert before + [] == before;
  }

  /** A broadcast reaches every session except its sender, each once. */
  lemma BroadcastReach<S>(sessions: seq<S>, sender: S)
    requires NoDup(sessions)
    ensures sender !in Without(sessions, sender)
    ensures forall s :: s in sessions && s != sender ==> s in Without(sessions, sender)
    ensures NoDup(Without(sessions, sender))
  {
    WithoutNoDup(sessions, sender);
    forall s | s in sessions && s != sender ensures s in Without(sessions, sender) {
      var k :| 0 <= k < |sessions| && sessions[k] == s;
    }
  }

  // ---------------------------------------------------------------------------
  // Cache-aside product lookup
  // ---------------------------------------------------------------------------

  /** `url.pathname.split('/')[2]`, on a path that starts with `/products/`. */
  function ProductId(path: string): (id: string)
    requires StartsWith(path, "/products/")
    ensures '/' !in id
  {
    var parts := Split(path, '/');
    ProductPathParts(path);
    parts[2]
  }

  lemma ProductPathParts(path: string)
    requires StartsWith(path, "/products/")
    ensures |Split(path, '/')| >= 3
  {
    var rest := path[10..];
    assert path == "/" + ("products" + ("/" + rest));
    SplitAfterSep(rest, '/');
    SplitAfterPlain("products", "/" + rest, '/');
    SplitAfterSep("products" + ("/" + rest), '/');
  }

  /** A '/'-free id followed by nothing or by a '/' is the first part of the split. */
  lemma IdThenRest(id: string, rest: string)
    requires '/' !in id && (rest == [] || rest[0] == '/')
    ensures Split(id + rest, '/')[0] == id
  {
    var tail := Split(rest, '/');
    if rest == [] {
      assert tail == [[]];
    } else {
      assert rest == [rest[0]] + rest[1..];
      SplitAfterSep(rest[1..], '/');
    }
    SplitAfterPlain(id, rest, '/');
    assert id + tail[0] == id;
  }

  /** The id is the segment right after `/products/`: what follows it, if anything, starts with '/'. */
  lemma ProductIdOf(id: string, rest: string)
    requires '/' !in id && (rest == [] || rest[0] == '/')
    ensures StartsWith("/products/" + id + rest, "/products/")
    ensures ProductId("/products/" + id + rest) == id
  {
    var path := "/products/" + id + rest;
    assert path[..10] == "/products/";
    IdThenRest(id, rest);
    var after := id + rest;
    assert path == "/" + ("products" + ("/" + after));
    SplitAfterSep(after, '/');
    SplitAfterPlain("products", "/" + after, '/');
    SplitAfterSep("products" + ("/" + after), '/');
  }

  /** `product:${productId}`. */
  function CacheKey(id: string): (key: string)
    ensures |key| == 8 + |id| && key[..8] == "product:" && key[8..] == id
  {
    "product:" + id
  }

  /** Different products never share a cache entry. */
  lemma CacheKeyInjective(a: string, b: string)
    requires CacheKey(a) == CacheKey(b)
    ensures a == b
  {
    assert a == CacheKey(a)[8..];
  }

  /** The product's image address, when the blob store has the image. */
  function ImageUrl(id: string, hasImage: bool): (url: Option<string>)
    ensures url.Some? <==> hasImage
    ensures hasImage ==>
      && |url.value| == |id| + 33
      && url.value[..29] == "https://products.example.com/" && url.value[|url.value| - 4..] == ".jpg"
  {
    if hasImage then Some("https://products.example.com/" + id + ".jpg") else None
  }

  /** Different products have different image addresses. */
  lemma ImageUrlInjective(a: string, b: string)
    requires ImageUrl(a, true) == ImageUrl(b, true)
    ensures a == b
  {
    var u := ImageUrl(a, true).value;
    assert u[29..|u| - 4] == a;
    assert ImageUrl(b, true).value[29..|u| - 4] == b;
  }

  /**
   * The KV cache of products. A stored JSON `null` (a product the database
   * did not have) reads back as a miss.
   */
  class ProductCache<P> {
    var entries: map<string, Option<P>>

    constructor()
      ensures entries == map[]
    {
      entries := map[];
    }

    /**
     * The product endpoint's lookup: a cached product is used as is; on a
     * miss the database row (`rows`, by id) is read and the result, even a
     * missing row, is cached.
     */
    method Lookup(path: string, rows: map<string, P>) returns (product: Option<P>, readDb: bool)
      requires StartsWith(path, "/products/")
      modifies this
      ensures var key := CacheKey(ProductId(path));
        && (readDb <==> !(key in old(entries) && old(entries)[key].Some?))
        && (!readDb ==> product == old(entries)[key] && entries == old(entries))
        && (readDb ==> product == (if ProductId(path) in rows then Some(rows[ProductId(path)]) else None)
                       && entries == old(entries)[key := product])
    {
      var id := ProductId(path);
      var key := CacheKey(id);
      product := if key in entries then entries[key] else None;
      readDb := false;
      if product.None? {
        readDb := true;
        product := if id in rows then Some(rows[id]) else None;
        entries := entries[key := product];
      }
    }
  }

  /** `embedding.matches.slice(1)`: the first match is the item itself and is skipped. */
  function Recommended(ids: seq<string>): (r: seq<string>)
    ensures |ids| >= 1 ==> r == ids[1..]
    ensures ids == [] ==> r == []
    ensures NoDup(ids) && |ids| >= 1 ==> ids[0] !in r
  {
    if ids == [] then [] else ids[1..]
  }
}
