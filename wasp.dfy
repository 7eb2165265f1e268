/**
 * The warehouse (WASP) client, reduced to the one operation the delivery
 * handler uses: posting a "remove item" transaction. The remote side is a
 * `Warehouse` object: an oracle, `server`, from the posted transaction to the
 * status code and the parsed body, and a ghost log of every exchange made with
 * it. The log belongs to the warehouse, not to the client, so it outlives any
 * client that posts to it.
 */
module Wasp {
  import opened Wrappers

  const DefaultSite := "Warehouse 1"
  const DefaultLocation := "A1"

  /** The payload of one remove transaction: ItemNumber, Quantity, SiteName, LocationCode. */
  datatype RemoveCall = RemoveCall(itemNumber: string, quantity: int, siteName: string, locationCode: string)

  /** The part of the parsed response body the handler reads: its optional `Message` field. */
  datatype Body = Body(message: Option<string>)

  datatype Reply = Reply(statusCode: int, body: Body)

  /** One posted transaction together with the reply it received. */
  datatype Exchange = Exchange(call: RemoveCall, reply: Reply)

  /** What the warehouse answers to a posted transaction. */
  type Server = RemoveCall -> Reply

  class Warehouse {
    const server: Server
    /** Every transaction posted to the warehouse and its reply, oldest first. */
    ghost var log: seq<Exchange>

    constructor (server: Server)
      ensures this.server == server && log == []
    {
      this.server := server;
      log := [];
    }

    /** The HTTP POST of one transaction: the reply is the oracle's, and the exchange is logged. */
    method Post(call: RemoveCall) returns (reply: Reply)
      modifies this
      ensures reply == server(call)
      ensures log == old(log) + [Exchange(call, reply)]
    {
      reply := server(call);
      log := log + [Exchange(call, reply)];
    }
  }

  class WaspClient {
    const warehouse: Warehouse

    constructor (warehouse: Warehouse)
      ensures this.warehouse == warehouse
    {
      this.warehouse := warehouse;
    }

    /** Posts one remove transaction and returns the status code and the parsed body. */
    method RemoveItemTransaction(itemNumber: string, quantity: int,
                                 siteName: string := DefaultSite, locationCode: string := DefaultLocation)
      returns (statusCode: int, body: Body)
      modifies warehouse
      ensures Reply(statusCode, body) == warehouse.server(RemoveCall(itemNumber, quantity, siteName, locationCode))
      ensures warehouse.log
        == old(warehouse.log) + [Exchange(RemoveCall(itemNumber, quantity, siteName, locationCode), Reply(statusCode, body))]
    {
      var reply := warehouse.Post(RemoveCall(itemNumber, quantity, siteName, locationCode));
      statusCode, body := reply.statusCode, reply.body;
    }
  }
}
