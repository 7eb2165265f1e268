/**
 * The Katana `sales_order.delivered` webhook handler. For every line item with
 * a truthy sku and a truthy quantity it posts one "remove item" transaction to
 * WASP and records one outcome line (success or failure); items missing either
 * field are skipped silently. It then sends one Slack notification, a header
 * naming the order followed by the outcome lines, and reports "processed".
 */
module SalesOrder {
  import opened Wrappers
  import opened Text
  import opened Wasp
  import opened Slack
  import opened Seqs

  /** One line item of the event; a field absent from the JSON object is `None`. */
  datatype LineItem = LineItem(sku: Option<string>, quantity: Option<int>)

  /** The webhook payload: the order id and its line items, either possibly absent. */
  datatype SalesOrderDelivered = SalesOrderDelivered(id: Option<string>, lineItems: Option<seq<LineItem>>)

  /** The handler's return value `{"status": ..., "results": ...}`. */
  datatype HandlerResult = HandlerResult(status: string, results: seq<string>)

  const Processed := "processed"
  const UnknownError := "Unknown error"
  const SuccessStatus := 200
  const SuccessMark: char := '\U{2705}'
  const FailureMark: char := '\U{274C}'
  const PackageMark: char := '\U{1F4E6}'

  // ---------------------------------------------------------------------------
  // Which line items are processed

  /** Python truthiness of the `sku` field: absent and "" are false. */
  predicate SkuTruthy(sku: Option<string>) {
    sku.Some? && sku.value != ""
  }

  /** Python truthiness of the `quantity` field: absent and 0 are false. */
  predicate QuantityTruthy(quantity: Option<int>) {
    quantity.Some? && quantity.value != 0
  }

  /** `data.get("line_items", [])`. */
  function LineItemsOf(data: SalesOrderDelivered): (items: seq<LineItem>)
    ensures data.lineItems.None? ==> items == []
  {
    data.lineItems.GetOr([])
  }

  /** The remove transaction a line item causes, or `None` when it is skipped. */
  function RemovalFor(item: LineItem): (r: Option<RemoveCall>)
    ensures r.None? <==> item.sku in {None, Some("")} || item.quantity in {None, Some(0)}
    ensures r.Some? ==> r.value.itemNumber == item.sku.value && r.value.quantity == item.quantity.value
    ensures r.Some? ==> r.value.siteName == DefaultSite && r.value.locationCode == DefaultLocation
  {
    if !SkuTruthy(item.sku) || !QuantityTruthy(item.quantity) then None
    else Some(RemoveCall(item.sku.value, item.quantity.value, DefaultSite, DefaultLocation))
  }

  /** The remove transactions a list of line items causes, in order. */
  function KeptCalls(items: seq<LineItem>): (calls: seq<RemoveCall>)
    ensures |calls| <= |items|
  {
    if items == [] then []
    else
      var last := items[|items| - 1];
      KeptCalls(items[..|items| - 1]) + (if RemovalFor(last).Some? then [RemovalFor(last).value] else [])
  }

  /** Processing one list after another issues the first list's calls, then the second's. */
  lemma {:induction false} KeptCallsAppend(a: seq<LineItem>, b: seq<LineItem>)
    ensures KeptCalls(a + b) == KeptCalls(a) + KeptCalls(b)
    decreases |b|
  {
    if b == [] {
      assert a + b == a;
    } else {
      var b' := b[..|b| - 1];
      assert (a + b)[..|a + b| - 1] == a + b';
      KeptCallsAppend(a, b');
    }
  }

  /**
   * A skipped item issues no call and leaves the others' calls as they were; a
   * kept item issues exactly its own call, between the calls of the items
   * before it and those of the items after it.
   */
  lemma {:induction false} KeptCallsAround(before: seq<LineItem>, item: LineItem, after: seq<LineItem>)
    ensures RemovalFor(item).None? ==>
      KeptCalls(before + [item] + after) == KeptCalls(before) + KeptCalls(after)
    ensures RemovalFor(item).Some? ==>
      KeptCalls(before + [item] + after) == KeptCalls(before) + [RemovalFor(item).value] + KeptCalls(after)
  {
    KeptCallsAppend(before, [item]);
    KeptCallsAppend(before + [item], after);
    assert [item][..0] == [];
  }

  /** The positions of the items that are processed, in increasing order. */
  function KeptPositions(items: seq<LineItem>): seq<nat>
  {
    if items == [] then []
    else
      var n := |items| - 1;
      KeptPositions(items[..n]) + (if RemovalFor(items[n]).Some? then [n] else [])
  }

  /**
   * Call j is the call of the item at position KeptPositions(items)[j]; those
   * positions increase strictly, every one of them holds a processed item, and
   * every processed item is among them.
   */
  lemma {:induction false} KeptCallsMatchItems(items: seq<LineItem>)
    ensures |KeptPositions(items)| == |KeptCalls(items)|
    ensures forall j :: 0 <= j < |KeptPositions(items)| ==>
      KeptPositions(items)[j] < |items| && RemovalFor(items[KeptPositions(items)[j]]) == Some(KeptCalls(items)[j])
    ensures forall j, k :: 0 <= j < k < |KeptPositions(items)| ==> KeptPositions(items)[j] < KeptPositions(items)[k]
    ensures forall i :: 0 <= i < |items| && RemovalFor(items[i]).Some? ==> i in KeptPositions(items)
    decreases |items|
  {
    if items != [] {
      var n := |items| - 1;
      var init := items[..n];
      KeptCallsMatchItems(init);
      assert forall i :: 0 <= i < n ==> init[i] == items[i];
    }
  }

  // ---------------------------------------------------------------------------
  // Outcome lines

  function SuccessPrefix(sku: string): string {
    [SuccessMark] + " " + sku + ": removed "
  }

  function FailurePrefix(sku: string): string {
    [FailureMark] + " " + sku + ": failed ("
  }

  /** `f"✅ {sku}: removed {qty}"`. */
  function SuccessLine(sku: string, quantity: int): string {
    SuccessPrefix(sku) + DecimalString(quantity)
  }

  /** `f"❌ {sku}: failed ({error_msg})"`. */
  function FailureLine(sku: string, errorMessage: string): string {
    FailurePrefix(sku) + errorMessage + ")"
  }

  /** `res.get("Message", "Unknown error")`. */
  function ErrorMessage(body: Body): string {
    body.message.GetOr(UnknownError)
  }

  /** The outcome line for one posted transaction and the warehouse's reply to it. */
  function Outcome(call: RemoveCall, reply: Reply): string {
    if reply.statusCode == SuccessStatus then SuccessLine(call.itemNumber, call.quantity)
    else FailureLine(call.itemNumber, ErrorMessage(reply.body))
  }

  /** The line is tagged ✅ exactly on status 200 and ❌ otherwise, then names the sku. */
  lemma OutcomeTagged(call: RemoveCall, reply: Reply)
    ensures var line := Outcome(call, reply);
      |line| >= 2 + |call.itemNumber|
      && (line[0] == SuccessMark <==> reply.statusCode == SuccessStatus)
      && (line[0] == FailureMark <==> reply.statusCode != SuccessStatus)
      && line[1] == ' ' && line[2..2 + |call.itemNumber|] == call.itemNumber
  {
  }

  /**
   * On status 200 the line reads "✅ {sku}: removed " followed by the quantity
   * in canonical decimal form, which reads back exactly. By `DecimalStringUnique`
   * only one canonical string reads as a given integer, so this fixes the text.
   */
  lemma SuccessOutcome(call: RemoveCall, reply: Reply)
    requires reply.statusCode == SuccessStatus
    ensures var line, k := Outcome(call, reply), |SuccessPrefix(call.itemNumber)|;
      k <= |line| && line[..k] == SuccessPrefix(call.itemNumber)
      && CanonicalDecimal(line[k..]) && ParseDecimal(line[k..]) == Some(call.quantity)
  {
    var line, k := Outcome(call, reply), |SuccessPrefix(call.itemNumber)|;
    assert line[k..] == DecimalString(call.quantity);
    DecimalRoundTrip(call.quantity);
  }

  /**
   * On any other status the line reads "❌ {sku}: failed (", then the body's
   * Message (or "Unknown error" when the body has none), then ")".
   */
  lemma FailureOutcome(call: RemoveCall, reply: Reply)
    requires reply.statusCode != SuccessStatus
    ensures var line, k := Outcome(call, reply), |FailurePrefix(call.itemNumber)|;
      k < |line| && line[..k] == FailurePrefix(call.itemNumber) && line[|line| - 1] == ')'
      && (reply.body.message.Some? ==> line[k..|line| - 1] == reply.body.message.value)
      && (reply.body.message.None? ==> line[k..|line| - 1] == UnknownError)
  {
  }

  /** An outcome line is a single line when the sku and the message are. */
  lemma OutcomeIsOneLine(call: RemoveCall, reply: Reply)
    requires '\n' !in call.itemNumber
    requires reply.body.message.Some? ==> '\n' !in reply.body.message.value
    ensures '\n' !in Outcome(call, reply)
  {
  }

  /** The exchanges a warehouse with oracle `server` logs when `calls` are posted to it in order. */
  function Exchanges(calls: seq<RemoveCall>, server: Server): (log: seq<Exchange>)
    ensures |log| == |calls|
    ensures forall j :: 0 <= j < |calls| ==> log[j] == Exchange(calls[j], server(calls[j]))
  {
    if calls == [] then []
    else
      var n := |calls| - 1;
      var prefix := Exchanges(calls[..n], server);
      assert forall j :: 0 <= j < n ==> prefix[j] == Exchange(calls[j], server(calls[j]));
      prefix + [Exchange(calls[n], server(calls[n]))]
  }

  /** The outcome line for one logged exchange. */
  function ExchangeOutcome(exchange: Exchange): string {
    Outcome(exchange.call, exchange.reply)
  }

  /** The outcome lines collected for the logged exchanges, in the order of the log. */
  function Outcomes(log: seq<Exchange>): seq<string> {
    Map(ExchangeOutcome, log)
  }

  /** Processing one more line item adds that item's call, if any, at the end. */
  lemma KeptCallsStep(items: seq<LineItem>, i: nat)
    requires i < |items|
    ensures KeptCalls(items[..i + 1])
      == KeptCalls(items[..i]) + (if RemovalFor(items[i]).Some? then [RemovalFor(items[i]).value] else [])
  {
    assert items[..i + 1][..i] == items[..i];
  }

  /** Posting one more call logs one more exchange at the end. */
  lemma ExchangesStep(calls: seq<RemoveCall>, call: RemoveCall, server: Server)
    ensures Exchanges(calls + [call], server) == Exchanges(calls, server) + [Exchange(call, server(call))]
  {
  }

  /** The results an order's line items produce against a warehouse with oracle `server`. */
  function Results(items: seq<LineItem>, server: Server): seq<string> {
    Outcomes(Exchanges(KeptCalls(items), server))
  }

  // ---------------------------------------------------------------------------
  // The notification

  /** Python renders a missing id as "None" inside the f-string. */
  function IdText(id: Option<string>): string {
    id.GetOr("None")
  }

  function HeaderLine(id: Option<string>): string {
    [PackageMark] + " *Sales Order Delivered: " + IdText(id) + "*"
  }

  /** `f"📦 *Sales Order Delivered: {order_id}*\n" + "\n".join(summary_results)`. */
  function NotificationBody(id: Option<string>, results: seq<string>): string {
    HeaderLine(id) + "\n" + Join("\n", results)
  }

  /**
   * Read line by line, the notification is the header followed by exactly the
   * outcome lines; with no outcome it is the header and one empty line.
   */
  lemma NotificationLines(id: Option<string>, results: seq<string>)
    requires '\n' !in IdText(id)
    requires forall i :: 0 <= i < |results| ==> '\n' !in results[i]
    ensures Split(NotificationBody(id, results), '\n') == [HeaderLine(id)] + (if results == [] then [""] else results)
  {
    var header := HeaderLine(id);
    assert '\n' !in header by {
      assert header == [PackageMark] + " *Sales Order Delivered: " + IdText(id) + "*";
    }
    SplitAtFirst(header, '\n', Join("\n", results));
    assert NotificationBody(id, results) == header + ['\n'] + Join("\n", results);
    if results != [] {
      SplitJoin(results, '\n');
    }
  }

  // ---------------------------------------------------------------------------
  // The handler

  /**
   * The loop of the handler: posts one remove transaction per processed line
   * item, in order, through `client`, and collects one outcome line per reply
   * received. A non-200 reply never stops the loop.
   */
  method RemoveLineItems(client: WaspClient, lineItems: seq<LineItem>) returns (summaryResults: seq<string>)
    modifies client.warehouse
    ensures client.warehouse.log
      == old(client.warehouse.log) + Exchanges(KeptCalls(lineItems), client.warehouse.server)
    ensures summaryResults == Outcomes(client.warehouse.log[|old(client.warehouse.log)|..])
  {
    var warehouse := client.warehouse;
    ghost var log0 := warehouse.log;
    ghost var server := warehouse.server;
    summaryResults := [];

    for i := 0 to |lineItems|
      invariant warehouse.log == log0 + Exchanges(KeptCalls(lineItems[..i]), server)
      invariant summaryResults == Outcomes(Exchanges(KeptCalls(lineItems[..i]), server))
    {
      KeptCallsStep(lineItems, i);
      var item := lineItems[i];
      var sku := item.sku;
      var qty := item.quantity;

      if !SkuTruthy(sku) || !QuantityTruthy(qty) {
        assert RemovalFor(item).None?;
        assert KeptCalls(lineItems[..i + 1]) == KeptCalls(lineItems[..i]);
        continue;
      }

      ghost var logged := Exchanges(KeptCalls(lineItems[..i]), server);
      var statusCode, res := client.RemoveItemTransaction(sku.value, qty.value);
      ghost var call := RemoveCall(sku.value, qty.value, DefaultSite, DefaultLocation);
      ghost var exchange := Exchange(call, Reply(statusCode, res));
      assert Reply(statusCode, res) == server(call);
      assert warehouse.log == log0 + logged + [exchange];
      assert Exchanges(KeptCalls(lineItems[..i + 1]), server) == logged + [exchange] by {
        assert RemovalFor(item) == Some(call);
        ExchangesStep(KeptCalls(lineItems[..i]), call, server);
      }
      assert log0 + logged + [exchange] == log0 + (logged + [exchange]);

      if statusCode == SuccessStatus {
        summaryResults := summaryResults + [SuccessLine(sku.value, qty.value)];
      } else {
        var errorMsg := ErrorMessage(res);
        summaryResults := summaryResults + [FailureLine(sku.value, errorMsg)];
      }
      assert summaryResults == Outcomes(logged + [exchange]) by {
        MapSnoc(ExchangeOutcome, logged, exchange);
      }
    }
    assert lineItems[..|lineItems|] == lineItems;
    assert warehouse.log[|log0|..] == Exchanges(KeptCalls(lineItems), server);
  }

  /**
   * The whole handler: posts one remove transaction per processed line item,
   * in order, to `warehouse`, collects one outcome line per reply received,
   * sends one notification and reports "processed" whatever the replies were.
   */
  method HandleSalesOrderDelivered(data: SalesOrderDelivered, warehouse: Warehouse, notifier: Notifier)
    returns (result: HandlerResult)
    modifies warehouse, notifier
    ensures warehouse.log == old(warehouse.log) + Exchanges(KeptCalls(LineItemsOf(data)), warehouse.server)
    ensures result.status == Processed
    ensures result.results == Outcomes(warehouse.log[|old(warehouse.log)|..])
    ensures notifier.sent == old(notifier.sent) + [NotificationBody(data.id, result.results)]
  {
    var client := new WaspClient(warehouse);
    var orderId := data.id;
    var lineItems := LineItemsOf(data);

    var summaryResults := RemoveLineItems(client, lineItems);

    var notificationBody := HeaderLine(orderId) + "\n" + Join("\n", summaryResults);
    notifier.Send(notificationBody);

    result := HandlerResult(Processed, summaryResults);
  }

  // ---------------------------------------------------------------------------
  // Consequences for whole orders

  /** An order without line items posts nothing, reports nothing and notifies the bare header. */
  lemma NoLineItems(id: Option<string>, server: Server)
    ensures var data := SalesOrderDelivered(id, None);
      KeptCalls(LineItemsOf(data)) == [] && Results(LineItemsOf(data), server) == []
      && NotificationBody(id, Results(LineItemsOf(data), server)) == HeaderLine(id) + "\n"
  {
  }

  /**
   * When neither the order id nor any processed sku nor any reply's Message
   * contains a line break, the notification's lines after the header are
   * exactly the returned results.
   */
  lemma NotificationMatchesResults(data: SalesOrderDelivered, server: Server)
    requires '\n' !in IdText(data.id)
    requires forall call :: call in KeptCalls(LineItemsOf(data)) ==>
      '\n' !in call.itemNumber && (server(call).body.message.Some? ==> '\n' !in server(call).body.message.value)
    ensures var results := Results(LineItemsOf(data), server);
      Split(NotificationBody(data.id, results), '\n') == [HeaderLine(data.id)] + (if results == [] then [""] else results)
  {
    var calls := KeptCalls(LineItemsOf(data));
    var results := Results(LineItemsOf(data), server);
    forall i | 0 <= i < |results|
      ensures '\n' !in results[i]
    {
      assert calls[i] in calls;
      OutcomeIsOneLine(calls[i], server(calls[i]));
    }
    NotificationLines(data.id, results);
  }

  /** Line item j of the results reports on the j-th processed item and the warehouse's reply to it. */
  lemma {:induction false} ResultsFollowItems(items: seq<LineItem>, server: Server)
    ensures var results, ps := Results(items, server), KeptPositions(items);
      |results| == |ps|
      && forall j :: 0 <= j < |ps| ==>
        ps[j] < |items| && RemovalFor(items[ps[j]]).Some?
        && results[j] == Outcome(RemovalFor(items[ps[j]]).value, server(RemovalFor(items[ps[j]]).value))
  {
    KeptCallsMatchItems(items);
  }

  /** Example: A1 x2 is removed; A2 (quantity 0) and B1 (no quantity) are skipped. */
  lemma DeliveredExample()
    ensures var items := [LineItem(Some("A1"), Some(2)), LineItem(Some("A2"), Some(0)), LineItem(Some("B1"), None)];
      var server := (c: RemoveCall) => Reply(200, Body(None));
      KeptCalls(items) == [RemoveCall("A1", 2, DefaultSite, DefaultLocation)]
      && Results(items, server) == [[SuccessMark] + " A1: removed 2"]
  {
    var items := [LineItem(Some("A1"), Some(2)), LineItem(Some("A2"), Some(0)), LineItem(Some("B1"), None)];
    assert items[..2][..1] == [items[0]];
    assert [items[0]][..0] == [];
    var call := RemoveCall("A1", 2, DefaultSite, DefaultLocation);
    assert KeptCalls(items) == [call];
    assert [call][..0] == [];
    assert DecimalString(2) == "2";
    assert Outcome(call, Reply(200, Body(None))) == [SuccessMark] + " A1: removed 2";
  }

  /** Example: a 404 reply with Message "Item not found" for X9 x3. */
  lemma FailedExample()
    ensures Outcome(RemoveCall("X9", 3, DefaultSite, DefaultLocation), Reply(404, Body(Some("Item not found"))))
      == [FailureMark] + " X9: failed (Item not found)"
  {
  }
}
