# Katana → WASP sales-order delivery, modelled in Dafny

This project models the core of a webhook bridge between Katana (order
management), WASP (warehouse management) and Slack: the handler for Katana's
`sales_order.delivered` event. For every line item of a delivered order that
has a truthy `sku` and a truthy `quantity`, the handler posts one "remove item"
transaction to WASP and records one outcome line: `✅ {sku}: removed {qty}` on
HTTP 200, `❌ {sku}: failed ({message})` otherwise, where the message is the
reply body's `Message` field or `Unknown error`. Items missing either field are
skipped silently. A non-200 reply never stops the loop. At the end the
handler sends exactly one Slack message, `📦 *Sales Order Delivered: {id}*`
followed by the outcome lines joined with line breaks, and returns
`{"status": "processed", "results": [...]}`.

Files:

- `wrappers.dfy` (`Wrappers`): `Option`, for JSON fields that may be absent.
- `text.dfy` (`Text`): Python's `str()` of an integer (`DecimalString`), and
  `ParseDecimal`, which reads it back. `DecimalString` writes the one canonical
  decimal form of each integer, and `ParseDecimal` inverts it on those forms.
  Also `sep.join` (`Join`) with its partner `str.split` (`Split`).
- `wasp.dfy` (`Wasp`): the WASP side. A `Warehouse` object stands for the
  remote service. Its oracle `server: RemoveCall -> Reply` gives the status
  code and the body's optional `Message`. Its ghost `log` records every
  posted transaction with the reply it received. The caller owns the
  `Warehouse`, so the handler's contract can state exactly what was posted.
  `WaspClient` posts through it.
- `seqs.dfy` (`Seqs`): `Map`, a list comprehension over a sequence, which
  the outcome lines are built with.
- `slack.dfy` (`Slack`): the notifier as a sink whose ghost log `sent` records
  every message handed to it.
- `sales_order.dfy` (`SalesOrder`): the line items, the filter, the outcome
  lines, the notification text, and the handler. The handler's loop is the
  imperative method `RemoveLineItems`, proved against the specification
  functions `KeptCalls`, `Exchanges` and `Outcomes`.
  `HandleSalesOrderDelivered` creates the client, runs that loop, sends the
  notification and returns the result.

Python truthiness is modelled explicitly. A `sku` that is absent or `""` is
falsy, and so is a `quantity` that is absent or `0`. Negative quantities are
kept and posted. An absent order id is rendered `None`, as the f-string does.

The oracle and the notifier sink stand for I/O. The oracle replaces the HTTP
POST, the WASP configuration and the JSON decoding of the reply. The sink
replaces the Slack webhook and its dry-run logging.

## Model

| member | source | states |
|---|---|---|
| `SalesOrder.HandleSalesOrderDelivered` | handlers/sales_order.py:4-33 | The warehouse log grows by exactly one exchange per kept line item, in input order, and by nothing else (absent `line_items` read as empty). The results are the outcome lines of exactly those logged exchanges, so each result uses the reply the warehouse actually gave. The status is always "processed". Exactly one notification, header plus joined results, is appended to the notifier's log. |
| `SalesOrder.RemoveLineItems` | handlers/sales_order.py:13-28 | The loop: posting through the client appends `Exchanges(KeptCalls(items))` to the warehouse log, and the collected lines are the outcomes of the newly logged exchanges, whatever their status codes. |
| `SalesOrder.LineItemsOf` | handlers/sales_order.py:11 | Absent `line_items` defaults to the empty list. |
| `SalesOrder.RemovalFor` | handlers/sales_order.py:16-22 | An item is skipped iff its sku is absent or `""` or its quantity is absent or `0`. Otherwise it causes a remove of exactly that sku and quantity at site "Warehouse 1", location "A1". |
| `SalesOrder.KeptCalls` | handlers/sales_order.py:15-22 | Never more calls than line items. |
| `SalesOrder.KeptCallsAppend` | handlers/sales_order.py:15-22 | The calls for a concatenation of item lists are the calls for the first list followed by those for the second, so the order of items is preserved. |
| `SalesOrder.KeptCallsAround` | handlers/sales_order.py:15-22 | A skipped item adds no call anywhere. A kept item adds exactly its own call, between the calls of the items before it and those of the items after it. |
| `SalesOrder.KeptCallsMatchItems` | handlers/sales_order.py:15-22 | Call j comes from the kept item at position `KeptPositions[j]`. Those positions strictly increase, and every kept item's position is among them. So there is exactly one call per kept item, in input order, and none for a skipped item. |
| `SalesOrder.KeptCallsStep` | handlers/sales_order.py:15-22 | Processing one more line item adds its call, if it is kept, at the end of the calls so far. |
| `SalesOrder.OutcomeTagged` | handlers/sales_order.py:24-28 | The line starts with ✅ iff the status is 200 and with ❌ iff it is not, followed by a space and the sku. |
| `SalesOrder.SuccessOutcome` | handlers/sales_order.py:24-25 | On status 200 the line is "✅ {sku}: removed " followed by the quantity in canonical decimal form, which parses back to exactly the quantity. By `Text.DecimalStringUnique` that text is `str(qty)` and nothing else. |
| `SalesOrder.FailureOutcome` | handlers/sales_order.py:26-28 | On any other status the line is "❌ {sku}: failed (", then the body's Message, or "Unknown error" when there is none, then ")". |
| `SalesOrder.OutcomeIsOneLine` | handlers/sales_order.py:24-28 | An outcome line contains no line break when the sku and the Message contain none. |
| `SalesOrder.Exchanges` | handlers/sales_order.py:22 | Posting calls in order logs one exchange per call, in the same order, each paired with the oracle's reply to it. |
| `Seqs.Map` | handlers/sales_order.py:15-28 | Collecting `f` of each element in order gives exactly one entry per element, and entry j is `f` of element j alone. The handler's results are `Map` of the outcome of each logged exchange, so there is one line per exchange whatever the replies, and an earlier failure never affects later lines. |
| `Seqs.MapSnoc` | handlers/sales_order.py:24-28 | Handling one more element appends its image at the end, as each `summary_results.append` does. |
| `SalesOrder.NotificationLines` | handlers/sales_order.py:30 | Split at line breaks, the notification is the header line followed by exactly the results. With no results it is the header and one empty line. |
| `SalesOrder.NotificationMatchesResults` | handlers/sales_order.py:30-33 | For a whole order without line breaks in the id, skus or messages, the notification lines after the header are exactly the returned results. |
| `SalesOrder.NoLineItems` | handlers/sales_order.py:11-33 | Without `line_items`: no calls, no results, and the notification is just the header line. |
| `SalesOrder.ResultsFollowItems` | handlers/sales_order.py:15-28 | Result j reports on the j-th kept item, in input order, using the warehouse's reply to that item's call. |
| `SalesOrder.DeliveredExample` | handlers/sales_order.py:15-28 | Items A1×2, A2×0 and B1 with no quantity give one call (A1, 2) and the single result "✅ A1: removed 2". |
| `SalesOrder.FailedExample` | handlers/sales_order.py:26-28 | A 404 reply with Message "Item not found" for X9×3 gives "❌ X9: failed (Item not found)". |
| `Text.DecimalString` | handlers/sales_order.py:25 | `str(qty)`: canonical decimal form (at least one digit, no leading zero except for 0 itself, a minus sign exactly for negative numbers). |
| `Text.DecimalRoundTrip` | handlers/sales_order.py:25 | Parsing the decimal rendering of any integer gives that integer back. |
| `Text.DecimalStringUnique` | handlers/sales_order.py:25 | Every canonical decimal string is the rendering of the integer it parses to, so the rendering is the only canonical text for its value. |
| `Text.SplitJoin` | handlers/sales_order.py:30 | Splitting `"\n".join(parts)` at line breaks gives `parts` back when no part contains a line break. |
| `Text.SplitAtFirst` | handlers/sales_order.py:30 | Splitting `p + sep + t`, where `p` holds no separator, gives `p` followed by the split of `t`. |
| `Wasp.Warehouse.Post` | wasp_api.py:47-48 | The reply is the oracle's answer to the posted transaction, and exactly that exchange is appended to the warehouse log. |
| `Wasp.WaspClient.RemoveItemTransaction` | wasp_api.py:37-48 | Posts one transaction (site "Warehouse 1" and location "A1" by default), appends exactly it and its reply to the warehouse log, and returns the status and body as values for the caller to inspect. |
| `Slack.Notifier.Send` | slack_notify.py:4-15 | The message is appended to the sink's log, and nothing else observable happens to the caller. |

## Left out

- The HTTP transport to WASP, its bearer-token headers and base URL (wasp_api.py:5-12), and the JSON decoding of the reply. They are replaced by the `Warehouse` object, whose `server` oracle gives the reply and whose ghost log records each exchange.
- Wasp.WaspClient.RemoveItemTransaction and SalesOrder.HandleSalesOrderDelivered: the model has no exception path. In the source, `requests.post` raises on connection errors and time-outs (wasp_api.py:47), and `response.json()` raises on a body that is not JSON (wasp_api.py:48), such as an empty 401 or an HTML 502. `res.get` raises on a JSON body that is a list (handlers/sales_order.py:27). Nothing in handlers/sales_order.py catches these, so the real handler stops mid-loop and sends no notification. The transactions posted before the failure stay posted. The model covers only the runs in which every call returns a status code and a JSON object.
- Wasp.WaspClient.RemoveItemTransaction: the oracle is a function of the posted transaction. A warehouse whose reply to the same sku and quantity changes within one order (stock running out) is not modelled.
- `WaspClient.inventory_search` and `WaspClient.add_item_transaction`: the delivery handler does not call them.
- Slack.Notifier.Send: the dry-run print when no webhook URL is configured, the HTTP POST, and the swallowed exception are not modelled. They are I/O, and none is visible to the caller.
- app.py (Flask routing, the empty-body 400 reply, the health check) is not part of this model. It is web-framework plumbing.
- config.py is not part of this model. It only reads environment variables.
- handlers/inventory.py is not part of this model. It is a stub that formats one notification and returns `{"status": "received"}`, with no WASP call.
- JSON values of other types are not modelled. The model covers strings for `sku`, `id` and `Message`, and integers for `quantity`. A float quantity (`2.0` renders differently) and a non-string Message are left out.
- A `Message` that is present but `null` would be printed as `None`; the model treats it as absent and prints `Unknown error`.
- A `line_items` that is present but `null` is left out. Python raises `TypeError` on it.
- Concurrent requests are not modelled. Each invocation owns its own client and shares nothing.
