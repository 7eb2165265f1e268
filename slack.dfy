/**
 * The Slack notifier as a sink: it records, in order, every message handed to
 * it. Whether the message is posted or only logged (no webhook configured),
 * and whether posting fails, is invisible to the caller.
 */
module Slack {

  class Notifier {
    /** Every message sent so far, oldest first. */
    ghost var sent: seq<string>

    constructor ()
      ensures sent == []
    {
      sent := [];
    }

    method Send(message: string)
      modifies this
      ensures sent == old(sent) + [message]
    {
      sent := sent + [message];
    }
  }
}
