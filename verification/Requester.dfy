/** The requests for missing messages that are under way (multiverse/requester.go). */
module Requester {
  import opened Messages

  class Requester {
    var queuedElements: set<MessageID>
    ghost var sent: seq<MessageID> // the requests that went out, first ones and repeated ones

    /** What is under way was requested. */
    ghost predicate AllSent()
      reads this
    {
      forall id :: id in queuedElements ==> id in sent
    }

    constructor ()
      ensures queuedElements == {} && sent == []
    {
      queuedElements, sent := {}, [];
    }

    /** Requests a message, unless that is under way. */
    method StartRequest(id: MessageID)
      modifies this
      ensures queuedElements == old(queuedElements) + {id}
      ensures sent == old(sent) + if id in old(queuedElements) then [] else [id]
    {
      if id in queuedElements {
        return;
      }
      TriggerRequestAndScheduleRetry(id);
    }

    method StopRequest(id: MessageID)
      modifies this
      ensures queuedElements == old(queuedElements) - {id} && sent == old(sent)
    {
      if id !in queuedElements {
        return;
      }
      queuedElements := queuedElements - {id};
    }

    method TriggerRequestAndScheduleRetry(id: MessageID)
      modifies this
      ensures queuedElements == old(queuedElements) + {id} && sent == old(sent) + [id]
    {
      queuedElements, sent := queuedElements + {id}, sent + [id];
    }

    /** A retry repeats a request that is still under way, and starts none. */
    method Retry(id: MessageID)
      modifies this
      ensures queuedElements == old(queuedElements)
      ensures sent == old(sent) + if id in queuedElements then [id] else []
    {
      if id !in queuedElements {
        return;
      }
      TriggerRequestAndScheduleRetry(id);
    }
  }
}
