/** The work queue of a walk through the past cone (multiverse/utils.go), which yields every element once. */
module Walker {
  import opened Messages

  class Walker {
    var pushed: set<MessageID>
    var pending: set<MessageID>

    ghost predicate Valid()
      reads this
    {
      pending <= pushed
    }

    constructor (entryPoint: MessageID)
      ensures Valid() && pushed == {entryPoint} && pending == {entryPoint}
    {
      pushed, pending := {entryPoint}, {entryPoint};
    }

    /** Elements that were pushed before are not pushed again. */
    method Push(id: MessageID)
      requires Valid()
      modifies this
      ensures Valid() && pushed == old(pushed) + {id}
      ensures pending == old(pending) + ({id} - old(pushed))
    {
      if id !in pushed {
        pushed, pending := pushed + {id}, pending + {id};
      }
    }

    method PushAll(ids: set<MessageID>)
      requires Valid()
      modifies this
      ensures Valid() && pushed == old(pushed) + ids
      ensures pending == old(pending) + (ids - old(pushed))
    {
      var todo := ids;
      while todo != {}
        invariant Valid() && todo <= ids
        invariant pushed == old(pushed) + (ids - todo)
        invariant pending == old(pending) + (ids - todo - old(pushed))
      {
        Inhabited(todo);
        var id :| id in todo;
        Push(id);
        todo := todo - {id};
      }
    }

    predicate HasNext()
      reads this
    {
      pending != {}
    }

    /** Yields pending elements in any order. */
    method Next() returns (id: MessageID)
      requires Valid() && HasNext()
      modifies this`pending
      ensures Valid() && id in old(pending) && pending == old(pending) - {id}
    {
      Inhabited(pending);
      id :| id in pending;
      pending := pending - {id};
    }
  }
}
