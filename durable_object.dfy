/**
 * The single global queue object (worker/durableObject.ts). Its storage
 * holds one record under the key "queue_state". `CreateTicket` and
 * `CallNextTicket` read the whole record, transform it with a function of
 * QueueLogic and write it back whole; `ResetQueue` reads nothing and only
 * overwrites it; `GetQueueState` only reads. The platform runs one
 * operation at a time, so each method is atomic.
 */
module DurableObject {
  import opened Wrappers
  import opened QueueTypes
  import QueueLogic

  class GlobalDurableObject {
    /** The value stored under "queue_state"; None until the first write. */
    var stored: Option<QueueState>

    /** The record every operation keeps valid. */
    predicate Valid()
      reads this
    {
      stored.Some? ==> QueueLogic.Valid(stored.value)
    }

    /** The record a read sees. */
    function Current(): QueueState
      reads this
    {
      QueueLogic.Load(stored)
    }

    /** A new object over empty storage. */
    constructor ()
      ensures stored == None && Valid()
    {
      stored := None;
    }

    /** `getQueueState`: the stored record, or the initial one when nothing is stored. */
    method GetQueueState() returns (s: QueueState)
      ensures stored.None? ==> s.tickets == [] && s.currentlyServing == None && s.lastTicketNumber == 0
      ensures stored.Some? ==> s == stored.value
      ensures Valid() ==> QueueLogic.Valid(s)
    {
      s := QueueLogic.Load(stored);
    }

    /**
     * `createTicket`: the fresh id (uuidv4) and the clock reading (ISO
     * timestamp) are supplied by the caller; the id is not yet in use.
     */
    method CreateTicket(name: string, id: string, createdAt: string) returns (t: Ticket)
      requires Valid() && !QueueLogic.IdInUse(Current(), id)
      modifies this
      ensures Valid()
      ensures t == Ticket(id, old(Current()).lastTicketNumber + 1, name, Waiting, createdAt)
      ensures stored == Some(QueueLogic.Create(old(Current()), id, name, createdAt).state)
      ensures Current().tickets == old(Current()).tickets + [t]
      ensures Current().lastTicketNumber == t.number
      ensures Current().currentlyServing == old(Current()).currentlyServing
    {
      var state := GetQueueState();
      var created := QueueLogic.Create(state, id, name, createdAt);
      QueueLogic.CreatePreservesValid(state, id, name, createdAt);
      stored := Some(created.state);
      t := created.ticket;
      assert created.state.tickets == state.tickets + [t];
    }

    /** `callNextTicket`: retire the serving ticket, promote the first waiting one. */
    method CallNextTicket() returns (s: QueueState)
      requires Valid()
      modifies this
      ensures Valid()
      ensures s == QueueLogic.CallNext(old(Current()))
      ensures stored == Some(s)
    {
      var state := GetQueueState();
      s := QueueLogic.CallNext(state);
      QueueLogic.CallNextPreservesValid(state);
      stored := Some(s);
    }

    /** `resetQueue`: overwrite the record with the initial one, whatever it was. */
    method ResetQueue() returns (s: QueueState)
      modifies this
      ensures Valid()
      ensures s == QueueLogic.InitialState() && stored == Some(s)
      ensures s.tickets == [] && s.currentlyServing == None && s.lastTicketNumber == 0
    {
      s := QueueLogic.InitialState();
      stored := Some(s);
    }
  }
}
