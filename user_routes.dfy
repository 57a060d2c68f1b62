/**
 * The route-level logic of worker/userRoutes.ts that is not HTTP plumbing:
 * the name check that runs before `createTicket` is reached, the ticket
 * route that it guards, and the history export route, which only reads.
 */
module UserRoutes {
  import opened Wrappers
  import opened QueueTypes
  import QueueLogic
  import HistoryCsv
  import opened DurableObject

  const MinNameLength: nat := 1
  const MaxNameLength: nat := 50

  /** The two ways the name check can fail (`min(1)` and `max(50)`). */
  datatype NameIssue = Empty | TooLong

  /** The message the schema attaches to each failed check; never empty. */
  function Message(issue: NameIssue): (m: string)
    ensures m != []
  {
    match issue
    case Empty => "El nombre no puede estar vacío."
    case TooLong => "El nombre es demasiado largo."
  }

  /** `createTicketSchema`: a name of 1 to 50 characters. */
  function ValidateName(name: string): (r: Result<string, NameIssue>)
    ensures r.Success? <==> MinNameLength <= |name| <= MaxNameLength
    ensures r.Success? ==> r.value == name
    ensures r == Failure(Empty) <==> |name| < MinNameLength
    ensures r == Failure(TooLong) <==> |name| > MaxNameLength
  {
    if |name| < MinNameLength then Failure(Empty)
    else if |name| > MaxNameLength then Failure(TooLong)
    else Success(name)
  }

  /**
   * `POST /api/queue/ticket`: a rejected name never reaches the queue, so
   * the stored record is unchanged and the failure carries the schema's
   * message; an accepted one creates the ticket.
   */
  method PostTicket(q: GlobalDurableObject, name: string, id: string, createdAt: string)
    returns (r: Result<Ticket, string>)
    requires q.Valid() && !QueueLogic.IdInUse(q.Current(), id)
    modifies q
    ensures q.Valid()
    ensures r.Failure? <==> !(MinNameLength <= |name| <= MaxNameLength)
    ensures r.Failure? ==> r.error == Message(ValidateName(name).error) && q.stored == old(q.stored)
    ensures r.Success? ==>
              r.value == Ticket(id, old(q.Current()).lastTicketNumber + 1, name, Waiting, createdAt) &&
              q.Current().tickets == old(q.Current()).tickets + [r.value]
  {
    var checked := ValidateName(name);
    if checked.Failure? {
      return Failure(Message(checked.error));
    }
    var t := q.CreateTicket(checked.value, id, createdAt);
    r := Success(t);
  }

  /** `GET /api/queue/history`: the export of the current tickets; nothing is written. */
  method GetHistory(q: GlobalDurableObject) returns (csv: string)
    ensures csv == HistoryCsv.History(q.Current().tickets)
    ensures |csv| >= |HistoryCsv.Header| && csv[..|HistoryCsv.Header|] == HistoryCsv.Header
  {
    var state := q.GetQueueState();
    csv := HistoryCsv.History(state.tickets);
    HistoryCsv.HistoryHeader(state.tickets);
  }
}
