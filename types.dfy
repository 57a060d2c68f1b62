/**
 * The records shared between the worker and the pages (shared/types.ts):
 * a ticket, its status and the one queue record that the worker stores.
 */
module QueueTypes {
  import opened Wrappers

  /** A ticket's lifecycle: waiting -> serving -> served. */
  datatype Status = Waiting | Serving | Served

  /**
   * A ticket. `number` is a JavaScript number in the source; only the
   * integer values the queue ever produces are modelled.
   */
  datatype Ticket = Ticket(id: string, number: int, name: string, status: Status, createdAt: string)

  /**
   * The whole queue record. `currentlyServing` is a copy of the ticket that
   * is being served (null in the source when there is none).
   */
  datatype QueueState = QueueState(tickets: seq<Ticket>, currentlyServing: Option<Ticket>, lastTicketNumber: int)
}
