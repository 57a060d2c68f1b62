# Ticket queue (turnolisto) in Dafny

A model of the worker behind a numbered-ticket queue. Customers take a
ticket, an operator calls the next one, and a display shows who is being
served. The core is the one global queue object (`GlobalDurableObject`).
It stores a single record `{tickets, currentlyServing, lastTicketNumber}`.
Two operations read that record whole, transform it and write it back
whole, and a third only overwrites it:

- `createTicket` appends a waiting ticket numbered `lastTicketNumber + 1`;
- `callNextTicket` retires the serving ticket to `served` and promotes the
  first waiting ticket to `serving`;
- `resetQueue` reads nothing and writes the empty record.

Around the object sit two pieces of route logic. One is the name check
(1 to 50 characters) that runs before a ticket is created. The other is the
CSV history export.

Files and modules:

- `wrappers.dfy` (`Wrappers`): `Option` and `Result`.
- `types.dfy` (`QueueTypes`): `Status`, `Ticket` and `QueueState`, from `shared/types.ts`.
- `queue.dfy` (`QueueLogic`): the transitions as pure functions (`Create`,
  `CallNext` and `InitialState`). It also holds the record invariant `Valid`
  and the lemmas about them.
  - `Valid` says: ids are unique; ticket `i` has number `i + 1` and
    `lastTicketNumber == |tickets|`; read along the sequence, statuses are
    `served*`, then at most one `serving`, then `waiting*`; and
    `currentlyServing` is null exactly when no ticket is serving, and
    otherwise is that ticket.
  - `CallNext` models the source's `map` as a fold (`MapTickets`). The fold
    threads the captured variable `newCurrentlyServing`, so that variable's
    behaviour is modelled exactly, even on records where several tickets
    share an id.
- `durable_object.dfy` (`DurableObject`): the class `GlobalDurableObject`.
  Its field `stored` stands for the storage key `"queue_state"`.
  `CreateTicket` and `CallNextTicket` do the read-modify-write of the
  source; `ResetQueue` only overwrites. Every mutating method keeps `Valid()`.
- `history_csv.dfy` (`HistoryCsv`): the export. It has the header, one row
  per ticket, the doubling of quotes in the name, and the join with `\n`.
- `csv_reader.dfy` (`CsvReader`): a reader for the export, written
  separately from the writer. Reading an export back gives exactly the
  exported tickets, in order, for any names.
- `user_routes.dfy` (`UserRoutes`): the name check, the ticket route it
  guards, and the history route.

Facts of the code that the model keeps:

- The export header is `ID,Numero,Nombre,Estado,FechaCreacion` followed by
  a line feed (`worker/userRoutes.ts:35`).
- The name is checked by the route's schema (`worker/userRoutes.ts:6-8`);
  `createTicket` itself accepts any name.
- `callNextTicket` promotes the first waiting ticket in sequence order.
  `CallNextServesLowestWaiting` proves that this is the lowest-numbered
  waiting ticket.

## Model

| member | source | states |
|---|---|---|
| `QueueLogic.InitialState` | worker/durableObject.ts:4-8 | the empty record: no tickets, nobody serving, counter 0; it satisfies the invariant |
| `QueueLogic.Load` | worker/durableObject.ts:11-12 | the stored record when there is one, otherwise the empty record; valid whenever what is stored is valid |
| `QueueLogic.Create` | worker/durableObject.ts:14-31 | the new ticket has number `lastTicketNumber + 1`, status waiting and the given id, name and time; it is appended after the unchanged earlier tickets; the counter becomes its number; `currentlyServing` is untouched |
| `QueueLogic.CreatePreservesValid` | worker/durableObject.ts:16-28 | with a fresh id, creating a ticket keeps the invariant: unique ids, numbering `i + 1` with no gaps, status shape, `currentlyServing` in sync |
| `QueueLogic.CreateKeepsEarlierTickets` | worker/durableObject.ts:24-28 | every ticket issued before is left exactly as it was, served ones included |
| `QueueLogic.FindWaiting` | worker/durableObject.ts:36 | `find` gives null exactly when no ticket waits, and otherwise the first waiting ticket in sequence order |
| `QueueLogic.Step` | worker/durableObject.ts:40-50 | the `map` callback changes only a ticket's status: it stays, becomes served, or becomes serving when the ticket takes the promotion branch |
| `QueueLogic.MapTickets` | worker/durableObject.ts:39-51 | the `map` keeps the length, and each output ticket is the callback applied to the input ticket at the same position; `newCurrentlyServing` keeps its start value or ends as a serving ticket |
| `QueueLogic.CallNext` | worker/durableObject.ts:32-57 | the new record has as many tickets as before and the same counter, and `currentlyServing` is null or a serving ticket; `CallNextAt`, `CallNextPromotes` and `CallNextPreservesValid` state the rest |
| `QueueLogic.MapNoPromotion` | worker/durableObject.ts:37-48 | if no ticket takes the promotion branch, `newCurrentlyServing` stays null |
| `QueueLogic.MapLastPromotion` | worker/durableObject.ts:44-48 | `newCurrentlyServing` ends as the last promoted ticket, with status serving |
| `QueueLogic.ServingIsCurrent` | worker/durableObject.ts:41-56 | in a valid record, a ticket that is serving is exactly `currentlyServing` |
| `QueueLogic.CallNextAt` | worker/durableObject.ts:39-51 | on a valid record, the serving ticket becomes served, the first waiting ticket becomes serving, and every other ticket is unchanged |
| `QueueLogic.CallNextStatuses` | worker/durableObject.ts:36-51 | after a call, the tickets before the first waiting one are served, it is serving, and those after it still wait; with nobody waiting, all tickets are served |
| `QueueLogic.CallNextPromotes` | worker/durableObject.ts:36-56 | the new `currentlyServing` is the first waiting ticket with status serving; with nobody waiting it is null |
| `QueueLogic.CallNextPreservesValid` | worker/durableObject.ts:32-61 | a call keeps the invariant: at most one serving, `currentlyServing` in sync, and the served*/serving?/waiting* shape |
| `QueueLogic.CallNextFrame` | worker/durableObject.ts:39-57 | on any record, a call keeps the length and order of the tickets, each ticket's id, number, name and time, and the counter; it marks as served every ticket whose id is `currentlyServing`'s, even when nobody is waiting |
| `QueueLogic.CallNextAdvances` | worker/durableObject.ts:39-51 | on a valid record, served tickets are untouched; only the serving ticket and the first waiting ticket change; a status moves forward by at most one step and never back |
| `QueueLogic.NumbersGapFree` | worker/durableObject.ts:16-27 | in a valid record, numbers strictly increase along the sequence and are exactly `1 .. lastTicketNumber` |
| `QueueLogic.ServiceOrder` | worker/durableObject.ts:36-47 | FIFO: a ticket further along its lifecycle than another always has the smaller number |
| `QueueLogic.CallNextServesLowestWaiting` | worker/durableObject.ts:36-47 | someone is served after a call if and only if some ticket was waiting; the ticket served is a waiting ticket, now serving, with the lowest number among the waiting ones |
| `QueueLogic.ConsecutiveCallsFifo` | worker/durableObject.ts:32-61 | two calls in a row serve tickets in strictly increasing number order |
| `QueueLogic.ScenarioIssue` | worker/durableObject.ts:14-31 | from the empty queue, Ana and Luis receive tickets 1 and 2, both waiting, and the counter is 2 |
| `QueueLogic.ScenarioFirstCall` | worker/durableObject.ts:32-61 | the first call serves ticket 1 |
| `QueueLogic.ScenarioSecondCall` | worker/durableObject.ts:32-61 | the second call retires ticket 1 and serves ticket 2 |
| `QueueLogic.ScenarioThirdCall` | worker/durableObject.ts:32-61 | the third call retires ticket 2 and leaves nobody serving |
| `DurableObject.GlobalDurableObject.constructor` | worker/durableObject.ts:9 | a new object has nothing stored and is valid |
| `DurableObject.GlobalDurableObject.GetQueueState` | worker/durableObject.ts:10-13 | with nothing stored, it returns the empty record `{[], null, 0}`; otherwise it returns the stored record; a valid object gives a valid record |
| `DurableObject.GlobalDurableObject.CreateTicket` | worker/durableObject.ts:14-31 | it stores `Create` of the record read and returns the new ticket, numbered one past the old counter and waiting; the tickets become the old ones plus this one; `currentlyServing` is unchanged; validity is kept |
| `DurableObject.GlobalDurableObject.CallNextTicket` | worker/durableObject.ts:32-61 | it stores and returns `CallNext` of the record read; validity is kept |
| `DurableObject.GlobalDurableObject.ResetQueue` | worker/durableObject.ts:62-66 | whatever was stored, it stores and returns the empty record, so applying it twice is the same as once |
| `HistoryCsv.EscapeQuotes` | worker/userRoutes.ts:37 | the `replace` never shortens the name and keeps exactly its characters; `EscapeQuotesPairs` and `UnquoteQuoteField` pin down the rest |
| `HistoryCsv.QuoteField` | worker/userRoutes.ts:37 | the name field begins and ends with a quote |
| `HistoryCsv.StatusText` | worker/userRoutes.ts:38 | the status field is never empty and contains no comma or line feed; `ParseStatusText` reads it back |
| `HistoryCsv.NatToDecimal` | worker/userRoutes.ts:38 | `${t.number}` for a non-negative number: never empty, starting with a digit that is `0` only for zero, so there is no leading zero; `NatToDecimalDigits` shows that every character is a digit and that the digits read back as the number |
| `HistoryCsv.IntToDecimal` | worker/userRoutes.ts:38 | `${t.number}`: never empty, and it starts with a minus sign exactly when the number is negative; `IntToDecimalRoundTrip` reads it back |
| `HistoryCsv.Row` | worker/userRoutes.ts:36-38 | a row begins with the ticket's id and a comma and ends with a comma and its creation time; `ReadRecordOfRow` shows the five fields in order |
| `HistoryCsv.JoinLines` | worker/userRoutes.ts:39 | `join("\n")` of no rows is empty; otherwise the result begins with the first row and ends with the last, with no line feed after it |
| `HistoryCsv.History` | worker/userRoutes.ts:34-40 | the export of some tickets ends with the last ticket's row; `HistoryHeader` and `HistoryRoundTrip` state the header and the one-row-per-ticket order |
| `HistoryCsv.EscapeQuotesPairs` | worker/userRoutes.ts:37 | escaping doubles each quote and keeps every other character: one extra character per quote, quotes only in adjacent pairs, a name without quotes unchanged |
| `HistoryCsv.HistoryHeader` | worker/userRoutes.ts:35-40 | the export always starts with the header line, and with no tickets it is just the header |
| `HistoryCsv.JoinLinesSnoc` | worker/userRoutes.ts:39 | joined rows are separated by a single line feed, with none after the last row |
| `HistoryCsv.HistorySnoc` | worker/userRoutes.ts:35-40 | one more ticket adds exactly its row: directly after the header when it is the first ticket, otherwise after one line feed |
| `CsvReader.ReadQuotedOf` | worker/userRoutes.ts:37 | reading an escaped name up to its closing quote gives the name back, and leaves what follows untouched |
| `CsvReader.UnquoteQuoteField` | worker/userRoutes.ts:37 | stripping the outer quotes and collapsing each `""` recovers the original name |
| `CsvReader.QuoteFieldInjective` | worker/userRoutes.ts:37 | different names give different name fields |
| `CsvReader.NatToDecimalDigits` | worker/userRoutes.ts:38 | the number is written in decimal digits, and reading them gives the number back |
| `CsvReader.IntToDecimalRoundTrip` | worker/userRoutes.ts:38 | the number field has no separator and reads back as the ticket's number |
| `CsvReader.ParseStatusText` | worker/userRoutes.ts:38 | the status is written as `waiting`, `serving` or `served`, and reads back as the same status |
| `CsvReader.ReadRecordOfRow` | worker/userRoutes.ts:38 | a row is `id,number,"name",status,createdAt` in that order, and reads back as its ticket |
| `CsvReader.ReadRecordsOfRows` | worker/userRoutes.ts:36-39 | one row per ticket, in ticket order: the joined rows read back as the tickets, in order |
| `CsvReader.HistoryRoundTrip` | worker/userRoutes.ts:35-40 | reading the whole export back gives exactly the tickets, in order, whatever the names contain |
| `UserRoutes.Message` | worker/userRoutes.ts:7 | the schema's message for each failed check, never empty |
| `UserRoutes.ValidateName` | worker/userRoutes.ts:6-8 | a name is accepted if and only if it has 1 to 50 characters; an empty name fails the minimum check, and one over 50 fails the maximum check |
| `UserRoutes.PostTicket` | worker/userRoutes.ts:15-20 | a rejected name never reaches `createTicket`: the stored record is unchanged and the failure carries the schema's message; an accepted name creates the ticket |
| `UserRoutes.GetHistory` | worker/userRoutes.ts:31-40 | the export of the current tickets, starting with the header; the method has no `modifies` clause, so it writes nothing |

## Left out

- Storage: `ctx.storage.get/put` and `idFromName("global")` become the
  field `stored` of one object.
- Concurrency: the platform runs one request at a time on the object. Each
  method is therefore treated as atomic, and interleavings are not
  modelled.
- `uuidv4()` and `new Date().toISOString()` are nondeterministic foreign
  calls. They become the parameters `id` and `createdAt`.
- `DurableObject.GlobalDurableObject.CreateTicket`: requires the id not to
  be in use yet, because a uuid collision is not modelled.
- Object invariant: `CreateTicket` and `CallNextTicket` require `Valid()`,
  which the constructor establishes and every mutating method ensures. The
  source has no such check, because only these methods ever write the
  record.
- `stored` is an `Option`, standing for `state || getInitialState()`. A
  stored record is always an object, and so always truthy.
- Numbers: `number` and `lastTicketNumber` are JavaScript doubles. They are
  modelled as unbounded integers, so precision loss past 2^53 is not
  modelled.
- `UserRoutes.ValidateName`: counts the characters of a Dafny string. The
  schema counts UTF-16 code units, so a character outside the Basic
  Multilingual Plane counts as 2 there and as 1 here.
- `CsvReader.HistoryRoundTrip`: assumes ids and timestamps contain no
  comma or line feed. These fields are written unquoted, and a uuid and an
  ISO timestamp never contain either character.
- HTTP plumbing is not modelled:
  - Hono routing;
  - the zod/zValidator middleware machinery and its error body;
  - the JSON envelopes `{success, data}`;
  - the `Content-Type` and `Content-Disposition` headers
    (`worker/userRoutes.ts:10-14, 21-30, 41-46`).
- The state, next and reset routes only forward to `GetQueueState`,
  `CallNextTicket` and `ResetQueue`, which are modelled.
- `src/` is not part of this model. It holds the React pages, the fetch
  client with its session storage, the admin password gate, the audio cue
  and the display formatting: all UI and I/O.
- The `/api/counter` demo route is not part of this model; its backend is
  not among the sources.
