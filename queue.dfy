/**
 * The queue's transitions as pure functions on the stored record
 * (worker/durableObject.ts), the invariant the three mutating operations
 * keep, and the lemmas that they keep it.
 */
module QueueLogic {
  import opened Wrappers
  import opened QueueTypes

  // ---------------------------------------------------------------------
  // Reading the record
  // ---------------------------------------------------------------------

  /** The state of a queue that has never been written, and of one just reset. */
  function InitialState(): (s: QueueState)
    ensures Valid(s) && s.tickets == [] && s.currentlyServing == None && s.lastTicketNumber == 0
  {
    QueueState([], None, 0)
  }

  /**
   * What `getQueueState` returns for the stored value (absent when never
   * written): the stored record, or the empty one; valid whenever what is
   * stored is.
   */
  function Load(stored: Option<QueueState>): (s: QueueState)
    ensures stored.Some? ==> s == stored.value
    ensures stored.None? ==> s.tickets == [] && s.currentlyServing == None && s.lastTicketNumber == 0
    ensures (stored.None? || Valid(stored.value)) ==> Valid(s)
  {
    stored.GetOr(InitialState())
  }

  // ---------------------------------------------------------------------
  // The invariant
  // ---------------------------------------------------------------------

  /** Progress of a status along the lifecycle. */
  function Rank(st: Status): nat {
    match st
    case Waiting => 0
    case Serving => 1
    case Served => 2
  }

  predicate IdInUse(s: QueueState, id: string) {
    exists i :: 0 <= i < |s.tickets| && s.tickets[i].id == id
  }

  predicate UniqueIds(ts: seq<Ticket>) {
    forall i, j :: 0 <= i < j < |ts| ==> ts[i].id != ts[j].id
  }

  /** Ticket i carries number i + 1, and the counter is the last number issued. */
  predicate Numbered(s: QueueState) {
    s.lastTicketNumber == |s.tickets| &&
    forall i :: 0 <= i < |s.tickets| ==> s.tickets[i].number == i + 1
  }

  /**
   * Read along the sequence the statuses are served*, then at most one
   * serving, then waiting*.
   */
  predicate StatusShape(ts: seq<Ticket>) {
    (forall i, j :: 0 <= i < j < |ts| ==> Rank(ts[j].status) <= Rank(ts[i].status)) &&
    (forall i, j :: 0 <= i < j < |ts| ==> !(ts[i].status == Serving && ts[j].status == Serving))
  }

  /** `currentlyServing` is null exactly when no ticket is serving, and otherwise is that ticket. */
  predicate ServingInSync(s: QueueState) {
    match s.currentlyServing
    case None => forall i :: 0 <= i < |s.tickets| ==> s.tickets[i].status != Serving
    case Some(c) => c.status == Serving && exists k :: 0 <= k < |s.tickets| && s.tickets[k] == c
  }

  predicate Valid(s: QueueState) {
    UniqueIds(s.tickets) && Numbered(s) && StatusShape(s.tickets) && ServingInSync(s)
  }

  // ---------------------------------------------------------------------
  // createTicket
  // ---------------------------------------------------------------------

  datatype Created = Created(state: QueueState, ticket: Ticket)

  /** The new record and the new ticket of `createTicket`, given the fresh id and the clock reading. */
  function Create(s: QueueState, id: string, name: string, createdAt: string): (r: Created)
    ensures r.ticket == Ticket(id, s.lastTicketNumber + 1, name, Waiting, createdAt)
    ensures |r.state.tickets| == |s.tickets| + 1
    ensures r.state.tickets[..|s.tickets|] == s.tickets && r.state.tickets[|s.tickets|] == r.ticket
    ensures r.state.lastTicketNumber == r.ticket.number
    ensures r.state.currentlyServing == s.currentlyServing
  {
    var t := Ticket(id, s.lastTicketNumber + 1, name, Waiting, createdAt);
    Created(s.(tickets := s.tickets + [t], lastTicketNumber := t.number), t)
  }

  lemma CreatePreservesValid(s: QueueState, id: string, name: string, createdAt: string)
    requires Valid(s) && !IdInUse(s, id)
    ensures Valid(Create(s, id, name, createdAt).state)
  {
  }

  /** Tickets already issued, `served` ones included, are left exactly as they were. */
  lemma CreateKeepsEarlierTickets(s: QueueState, id: string, name: string, createdAt: string, i: int)
    requires 0 <= i < |s.tickets|
    ensures Create(s, id, name, createdAt).state.tickets[i] == s.tickets[i]
  {
  }

  // ---------------------------------------------------------------------
  // callNextTicket
  // ---------------------------------------------------------------------

  /** Index k holds the first ticket, in sequence order, whose status is waiting. */
  predicate IsFirstWaiting(ts: seq<Ticket>, k: int) {
    0 <= k < |ts| && ts[k].status == Waiting &&
    forall j :: 0 <= j < k ==> ts[j].status != Waiting
  }

  /** `tickets.find(t => t.status === 'waiting')`. */
  function FindWaiting(ts: seq<Ticket>): (r: Option<Ticket>)
    ensures r.None? <==> forall i :: 0 <= i < |ts| ==> ts[i].status != Waiting
    ensures forall k :: IsFirstWaiting(ts, k) ==> r == Some(ts[k])
  {
    if ts == [] then None
    else if ts[0].status == Waiting then Some(ts[0])
    else
      var r := FindWaiting(ts[1..]);
      assert forall k :: IsFirstWaiting(ts, k) ==> k >= 1 && IsFirstWaiting(ts[1..], k - 1);
      assert forall i :: 1 <= i < |ts| ==> ts[i] == ts[1..][i - 1];
      r
  }

  /** Whether the callback of the `map` takes its second branch (promotion) for t. */
  predicate Promotes(t: Ticket, cur: Option<Ticket>, next: Option<Ticket>) {
    !(cur.Some? && t.id == cur.value.id) && next.Some? && t.id == next.value.id
  }

  /**
   * The callback of the `map`: retire the current ticket, promote the next
   * one, keep the rest. Only the status can change, and it becomes served,
   * or serving when the ticket takes the promotion branch.
   */
  function Step(t: Ticket, cur: Option<Ticket>, next: Option<Ticket>): (r: Ticket)
    ensures r == t.(status := r.status)
    ensures r.status == t.status || r.status == Served || (r.status == Serving && Promotes(t, cur, next))
  {
    if cur.Some? && t.id == cur.value.id then t.(status := Served)
    else if next.Some? && t.id == next.value.id then t.(status := Serving)
    else t
  }

  /** The mapped tickets and the last value the callback assigned to `newCurrentlyServing`. */
  datatype Mapped = Mapped(tickets: seq<Ticket>, promoted: Option<Ticket>)

  /**
   * `tickets.map(...)` run from the front, threading the captured variable
   * `newCurrentlyServing` (which starts as `promoted`).
   */
  function MapTickets(ts: seq<Ticket>, cur: Option<Ticket>, next: Option<Ticket>, promoted: Option<Ticket>): (r: Mapped)
    ensures |r.tickets| == |ts|
    ensures forall i :: 0 <= i < |ts| ==> r.tickets[i] == Step(ts[i], cur, next)
    ensures r.promoted == promoted || (r.promoted.Some? && r.promoted.value.status == Serving)
    decreases |ts|
  {
    if ts == [] then Mapped([], promoted)
    else
      var t := Step(ts[0], cur, next);
      var rest := MapTickets(ts[1..], cur, next, if Promotes(ts[0], cur, next) then Some(t) else promoted);
      Mapped([t] + rest.tickets, rest.promoted)
  }

  /**
   * The record written by `callNextTicket`: as many tickets as before, the
   * same counter, and a `currentlyServing` that is null or a serving ticket.
   */
  function CallNext(s: QueueState): (r: QueueState)
    ensures |r.tickets| == |s.tickets| && r.lastTicketNumber == s.lastTicketNumber
    ensures r.currentlyServing.Some? ==> r.currentlyServing.value.status == Serving
  {
    var m := MapTickets(s.tickets, s.currentlyServing, FindWaiting(s.tickets), None);
    s.(tickets := m.tickets, currentlyServing := m.promoted)
  }

  /** While no ticket takes the promotion branch, `newCurrentlyServing` keeps its value. */
  lemma {:induction false} MapNoPromotion(ts: seq<Ticket>, cur: Option<Ticket>, next: Option<Ticket>, acc: Option<Ticket>)
    requires forall i :: 0 <= i < |ts| ==> !Promotes(ts[i], cur, next)
    ensures MapTickets(ts, cur, next, acc).promoted == acc
    decreases |ts|
  {
    if ts != [] {
      assert forall i :: 0 <= i < |ts[1..]| ==> ts[1..][i] == ts[i + 1];
      MapNoPromotion(ts[1..], cur, next, acc);
    }
  }

  /** `newCurrentlyServing` ends as the promotion made by the last ticket that took that branch. */
  lemma {:induction false} MapLastPromotion(ts: seq<Ticket>, cur: Option<Ticket>, next: Option<Ticket>, acc: Option<Ticket>, k: int)
    requires 0 <= k < |ts| && Promotes(ts[k], cur, next)
    requires forall j :: k < j < |ts| ==> !Promotes(ts[j], cur, next)
    ensures MapTickets(ts, cur, next, acc).promoted == Some(ts[k].(status := Serving))
    decreases |ts|
  {
    var acc' := if Promotes(ts[0], cur, next) then Some(Step(ts[0], cur, next)) else acc;
    assert forall i :: 0 <= i < |ts[1..]| ==> ts[1..][i] == ts[i + 1];
    if k == 0 {
      MapNoPromotion(ts[1..], cur, next, acc');
    } else {
      MapLastPromotion(ts[1..], cur, next, acc', k - 1);
    }
  }

  /** In a valid record the serving ticket is the one `currentlyServing` holds. */
  lemma ServingIsCurrent(s: QueueState, i: int)
    requires Valid(s) && 0 <= i < |s.tickets| && s.tickets[i].status == Serving
    ensures s.currentlyServing == Some(s.tickets[i])
  {
  }

  /** What `callNextTicket` does to ticket i of a valid record. */
  lemma CallNextAt(s: QueueState, i: int)
    requires Valid(s) && 0 <= i < |s.tickets|
    ensures |CallNext(s).tickets| == |s.tickets|
    ensures s.tickets[i].status == Serving ==> CallNext(s).tickets[i] == s.tickets[i].(status := Served)
    ensures IsFirstWaiting(s.tickets, i) ==> CallNext(s).tickets[i] == s.tickets[i].(status := Serving)
    ensures s.tickets[i].status != Serving && !IsFirstWaiting(s.tickets, i) ==> CallNext(s).tickets[i] == s.tickets[i]
  {
    var ts, cur, next := s.tickets, s.currentlyServing, FindWaiting(s.tickets);
    assert CallNext(s).tickets[i] == Step(ts[i], cur, next);
    if ts[i].status == Serving {
      ServingIsCurrent(s, i);
    } else {
      if cur.Some? {
        var k :| 0 <= k < |ts| && ts[k] == cur.value;
        assert k != i;
        assert ts[i].id != cur.value.id;
      }
      if next.Some? && !IsFirstWaiting(ts, i) {
        var k :| IsFirstWaiting(ts, k) by {
          var w :| 0 <= w < |ts| && ts[w].status == Waiting;
          FirstWaitingExists(ts, w);
        }
        assert k != i;
        assert ts[i].id != next.value.id;
      }
    }
  }

  /** If some ticket at or before w is waiting, a first waiting ticket exists. */
  lemma {:induction false} FirstWaitingExists(ts: seq<Ticket>, w: int)
    requires 0 <= w < |ts| && ts[w].status == Waiting
    ensures exists k :: 0 <= k <= w && IsFirstWaiting(ts, k)
    decreases w
  {
    if forall j :: 0 <= j < w ==> ts[j].status != Waiting {
      assert IsFirstWaiting(ts, w);
    } else {
      var j :| 0 <= j < w && ts[j].status == Waiting;
      FirstWaitingExists(ts, j);
    }
  }

  /**
   * After `callNextTicket` on a valid record, with k the first waiting
   * ticket: every ticket before k is served, k is serving and every ticket
   * after it is still waiting. With nobody waiting, every ticket is served.
   */
  lemma CallNextStatuses(s: QueueState)
    requires Valid(s)
    ensures forall k :: IsFirstWaiting(s.tickets, k) ==>
              (forall i :: 0 <= i < k ==> CallNext(s).tickets[i].status == Served) &&
              CallNext(s).tickets[k].status == Serving &&
              (forall i :: k < i < |s.tickets| ==> CallNext(s).tickets[i].status == Waiting)
    ensures (forall i :: 0 <= i < |s.tickets| ==> s.tickets[i].status != Waiting) ==>
              forall i :: 0 <= i < |s.tickets| ==> CallNext(s).tickets[i].status == Served
  {
    var ts, r := s.tickets, CallNext(s);
    forall i | 0 <= i < |ts|
      ensures ts[i].status == Serving ==> r.tickets[i].status == Served
      ensures IsFirstWaiting(ts, i) ==> r.tickets[i].status == Serving
      ensures ts[i].status != Serving && !IsFirstWaiting(ts, i) ==> r.tickets[i] == ts[i]
    {
      CallNextAt(s, i);
    }
    forall k, i | IsFirstWaiting(ts, k) && k < i < |ts|
      ensures r.tickets[i].status == Waiting
    {
      assert Rank(ts[i].status) <= Rank(ts[k].status);
    }
  }

  /**
   * `callNextTicket` on a valid record makes the first waiting ticket, with
   * its status set to serving, the new `currentlyServing`; with nobody
   * waiting, `currentlyServing` becomes null.
   */
  lemma CallNextPromotes(s: QueueState)
    requires Valid(s)
    ensures forall k :: IsFirstWaiting(s.tickets, k) ==>
              CallNext(s).currentlyServing == Some(s.tickets[k].(status := Serving))
    ensures (forall i :: 0 <= i < |s.tickets| ==> s.tickets[i].status != Waiting) ==>
              CallNext(s).currentlyServing == None
  {
    var ts, cur, next := s.tickets, s.currentlyServing, FindWaiting(s.tickets);
    if next.None? {
      MapNoPromotion(ts, cur, next, None);
    } else {
      var w :| 0 <= w < |ts| && ts[w].status == Waiting;
      FirstWaitingExists(ts, w);
      var k :| 0 <= k <= w && IsFirstWaiting(ts, k);
      assert next == Some(ts[k]);
      if cur.Some? {
        var c :| 0 <= c < |ts| && ts[c] == cur.value;
        assert c != k;
      }
      assert Promotes(ts[k], cur, next);
      MapLastPromotion(ts, cur, next, None, k);
    }
  }

  lemma CallNextPreservesValid(s: QueueState)
    requires Valid(s)
    ensures Valid(CallNext(s))
  {
    var ts, r := s.tickets, CallNext(s);
    CallNextKeepsIdsAndNumbers(s);
    if forall i :: 0 <= i < |ts| ==> ts[i].status != Waiting {
      CallNextStatuses(s);
      CallNextPromotes(s);
    } else {
      var w :| 0 <= w < |ts| && ts[w].status == Waiting;
      FirstWaitingExists(ts, w);
      var k :| 0 <= k <= w && IsFirstWaiting(ts, k);
      CallNextSyncAt(s, k);
    }
  }

  lemma CallNextKeepsIdsAndNumbers(s: QueueState)
    requires Valid(s)
    ensures UniqueIds(CallNext(s).tickets) && Numbered(CallNext(s))
  {
  }

  lemma CallNextSyncAt(s: QueueState, k: int)
    requires Valid(s) && IsFirstWaiting(s.tickets, k)
    ensures StatusShape(CallNext(s).tickets) && ServingInSync(CallNext(s))
  {
    var r := CallNext(s);
    CallNextStatuses(s);
    CallNextPromotes(s);
    CallNextAt(s, k);
    assert r.tickets[k] == r.currentlyServing.value;
    ShapeAroundCut(r.tickets, k);
  }

  /** Served before k, serving at k, waiting after k is the shape StatusShape allows. */
  lemma ShapeAroundCut(ts: seq<Ticket>, k: int)
    requires 0 <= k < |ts|
    requires forall i :: 0 <= i < k ==> ts[i].status == Served
    requires ts[k].status == Serving
    requires forall i :: k < i < |ts| ==> ts[i].status == Waiting
    ensures StatusShape(ts)
    ensures forall i :: 0 <= i < |ts| && ts[i].status == Serving ==> i == k
  {
  }

  /**
   * `callNextTicket` keeps the length and order of the tickets, each
   * ticket's id, number, name and creation time, and the counter; and it
   * marks as served every ticket whose id is that of `currentlyServing`,
   * whether or not any ticket is waiting.
   */
  lemma CallNextFrame(s: QueueState)
    ensures |CallNext(s).tickets| == |s.tickets|
    ensures CallNext(s).lastTicketNumber == s.lastTicketNumber
    ensures forall i :: 0 <= i < |s.tickets| ==>
              CallNext(s).tickets[i] == s.tickets[i].(status := CallNext(s).tickets[i].status)
    ensures s.currentlyServing.Some? ==>
              forall i :: 0 <= i < |s.tickets| && s.tickets[i].id == s.currentlyServing.value.id ==>
                CallNext(s).tickets[i].status == Served
  {
  }

  /**
   * On a valid record `callNextTicket` leaves served tickets alone, changes
   * only the serving ticket (to served) and the first waiting one (to
   * serving), and never moves a ticket back or more than one step forward.
   */
  lemma CallNextAdvances(s: QueueState)
    requires Valid(s)
    ensures forall i :: 0 <= i < |s.tickets| && s.tickets[i].status == Served ==>
              CallNext(s).tickets[i] == s.tickets[i]
    ensures forall i :: 0 <= i < |s.tickets| && CallNext(s).tickets[i].status != s.tickets[i].status ==>
              s.tickets[i].status == Serving || IsFirstWaiting(s.tickets, i)
    ensures forall i :: 0 <= i < |s.tickets| ==>
              Rank(CallNext(s).tickets[i].status) - Rank(s.tickets[i].status) in {0, 1}
  {
    forall i | 0 <= i < |s.tickets|
      ensures s.tickets[i].status == Served ==> CallNext(s).tickets[i] == s.tickets[i]
      ensures CallNext(s).tickets[i].status != s.tickets[i].status ==>
                s.tickets[i].status == Serving || IsFirstWaiting(s.tickets, i)
      ensures Rank(CallNext(s).tickets[i].status) - Rank(s.tickets[i].status) in {0, 1}
    {
      CallNextAt(s, i);
    }
  }

  // ---------------------------------------------------------------------
  // Consequences of the invariant
  // ---------------------------------------------------------------------

  /** Ticket numbers are exactly 1 .. lastTicketNumber, strictly increasing along the sequence. */
  lemma NumbersGapFree(s: QueueState)
    requires Valid(s)
    ensures forall i, j :: 0 <= i < j < |s.tickets| ==> s.tickets[i].number < s.tickets[j].number
    ensures forall n :: n in Numbers(s.tickets) <==> 1 <= n <= s.lastTicketNumber
  {
    var ts := s.tickets;
    forall n | 1 <= n <= s.lastTicketNumber ensures n in Numbers(ts) {
      assert ts[n - 1] in ts;
    }
    forall t | t in ts ensures 1 <= t.number <= s.lastTicketNumber {
      var i :| 0 <= i < |ts| && ts[i] == t;
    }
  }

  function Numbers(ts: seq<Ticket>): set<int> {
    set t | t in ts :: t.number
  }

  /**
   * Service follows ticket numbers: a ticket further along its lifecycle
   * than another always has the lower number.
   */
  lemma ServiceOrder(s: QueueState)
    requires Valid(s)
    ensures forall i, j :: (0 <= i < |s.tickets| && 0 <= j < |s.tickets| &&
                            Rank(s.tickets[i].status) > Rank(s.tickets[j].status)) ==>
              s.tickets[i].number < s.tickets[j].number
  {
  }

  /** `callNextTicket` calls the lowest-numbered waiting ticket, if there is one. */
  lemma CallNextServesLowestWaiting(s: QueueState)
    requires Valid(s)
    ensures (exists i :: 0 <= i < |s.tickets| && s.tickets[i].status == Waiting) <==>
              CallNext(s).currentlyServing.Some?
    ensures CallNext(s).currentlyServing.Some? ==>
              var c := CallNext(s).currentlyServing.value;
              c.status == Serving &&
              (exists k :: 0 <= k < |s.tickets| && s.tickets[k].status == Waiting && c == s.tickets[k].(status := Serving)) &&
              forall j :: 0 <= j < |s.tickets| && s.tickets[j].status == Waiting ==> c.number <= s.tickets[j].number
  {
    CallNextPromotes(s);
    if exists i :: 0 <= i < |s.tickets| && s.tickets[i].status == Waiting {
      var w :| 0 <= w < |s.tickets| && s.tickets[w].status == Waiting;
      FirstWaitingExists(s.tickets, w);
      var k :| 0 <= k <= w && IsFirstWaiting(s.tickets, k);
      FirstWaitingIsLowest(s, k);
    }
  }

  /** The first waiting ticket carries the lowest number among the waiting ones. */
  lemma FirstWaitingIsLowest(s: QueueState, k: int)
    requires Valid(s) && IsFirstWaiting(s.tickets, k)
    ensures forall j :: 0 <= j < |s.tickets| && s.tickets[j].status == Waiting ==>
              s.tickets[k].number <= s.tickets[j].number
  {
  }

  /** Two calls in a row serve two tickets in increasing number order. */
  lemma {:induction false} ConsecutiveCallsFifo(s: QueueState)
    requires Valid(s)
    requires CallNext(s).currentlyServing.Some? && CallNext(CallNext(s)).currentlyServing.Some?
    ensures CallNext(s).currentlyServing.value.number < CallNext(CallNext(s)).currentlyServing.value.number
  {
    var r1 := CallNext(s);
    CallNextPreservesValid(s);
    CallNextServesLowestWaiting(r1);
    var a, b := r1.currentlyServing.value, CallNext(r1).currentlyServing.value;
    var ka :| 0 <= ka < |r1.tickets| && r1.tickets[ka] == a;
    var kb :| 0 <= kb < |r1.tickets| && r1.tickets[kb].status == Waiting && b == r1.tickets[kb].(status := Serving);
    ServiceOrder(r1);
    assert Rank(r1.tickets[ka].status) > Rank(r1.tickets[kb].status);
  }

  /** An example run: Ana and Luis, issued from an empty queue as tickets 1 and 2. */
  lemma ScenarioIssue()
    ensures Create(Create(InitialState(), "a", "Ana", "t1").state, "b", "Luis", "t2").state ==
              QueueState([Ticket("a", 1, "Ana", Waiting, "t1"), Ticket("b", 2, "Luis", Waiting, "t2")], None, 2)
  {
    var s1 := Create(InitialState(), "a", "Ana", "t1").state;
    assert s1 == QueueState([Ticket("a", 1, "Ana", Waiting, "t1")], None, 1);
  }

  /** The first call serves ticket 1. */
  lemma ScenarioFirstCall()
    ensures var ana, luis := Ticket("a", 1, "Ana", Waiting, "t1"), Ticket("b", 2, "Luis", Waiting, "t2");
            CallNext(QueueState([ana, luis], None, 2)) ==
              QueueState([ana.(status := Serving), luis], Some(ana.(status := Serving)), 2)
  {
    var ana, luis := Ticket("a", 1, "Ana", Waiting, "t1"), Ticket("b", 2, "Luis", Waiting, "t2");
    var s := QueueState([ana, luis], None, 2);
    assert "a"[0] != "b"[0];
    assert IsFirstWaiting(s.tickets, 0);
    ScenarioCall(s, 0);
  }

  /** The second call retires ticket 1 and serves ticket 2. */
  lemma ScenarioSecondCall()
    ensures var ana, luis := Ticket("a", 1, "Ana", Serving, "t1"), Ticket("b", 2, "Luis", Waiting, "t2");
            CallNext(QueueState([ana, luis], Some(ana), 2)) ==
              QueueState([ana.(status := Served), luis.(status := Serving)], Some(luis.(status := Serving)), 2)
  {
    var ana, luis := Ticket("a", 1, "Ana", Serving, "t1"), Ticket("b", 2, "Luis", Waiting, "t2");
    var s := QueueState([ana, luis], Some(ana), 2);
    assert "a"[0] != "b"[0];
    assert s.tickets[0] == ana;
    assert IsFirstWaiting(s.tickets, 1);
    ScenarioCall(s, 1);
  }

  /** The third call retires ticket 2 and, with nobody waiting, leaves nobody serving. */
  lemma ScenarioThirdCall()
    ensures var ana, luis := Ticket("a", 1, "Ana", Served, "t1"), Ticket("b", 2, "Luis", Serving, "t2");
            CallNext(QueueState([ana, luis], Some(luis), 2)) ==
              QueueState([ana, luis.(status := Served)], None, 2)
  {
    var ana, luis := Ticket("a", 1, "Ana", Served, "t1"), Ticket("b", 2, "Luis", Serving, "t2");
    var s := QueueState([ana, luis], Some(luis), 2);
    assert "a"[0] != "b"[0];
    assert s.tickets[1] == luis;
    ScenarioCall(s, 2);
  }

  /** `callNextTicket` on a valid two-ticket record whose first waiting ticket is at index k (2 when none). */
  lemma ScenarioCall(s: QueueState, k: int)
    requires Valid(s) && |s.tickets| == 2 && 0 <= k <= 2
    requires k < 2 ==> IsFirstWaiting(s.tickets, k)
    requires k == 2 ==> forall i :: 0 <= i < 2 ==> s.tickets[i].status != Waiting
    ensures CallNext(s).tickets ==
              seq(2, i requires 0 <= i < 2 =>
                if s.tickets[i].status == Serving then s.tickets[i].(status := Served)
                else if i == k then s.tickets[i].(status := Serving)
                else s.tickets[i])
    ensures CallNext(s).currentlyServing == if k < 2 then Some(s.tickets[k].(status := Serving)) else None
    ensures CallNext(s).lastTicketNumber == s.lastTicketNumber
  {
    CallNextPromotes(s);
    CallNextAt(s, 0);
    CallNextAt(s, 1);
  }
}
