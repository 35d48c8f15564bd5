/** The polling event generators of backend/app/api/tasks.py and
    backend/app/api/activity.py: a time cursor and a bounded window of event
    ids that have been sent already. */
module EventStream {
  import opened Prelude

  type EventId = nat
  type Time = int

  datatype Event = Event(id: EventId, at: Time)

  const SSE_SEEN_MAX: nat := 2000

  function Max(a: Time, b: Time): Time {
    if a < b then b else a
  }

  function Last<T>(s: seq<T>, n: nat): seq<T> {
    if |s| <= n then s else s[|s| - n..]
  }

  // ---- what one poll sends ------------------------------------------------

  /** The history of a stream: all events sent so far, in order. The window is
      its suffix, the cursor its latest time. */
  function Sent(history: seq<Event>, rows: seq<Event>): (r: seq<Event>)
    ensures |history| <= |r| && r[..|history|] == history
  {
    if rows == [] then history
    else
      var before := Sent(history, rows[..|rows| - 1]);
      var e := rows[|rows| - 1];
      if e.id in Ids(Last(before, SSE_SEEN_MAX)) then before else before + [e]
  }

  function Ids(events: seq<Event>): seq<EventId> {
    seq(|events|, i requires 0 <= i < |events| => events[i].id)
  }

  function Cursor(since: Time, history: seq<Event>): Time {
    if history == [] then since else Max(history[|history| - 1].at, Cursor(since, history[..|history| - 1]))
  }

  class EventGenerator {
    const since: Time
    var lastSeen: Time
    var seenIds: set<EventId>
    var seenQueue: seq<EventId>
    ghost var history: seq<Event>

    ghost predicate Valid()
      reads this
    {
      && seenQueue == Ids(Last(history, SSE_SEEN_MAX))
      && Distinct(seenQueue)
      && seenIds == Elements(seenQueue)
      && lastSeen == Cursor(since, history)
    }

    constructor (since: Time)
      ensures Valid() && this.since == since && history == []
    {
      this.since := since;
      lastSeen, seenIds, seenQueue, history := since, {}, [], [];
    }

    /** One round of the loop over the rows that the query returned. */
    method Poll(rows: seq<Event>) returns (out: seq<Event>)
      requires Valid()
      modifies this
      ensures Valid() && history == Sent(old(history), rows)
      ensures history == old(history) + out
      ensures lastSeen >= old(lastSeen) && |seenQueue| <= SSE_SEEN_MAX
    {
      out := [];
      for k := 0 to |rows|
        invariant Valid() && history == Sent(old(history), rows[..k])
        invariant history == old(history) + out && lastSeen >= old(lastSeen)
      {
        assert rows[..k + 1][..k] == rows[..k];
        var sent := Offer(rows[k]);
        out := out + sent;
      }
      assert rows[..|rows|] == rows;
    }

    /** The body of that loop. */
    method Offer(event: Event) returns (sent: seq<Event>)
      requires Valid()
      modifies this
      ensures Valid() && history == old(history) + sent && lastSeen >= old(lastSeen)
      ensures sent == if event.id in Ids(Last(old(history), SSE_SEEN_MAX)) then [] else [event]
    {
      hide Ids, Last, Distinct, Cursor;
      assert event.id in seenIds <==> event.id in seenQueue;
      if event.id in seenIds {
        return [];
      }
      ghost var queue := seenQueue;
      seenIds := seenIds + {event.id};
      seenQueue := seenQueue + [event.id];
      ElementsSnoc(queue, event.id);
      DistinctSnoc(queue, event.id);
      if |seenQueue| > SSE_SEEN_MAX {
        var oldest := seenQueue[0];
        seenQueue := seenQueue[1..];
        seenIds := seenIds - {oldest};
        PopFront(queue + [event.id]);
      }
      lastSeen := Max(event.at, lastSeen);
      WindowSnoc(history, event);
      CursorSnoc(since, history, event);
      history := history + [event];
      return [event];
    }
  }

  lemma DistinctSnoc(queue: seq<EventId>, id: EventId)
    requires Distinct(queue) && id !in queue
    ensures Distinct(queue + [id])
  {
  }

  lemma CursorSnoc(since: Time, history: seq<Event>, e: Event)
    ensures Cursor(since, history + [e]) == Max(e.at, Cursor(since, history))
  {
    assert (history + [e])[..|history|] == history;
  }

  lemma PopFront(queue: seq<EventId>)
    requires Distinct(queue) && queue != []
    ensures Distinct(queue[1..]) && Elements(queue[1..]) == Elements(queue) - {queue[0]}
  {
    assert queue == [queue[0]] + queue[1..];
    assert forall x :: x in queue <==> x == queue[0] || x in queue[1..];
  }

  lemma WindowSnoc(history: seq<Event>, e: Event)
    ensures Ids(Last(history + [e], SSE_SEEN_MAX)) ==
      (var grown := Ids(Last(history, SSE_SEEN_MAX)) + [e.id]; if |grown| > SSE_SEEN_MAX then grown[1..] else grown)
  {
  }

  // ---- the window guarantee, with no assumption on the log -----------------

  /** Two events among SSE_SEEN_MAX + 1 consecutive ones never share an id. */
  ghost predicate Spaced(history: seq<Event>) {
    forall i, j :: 0 <= i < j < |history| && j - i <= SSE_SEEN_MAX ==> history[i].id != history[j].id
  }

  lemma {:induction false} PollKeepsSpacing(history: seq<Event>, rows: seq<Event>)
    requires Spaced(history)
    ensures Spaced(Sent(history, rows))
  {
    if rows != [] {
      var before := Sent(history, rows[..|rows| - 1]);
      PollKeepsSpacing(history, rows[..|rows| - 1]);
      var e := rows[|rows| - 1];
      var window := Last(before, SSE_SEEN_MAX);
      if e.id !in Ids(window) {
        forall i | 0 <= i < |before| && |before| - i <= SSE_SEEN_MAX ensures before[i].id != e.id {
          assert Ids(window)[i - (|before| - |window|)] == before[i].id;
        }
      }
    }
  }

  /** An id that is sent again comes after at least 2000 other events,
      all different from it and from each other. */
  lemma RepeatsAreFarApart(history: seq<Event>, i: nat, j: nat)
    requires Spaced(history) && i < j < |history| && history[i].id == history[j].id
    ensures j - i > 2000
    ensures Distinct(Ids(history[i..i + 2001]))
  {
    var run := history[i..i + SSE_SEEN_MAX + 1];
    forall a, b | 0 <= a < b < |run| ensures Ids(run)[a] != Ids(run)[b] {
      assert run[a] == history[i + a] && run[b] == history[i + b];
    }
  }

  // ---- exactly once --------------------------------------------------------

  /** One poll: the events visible to it and the rows its query returned. */
  datatype Round = Round(visible: set<Event>, rows: seq<Event>)

  ghost predicate InTimeOrder(events: seq<Event>) {
    forall i, j :: 0 <= i < j < |events| ==> events[i].at <= events[j].at
  }

  /** The query: every visible event from `from` on, oldest first, ties in any order. */
  ghost predicate IsFetch(rows: seq<Event>, visible: set<Event>, from: Time) {
    && InTimeOrder(rows) && Distinct(rows)
    && (forall e :: e in rows <==> e in visible && e.at >= from)
  }

  ghost function History(rounds: seq<Round>): seq<Event> {
    if rounds == [] then [] else Sent(History(rounds[..|rounds| - 1]), rounds[|rounds| - 1].rows)
  }

  ghost function EverVisible(rounds: seq<Round>): set<Event> {
    if rounds == [] then {} else EverVisible(rounds[..|rounds| - 1]) + rounds[|rounds| - 1].visible
  }

  ghost predicate Fetched(rounds: seq<Round>, e: Event) {
    exists k :: 0 <= k < |rounds| && e in rounds[k].rows
  }

  /** Every round asks for what it sees from the cursor on. Events may appear
      at any time, disappear and come back. */
  ghost predicate Polls(since: Time, rounds: seq<Round>) {
    forall k :: 0 <= k < |rounds| ==>
      IsFetch(rounds[k].rows, rounds[k].visible, Cursor(since, History(rounds[..k])))
  }

  /** The event is visible for the first time in round k. */
  ghost predicate AppearsAt(rounds: seq<Round>, e: Event, k: int) {
    0 <= k < |rounds| && e in rounds[k].visible && e !in EverVisible(rounds[..k])
  }

  /** No event appears after a later one has been fetched. */
  ghost predicate NoneLate(since: Time, rounds: seq<Round>) {
    forall e: Event, k, f: Event :: e.at >= since && AppearsAt(rounds, e, k) && Fetched(rounds[..k], f) ==> f.at <= e.at
  }

  ghost predicate IdsIdentify(events: set<Event>) {
    forall e, f :: e in events && f in events && e.id == f.id ==> e == f
  }

  ghost function Ties(events: set<Event>, t: Time): set<Event> {
    set e | e in events && e.at == t
  }

  ghost predicate FewTies(events: set<Event>) {
    forall t :: |Ties(events, t)| <= SSE_SEEN_MAX
  }

  lemma {:induction false} CursorOfOrdered(since: Time, history: seq<Event>)
    requires InTimeOrder(history) && forall e :: e in history ==> e.at >= since
    ensures Cursor(since, history) == if history == [] then since else history[|history| - 1].at
  {
    if |history| > 1 {
      CursorOfOrdered(since, history[..|history| - 1]);
    }
  }

  /** An event that was sent and is as old as everything sent after it is
      still inside the window. */
  lemma StillInWindow(history: seq<Event>, e: Event, all: set<Event>)
    requires e in history && InTimeOrder(history) && Distinct(history)
    requires forall f :: f in history ==> f in all && f.at <= e.at
    requires FewTies(all)
    ensures e.id in Ids(Last(history, SSE_SEEN_MAX))
  {
    var i :| 0 <= i < |history| && history[i] == e;
    var tail := history[i..];
    var ties := Ties(all, e.at);
    assert forall f :: f in tail ==> f in history;
    assert Elements(tail) <= ties;
    DistinctFits(tail, ties);
    var window := Last(history, SSE_SEEN_MAX);
    assert Ids(window)[i - (|history| - |window|)] == e.id;
  }

  lemma DeliverOne(history: seq<Event>, e: Event, all: set<Event>)
    requires InTimeOrder(history) && Distinct(history) && e in all
    requires forall f :: f in history ==> f in all && f.at <= e.at
    requires IdsIdentify(all) && FewTies(all)
    ensures e.id in Ids(Last(history, SSE_SEEN_MAX)) <==> e in history
  {
    if e in history {
      StillInWindow(history, e, all);
    } else {
      var window := Last(history, SSE_SEEN_MAX);
      assert forall f :: f in window ==> f in history;
      forall k | 0 <= k < |window| ensures Ids(window)[k] != e.id {
        assert window[k] in history;
      }
    }
  }

  lemma AppendLatest(history: seq<Event>, e: Event)
    requires InTimeOrder(history) && Distinct(history) && e !in history
    requires forall f :: f in history ==> f.at <= e.at
    ensures InTimeOrder(history + [e]) && Distinct(history + [e])
  {
  }

  /** The loop invariant of one poll, over the first `rows` of its query. */
  lemma {:induction false} SentDeliversNew(cursor: Time, history: seq<Event>, rows: seq<Event>, all: set<Event>)
    requires InTimeOrder(history) && Distinct(history) && InTimeOrder(rows) && Distinct(rows)
    requires forall e :: e in history ==> e in all && e.at <= cursor
    requires forall e :: e in rows ==> e in all && e.at >= cursor
    requires IdsIdentify(all) && FewTies(all)
    ensures var r := Sent(history, rows);
      && InTimeOrder(r) && Distinct(r)
      && (forall e :: e in r <==> e in history || e in rows)
  {
    if rows != [] {
      var front, e := rows[..|rows| - 1], rows[|rows| - 1];
      assert rows == front + [e];
      SentDeliversNew(cursor, history, front, all);
      var before := Sent(history, front);
      DeliverOne(before, e, all);
      if e !in before {
        AppendLatest(before, e);
      }
    }
  }

  lemma {:induction false} SentComesFromRows(history: seq<Event>, rows: seq<Event>, e: Event)
    requires e in Sent(history, rows)
    ensures e in history || e in rows
  {
    if rows != [] {
      var front := rows[..|rows| - 1];
      assert forall f :: f in front ==> f in rows;
      if e in Sent(history, front) {
        SentComesFromRows(history, front, e);
      }
    }
  }

  lemma PollsFront(since: Time, rounds: seq<Round>, n: nat)
    requires Polls(since, rounds) && n <= |rounds|
    ensures Polls(since, rounds[..n])
  {
    hide IsFetch, History, Cursor;
    assert forall k :: 0 <= k < n ==> rounds[..n][..k] == rounds[..k];
  }

  lemma {:induction false} SeenByFront(rounds: seq<Round>, n: nat)
    requires n <= |rounds|
    ensures EverVisible(rounds[..n]) <= EverVisible(rounds)
    ensures n < |rounds| ==> rounds[n].visible <= EverVisible(rounds)
  {
    var last := |rounds| - 1;
    if n < last {
      assert rounds[..last][..n] == rounds[..n];
      SeenByFront(rounds[..last], n);
    } else {
      assert n == |rounds| ==> rounds[..n] == rounds;
    }
  }

  lemma FetchedSnoc(rounds: seq<Round>, e: Event)
    requires rounds != []
    ensures Fetched(rounds, e) <==> Fetched(rounds[..|rounds| - 1], e) || e in rounds[|rounds| - 1].rows
  {
    var front := rounds[..|rounds| - 1];
    if Fetched(front, e) {
      var k :| 0 <= k < |front| && e in front[k].rows;
      assert rounds[k] == front[k];
    }
    if Fetched(rounds, e) {
      var k :| 0 <= k < |rounds| && e in rounds[k].rows;
      assert k < |front| ==> front[k] == rounds[k];
    }
  }

  /** Over any run of polls, whenever events appear: what is fetched is sent
      exactly once, in time order, and nothing else is sent. */
  lemma {:induction false} SendsWhatItFetches(since: Time, rounds: seq<Round>)
    requires Polls(since, rounds)
    requires IdsIdentify(EverVisible(rounds)) && FewTies(EverVisible(rounds))
    ensures var sent := History(rounds);
      && Distinct(Ids(sent)) && InTimeOrder(sent)
      && (forall e :: e in sent <==> Fetched(rounds, e))
      && (forall e :: e in sent ==> e in EverVisible(rounds) && e.at >= since)
  {
    hide Sent, Cursor, FewTies;
    if rounds != [] {
      hide Fetched;
      var n := |rounds| - 1;
      var front, last := rounds[..n], rounds[n];
      var all := EverVisible(rounds);
      PollsFront(since, rounds, n);
      FewerTies(EverVisible(front), all);
      SendsWhatItFetches(since, front);
      var before := History(front);
      DistinctIdsDistinctEvents(before);
      CursorOfOrdered(since, before);
      CursorNotBefore(since, before);
      SentDeliversNew(Cursor(since, before), before, last.rows, all);
      forall e ensures Fetched(rounds, e) <==> Fetched(front, e) || e in last.rows {
        FetchedSnoc(rounds, e);
      }
      IdsOfDistinct(History(rounds), all);
    }
  }

  /** The same for the rounds before number k, and their cursor. */
  lemma SentBefore(since: Time, rounds: seq<Round>, k: nat)
    requires Polls(since, rounds) && k <= |rounds|
    requires IdsIdentify(EverVisible(rounds)) && FewTies(EverVisible(rounds))
    ensures forall f :: Fetched(rounds[..k], f) ==> f.at <= Cursor(since, History(rounds[..k]))
    ensures Cursor(since, History(rounds[..k])) == since
      || exists f :: Fetched(rounds[..k], f) && f.at == Cursor(since, History(rounds[..k]))
  {
    hide Cursor, FewTies, Fetched, History;
    var front := rounds[..k];
    PollsFront(since, rounds, k);
    SeenByFront(rounds, k);
    FewerTies(EverVisible(front), EverVisible(rounds));
    SendsWhatItFetches(since, front);
    var sent := History(front);
    CursorOfOrdered(since, sent);
    if sent != [] {
      assert sent[|sent| - 1] in sent;
    }
  }

  lemma FetchedEarlier(rounds: seq<Round>, j: nat, k: nat, f: Event)
    requires j <= k <= |rounds| && Fetched(rounds[..j], f)
    ensures Fetched(rounds[..k], f)
  {
    var i :| 0 <= i < j && f in rounds[..j][i].rows;
    assert rounds[..k][i] == rounds[..j][i];
  }

  lemma LateIsLost(since: Time, rounds: seq<Round>, e: Event, k: nat, f: Event)
    requires Polls(since, rounds) && AppearsAt(rounds, e, k)
    requires Fetched(rounds[..k], f) && f.at > e.at
    requires IdsIdentify(EverVisible(rounds)) && FewTies(EverVisible(rounds))
    ensures !Fetched(rounds, e)
  {
    hide Cursor, FewTies, History, IdsIdentify, InTimeOrder;
    forall j | 0 <= j < |rounds| ensures e !in rounds[j].rows {
      if j < k {
        SeenByFront(rounds[..k], j);
      } else {
        FetchedEarlier(rounds, k, j, f);
        SentBefore(since, rounds, j);
      }
    }
  }

  /** What is lost: an event visible from `since` on is never sent if and only
      if a later one had been fetched before it appeared. */
  lemma LostIff(since: Time, rounds: seq<Round>, e: Event, k: nat)
    requires Polls(since, rounds) && AppearsAt(rounds, e, k) && e.at >= since
    requires IdsIdentify(EverVisible(rounds)) && FewTies(EverVisible(rounds))
    ensures e !in History(rounds) <==> exists f :: Fetched(rounds[..k], f) && f.at > e.at
  {
    hide Cursor, FewTies, History, IdsIdentify, InTimeOrder, EverVisible;
    SendsWhatItFetches(since, rounds);
    if f :| Fetched(rounds[..k], f) && f.at > e.at {
      LateIsLost(since, rounds, e, k, f);
    } else {
      SentBefore(since, rounds, k);
      hide Fetched;
      FetchedIn(rounds, e, k);
    }
  }

  lemma FetchedIn(rounds: seq<Round>, e: Event, k: nat)
    requires k < |rounds| && e in rounds[k].rows
    ensures Fetched(rounds, e)
  {
  }

  lemma {:induction false} Appears(rounds: seq<Round>, e: Event) returns (k: nat)
    requires e in EverVisible(rounds)
    ensures AppearsAt(rounds, e, k)
  {
    var front := rounds[..|rounds| - 1];
    if e in EverVisible(front) {
      k := Appears(front, e);
      assert front[..k] == rounds[..k];
    } else {
      k := |rounds| - 1;
    }
  }

  /** Every event ever visible from `since` on is sent exactly once, in time
      order, if and only if none appears after a later one has been fetched. */
  lemma ExactlyOnce(since: Time, rounds: seq<Round>)
    requires Polls(since, rounds)
    requires IdsIdentify(EverVisible(rounds)) && FewTies(EverVisible(rounds))
    ensures Distinct(Ids(History(rounds))) && InTimeOrder(History(rounds))
    ensures NoneLate(since, rounds) <==>
      forall e :: e in History(rounds) <==> e in EverVisible(rounds) && e.at >= since
  {
    hide Polls, FewTies, IdsIdentify, History, EverVisible, Fetched;
    SendsWhatItFetches(since, rounds);
    forall e: Event, k: nat | e.at >= since && AppearsAt(rounds, e, k)
      ensures e in EverVisible(rounds)
      ensures e !in History(rounds) <==> exists f :: Fetched(rounds[..k], f) && f.at > e.at
    {
      AppearedIsVisible(rounds, e, k);
      LostIff(since, rounds, e, k);
    }
    if NoneLate(since, rounds) {
      forall e | e in EverVisible(rounds) && e.at >= since ensures e in History(rounds) {
        var k := Appears(rounds, e);
      }
    }
  }

  lemma AppearedIsVisible(rounds: seq<Round>, e: Event, k: nat)
    requires AppearsAt(rounds, e, k)
    ensures e in EverVisible(rounds)
  {
    SeenByFront(rounds, k);
  }

  /** It happens: whenever an event appears after a later one was sent, two
      polls are enough to lose it. */
  lemma LateEventIsLost(since: Time, early: Event, late: Event)
    requires since <= late.at < early.at && early.id != late.id
    ensures var rounds := [Round({early}, [early]), Round({early, late}, [early])];
      && Polls(since, rounds) && History(rounds) == [early]
      && late in EverVisible(rounds) && IdsIdentify(EverVisible(rounds)) && FewTies(EverVisible(rounds))
  {
    hide Polls, History, EverVisible, Sent, IsFetch, Cursor, FewTies, Ties;
    SentOnce(since, early);
    OnlyRow(early, {early}, since);
    OnlyRow(early, {early, late}, early.at);
    TwoPolls(since, Round({early}, [early]), Round({early, late}, [early]));
    TwoAreFewTies(early, late);
    assert {early} + {early, late} == {early, late};
  }

  lemma SentOnce(since: Time, e: Event)
    requires e.at >= since
    ensures Sent([], [e]) == [e] && Sent([e], [e]) == [e] && Cursor(since, [e]) == e.at
  {
    CursorSnoc(since, [], e);
    assert [] + [e] == [e];
    FreshRowsAreSent([], [e]);
    assert Ids(Last([e], SSE_SEEN_MAX)) == [e.id];
    SeenRowsAreSkipped([e], [e]);
  }

  lemma OnlyRow(e: Event, visible: set<Event>, from: Time)
    requires e in visible && e.at >= from && forall f :: f in visible && f != e ==> f.at < from
    ensures IsFetch([e], visible, from)
  {
  }

  lemma TwoAreFewTies(e: Event, f: Event)
    ensures FewTies({e, f})
  {
    forall t ensures |Ties({e, f}, t)| <= SSE_SEEN_MAX {
      SubsetIsSmaller(Ties({e, f}, t), {e, f});
    }
  }

  lemma DistinctIdsDistinctEvents(events: seq<Event>)
    requires Distinct(Ids(events))
    ensures Distinct(events)
  {
    forall i, j | 0 <= i < j < |events| ensures events[i] != events[j] {
      assert Ids(events)[i] != Ids(events)[j];
    }
  }

  lemma FewerTies(some: set<Event>, all: set<Event>)
    requires some <= all && FewTies(all)
    ensures FewTies(some)
  {
    forall t ensures |Ties(some, t)| <= SSE_SEEN_MAX {
      SubsetIsSmaller(Ties(some, t), Ties(all, t));
    }
  }

  lemma {:induction false} SubsetIsSmaller<T>(a: set<T>, b: set<T>)
    requires a <= b
    ensures |a| <= |b|
  {
    if a != {} {
      var x :| x in a;
      SubsetIsSmaller(a - {x}, b - {x});
    }
  }

  // ---- what the bound on ties is for ----------------------------------------

  lemma NewcomerIsNotInWindow(history: seq<Event>, e: Event)
    requires Distinct(Ids(history + [e]))
    ensures Distinct(Ids(history)) && e.id !in Ids(Last(history, SSE_SEEN_MAX))
  {
    var all := history + [e];
    forall i, j | 0 <= i < j < |history| ensures Ids(history)[i] != Ids(history)[j] {
      assert Ids(all)[i] != Ids(all)[j];
    }
    var window := Last(history, SSE_SEEN_MAX);
    forall k | 0 <= k < |window| ensures Ids(window)[k] != e.id {
      assert Ids(all)[k + |history| - |window|] != Ids(all)[|history|];
    }
  }

  lemma {:induction false} FreshRowsAreSent(history: seq<Event>, rows: seq<Event>)
    requires Distinct(Ids(history + rows))
    ensures Sent(history, rows) == history + rows
  {
    hide Ids, Last, Distinct;
    if rows == [] {
      assert history + rows == history;
    } else {
      var front, e := rows[..|rows| - 1], rows[|rows| - 1];
      assert history + rows == history + front + [e];
      NewcomerIsNotInWindow(history + front, e);
      FreshRowsAreSent(history, front);
    }
  }

  lemma {:induction false} SeenRowsAreSkipped(history: seq<Event>, rows: seq<Event>)
    requires forall e :: e in rows ==> e.id in Ids(Last(history, SSE_SEEN_MAX))
    ensures Sent(history, rows) == history
  {
    if rows != [] {
      assert rows[|rows| - 1] in rows;
      SeenRowsAreSkipped(history, rows[..|rows| - 1]);
    }
  }

  lemma {:induction false} SentInTwoParts(history: seq<Event>, a: seq<Event>, b: seq<Event>)
    ensures Sent(history, a + b) == Sent(Sent(history, a), b)
  {
    if b == [] {
      assert a + b == a;
    } else {
      assert (a + b)[..|a + b| - 1] == a + b[..|b| - 1];
      SentInTwoParts(history, a, b[..|b| - 1]);
    }
  }

  lemma WindowHolds(history: seq<Event>, i: nat)
    requires i < |history| && Distinct(Ids(history))
    ensures history[i].id in Ids(Last(history, SSE_SEEN_MAX)) <==> |history| - i <= SSE_SEEN_MAX
  {
    var window := Last(history, SSE_SEEN_MAX);
    var gap := |history| - |window|;
    if |history| - i <= SSE_SEEN_MAX {
      assert Ids(window)[i - gap] == history[i].id;
    } else {
      forall k | 0 <= k < |window| ensures Ids(window)[k] != history[i].id {
        assert Ids(history)[i] != Ids(history)[k + gap];
      }
    }
  }

  lemma SentNeverShrinks(history: seq<Event>, e: Event, rows: seq<Event>)
    requires e.id !in Ids(Last(history, SSE_SEEN_MAX))
    ensures Sent(history, [e] + rows) != history
  {
    assert [e][..0] == [];
    SentInTwoParts(history, [e], rows);
    assert Sent(history, [e]) == history + [e];
  }

  /** From index k on, and only there, the times have reached c. */
  ghost predicate ReachedFrom(rows: seq<Event>, c: Time, k: nat) {
    k < |rows| && forall i :: 0 <= i < |rows| ==> (rows[i].at >= c <==> k <= i)
  }

  lemma LatestStart(rows: seq<Event>) returns (k: nat)
    requires InTimeOrder(rows) && rows != []
    ensures ReachedFrom(rows, rows[|rows| - 1].at, k)
  {
    k := |rows| - 1;
    while k > 0 && rows[k - 1].at >= rows[|rows| - 1].at
      invariant k < |rows| && forall i :: k <= i < |rows| ==> rows[i].at >= rows[|rows| - 1].at
    {
      k := k - 1;
    }
  }

  lemma {:induction false} DistinctCovers<T>(s: seq<T>, all: set<T>)
    requires Distinct(s) && Elements(s) == all
    ensures |s| == |all|
  {
    if s != [] {
      var x := s[|s| - 1];
      assert s == s[..|s| - 1] + [x] && x !in s[..|s| - 1];
      ElementsSnoc(s[..|s| - 1], x);
      DistinctCovers(s[..|s| - 1], all - {x});
    }
  }

  lemma IdsOfDistinct(rows: seq<Event>, all: set<Event>)
    requires Distinct(rows) && IdsIdentify(all) && forall e :: e in rows ==> e in all
    ensures Distinct(Ids(rows))
  {
    forall i, j | 0 <= i < j < |rows| ensures Ids(rows)[i] != Ids(rows)[j] {
      assert rows[i] in rows && rows[j] in rows;
    }
  }

  /** The first poll sends all it fetches. On a log that stands still the second
      one fetches the events at the latest time again, in any order, and sends
      nothing if and only if they fit the window: the bound on ties is exact. */
  lemma QuietPollIff(since: Time, visible: set<Event>, rows: seq<Event>, again: seq<Event>)
    requires IsFetch(rows, visible, since) && rows != [] && IdsIdentify(visible)
    requires IsFetch(again, visible, Cursor(since, rows))
    ensures Sent([], rows) == rows
    ensures Sent(rows, again) == rows <==> |Ties(visible, Cursor(since, rows))| <= SSE_SEEN_MAX
  {
    hide Sent, Last, Ids, Cursor, IdsIdentify, Ties, ReachedFrom, Distinct, InTimeOrder;
    CursorOfOrdered(since, rows);
    IdsOfDistinct(rows, visible);
    assert [] + rows == rows;
    FreshRowsAreSent([], rows);
    var k := LatestStart(rows);
    LatestAreSuffix(visible, rows, again, since, k);
    ResendIff(rows, again, k);
  }

  /** So exactly-once delivery depends on that bound: two polls of a log that
      stands still send no id twice if and only if the events at the latest
      time fit the window. */
  lemma ExactlyOnceIffFewTies(since: Time, visible: set<Event>, rows: seq<Event>, again: seq<Event>)
    requires IsFetch(rows, visible, since) && rows != [] && IdsIdentify(visible)
    requires IsFetch(again, visible, Cursor(since, rows))
    ensures var rounds := [Round(visible, rows), Round(visible, again)];
      && Polls(since, rounds) && NoneLate(since, rounds)
      && (Distinct(Ids(History(rounds))) <==> |Ties(visible, Cursor(since, rows))| <= SSE_SEEN_MAX)
  {
    hide Sent, Ties, IdsIdentify, InTimeOrder, Distinct, Ids, Cursor, Polls, NoneLate, History, IsFetch, EverVisible;
    var first, second := Round(visible, rows), Round(visible, again);
    QuietPollIff(since, visible, rows, again);
    TwoPolls(since, first, second);
    NoRounds(since);
    RoundSnoc(since, [], first);
    assert [] + [first] == [first];
    RoundSnoc(since, [first], second);
    assert [first] + [second] == [first, second];
    FetchIsFromLog(rows, visible, since);
    FetchIsFromLog(again, visible, Cursor(since, rows));
    IdsOfDistinct(rows, visible);
    if Sent(rows, again) != rows {
      RefetchIsKnown(since, visible, rows, again);
      RepeatedRow(rows, again, Sent(rows, again));
    }
  }

  lemma NoRounds(since: Time)
    ensures Polls(since, []) && NoneLate(since, [])
    ensures History([]) == [] && Cursor(since, []) == since && EverVisible([]) == {}
  {
  }

  lemma FetchIsFromLog(rows: seq<Event>, visible: set<Event>, from: Time)
    requires IsFetch(rows, visible, from)
    ensures Distinct(rows) && forall e :: e in rows ==> e in visible
  {
  }

  lemma RefetchIsKnown(since: Time, visible: set<Event>, rows: seq<Event>, again: seq<Event>)
    requires IsFetch(rows, visible, since) && IsFetch(again, visible, Cursor(since, rows))
    ensures forall e :: e in again ==> e in rows
  {
    CursorNotBefore(since, rows);
  }

  lemma {:induction false} CursorNotBefore(since: Time, history: seq<Event>)
    ensures Cursor(since, history) >= since
  {
    if history != [] {
      CursorNotBefore(since, history[..|history| - 1]);
    }
  }

  lemma PollsSnoc(since: Time, rounds: seq<Round>, last: Round)
    requires Polls(since, rounds) && IsFetch(last.rows, last.visible, Cursor(since, History(rounds)))
    ensures Polls(since, rounds + [last])
    ensures History(rounds + [last]) == Sent(History(rounds), last.rows)
    ensures EverVisible(rounds + [last]) == EverVisible(rounds) + last.visible
  {
    hide Sent, IsFetch, Cursor;
    var all := rounds + [last];
    assert forall k :: 0 <= k <= |rounds| ==> all[..k] == rounds[..k];
    assert rounds[..|rounds|] == rounds;
  }

  lemma TwoPolls(since: Time, first: Round, second: Round)
    requires IsFetch(first.rows, first.visible, since) && Sent([], first.rows) == first.rows
    requires IsFetch(second.rows, second.visible, Cursor(since, first.rows))
    ensures Polls(since, [first, second]) && History([first, second]) == Sent(first.rows, second.rows)
    ensures EverVisible([first]) == first.visible && EverVisible([first, second]) == first.visible + second.visible
  {
    hide Polls, History, EverVisible, Sent, IsFetch, Cursor;
    NoRounds(since);
    PollsSnoc(since, [], first);
    assert [] + [first] == [first];
    assert {} + first.visible == first.visible;
    PollsSnoc(since, [first], second);
    assert [first] + [second] == [first, second];
  }

  /** A round that sees nothing new comes too late for nothing. */
  lemma RoundSnoc(since: Time, rounds: seq<Round>, last: Round)
    requires NoneLate(since, rounds) && (rounds == [] || last.visible <= EverVisible(rounds))
    ensures NoneLate(since, rounds + [last])
  {
    var all := rounds + [last];
    assert forall k :: 0 <= k <= |rounds| ==> all[..k] == rounds[..k];
    assert rounds[..|rounds|] == rounds;
    forall e: Event, k, f: Event | e.at >= since && AppearsAt(all, e, k) && Fetched(all[..k], f) ensures f.at <= e.at {
      if k < |rounds| {
        assert AppearsAt(rounds, e, k);
      }
    }
  }

  lemma RepeatedRow(rows: seq<Event>, again: seq<Event>, sent: seq<Event>)
    requires sent == Sent(rows, again) && sent != rows && forall e :: e in again ==> e in rows
    ensures !Distinct(Ids(sent))
  {
    hide Sent;
    assert |sent| > |rows| && sent[..|rows|] == rows;
    var e := sent[|rows|];
    if e !in rows {
      SentComesFromRows(rows, again, e);
    }
    var i :| 0 <= i < |rows| && rows[i] == e;
    assert Ids(sent)[i] == Ids(sent)[|rows|];
  }

  lemma ResendIff(rows: seq<Event>, again: seq<Event>, k: nat)
    requires k < |rows| && Distinct(Ids(rows)) && Elements(again) == Elements(rows[k..])
    ensures Sent(rows, again) == rows <==> |rows| - k <= SSE_SEEN_MAX
  {
    hide Sent, Last, Ids, Distinct;
    if |rows| - k <= SSE_SEEN_MAX {
      forall e | e in again ensures e.id in Ids(Last(rows, SSE_SEEN_MAX)) {
        assert e in Elements(rows[k..]);
        var i :| 0 <= i < |rows[k..]| && rows[k..][i] == e;
        WindowHolds(rows, k + i);
      }
      SeenRowsAreSkipped(rows, again);
    } else {
      WindowHolds(rows, k);
      assert rows[k] == rows[k..][0] && rows[k] in Elements(again);
      var i :| 0 <= i < |again| && again[i] == rows[k];
      MissedRowIsSent(rows, again, i);
    }
  }

  /** What the second query returns are the last rows of the first one. */
  lemma LatestAreSuffix(visible: set<Event>, rows: seq<Event>, again: seq<Event>, since: Time, k: nat)
    requires rows != [] && IsFetch(rows, visible, since) && IsFetch(again, visible, rows[|rows| - 1].at)
    requires ReachedFrom(rows, rows[|rows| - 1].at, k)
    ensures Elements(again) == Elements(rows[k..])
    ensures |Ties(visible, rows[|rows| - 1].at)| == |rows| - k
  {
    hide InTimeOrder, Distinct;
    var c := rows[|rows| - 1].at;
    assert rows[|rows| - 1] in rows;
    forall e ensures e in rows[k..] <==> e in visible && e.at >= c {
      SuffixHolds(rows, c, k, e);
    }
    assert Elements(again) == Elements(rows[k..]);
    assert Distinct(rows[k..]) by {
      SuffixIsDistinct(rows, k);
    }
    forall e ensures e in Ties(visible, c) <==> e in rows[k..] {
      NoneIsLater(rows, e);
    }
    assert Elements(rows[k..]) == Ties(visible, c);
    DistinctCovers(rows[k..], Ties(visible, c));
  }

  lemma NoneIsLater(rows: seq<Event>, e: Event)
    requires InTimeOrder(rows) && rows != []
    ensures e in rows ==> e.at <= rows[|rows| - 1].at
  {
  }

  lemma SuffixIsDistinct(rows: seq<Event>, k: nat)
    requires Distinct(rows) && k <= |rows|
    ensures Distinct(rows[k..])
  {
  }

  lemma SuffixHolds(rows: seq<Event>, c: Time, k: nat, e: Event)
    requires ReachedFrom(rows, c, k)
    ensures e in rows[k..] <==> e in rows && e.at >= c
  {
    if e in rows && e.at >= c {
      var i :| 0 <= i < |rows| && rows[i] == e;
      assert rows[k..][i - k] == e;
    }
  }

  /** A row that is in no window so far makes the history grow. */
  lemma {:induction false} MissedRowIsSent(history: seq<Event>, rows: seq<Event>, i: nat)
    requires i < |rows| && rows[i].id !in Ids(Last(history, SSE_SEEN_MAX))
    ensures Sent(history, rows) != history
  {
    hide Sent, Last, Ids;
    assert rows == rows[..i] + rows[i..];
    SentInTwoParts(history, rows[..i], rows[i..]);
    if Sent(history, rows[..i]) == history {
      assert rows[i..] == [rows[i]] + rows[i + 1..];
      SentNeverShrinks(history, rows[i], rows[i + 1..]);
    } else {
      assert |history| < |Sent(history, rows[..i])|;
    }
  }

}
