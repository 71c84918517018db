/** The event records held by the registry and the pure derivations over the
    collection: every query of the events context, and a specification
    function for each of its state changes. The class in module Registry
    applies these to its `events` field. */
module Events {
  import opened Collections

  /** One session of a multi-session event, as the pages read it: a calendar
      date and wall-clock start and end, all as text. */
  datatype Session = Session(date: string, startTime: string, endTime: string)

  /** An event record. `schedule` is not declared by the record type of the
      events context, but the pages read it; `None` is "not an array". A
      `maxAttendees` of `Number(...)` = NaN behaves like `undefined` everywhere
      (both are falsy) and is represented by `None`. `createdAt` is an instant
      in milliseconds. */
  datatype Event = Event(
    id: string,
    title: string,
    description: string,
    date: string,
    time: string,
    organizer: string,
    organizerId: string,
    attendees: seq<string>,
    maxAttendees: Option<int>,
    location: Option<string>,
    category: Option<string>,
    createdAt: int,
    parentId: Option<string>,
    schedule: Option<seq<Session>>)

  /** What a caller hands to `addEvent`: every field except `id`,
      `attendees` and `createdAt`. */
  datatype Draft = Draft(
    title: string,
    description: string,
    date: string,
    time: string,
    organizer: string,
    organizerId: string,
    maxAttendees: Option<int>,
    location: Option<string>,
    category: Option<string>,
    parentId: Option<string>,
    schedule: Option<seq<Session>>)

  /** One property of a `Partial<Event>`: absent (`Keep`) or present. A
      present optional property may hold `undefined` (`Set(None)`), and the
      object spread `{ ...e, ...patch }` then overwrites the field with it. */
  datatype Field<T> = Keep | Set(value: T)

  datatype Patch = Patch(
    id: Field<string>,
    title: Field<string>,
    description: Field<string>,
    date: Field<string>,
    time: Field<string>,
    organizer: Field<string>,
    organizerId: Field<string>,
    attendees: Field<seq<string>>,
    maxAttendees: Field<Option<int>>,
    location: Field<Option<string>>,
    category: Field<Option<string>>,
    createdAt: Field<int>,
    parentId: Field<Option<string>>,
    schedule: Field<Option<seq<Session>>>)

  /** The empty patch `{}`. */
  const NoChange := Patch(Keep, Keep, Keep, Keep, Keep, Keep, Keep, Keep, Keep, Keep, Keep, Keep, Keep, Keep)

  /** Parses `${date}T${time}` to an instant in milliseconds; `None` is an
      invalid date (whose comparisons with any instant are all false). Date
      parsing and time zones stay outside the model. */
  type Clock = (string, string) -> Option<int>

  // ---------------------------------------------------------------------
  // Per-event predicates (the truthiness tests of the source)

  /** `!!s` for a string. */
  predicate Truthy(s: string) { s != "" }

  /** `!!x` for an optional string: present and non-empty. */
  predicate TruthyOpt(x: Option<string>) { x.Some? && Truthy(x.value) }

  /** `event.maxAttendees` is truthy: present and not 0. A limit of 0 means
      "unlimited". */
  predicate HasLimit(e: Event): (b: bool)
    ensures e.maxAttendees.None? || e.maxAttendees == Some(0) ==> !b
    ensures b ==> e.maxAttendees.Some?
  {
    e.maxAttendees.Some? && e.maxAttendees.value != 0
  }

  /** `event.maxAttendees ? event.attendees.length >= event.maxAttendees : false` */
  predicate IsFull(e: Event): (b: bool)
    // No limit, or a limit of 0: never full, however many attend.
    ensures !HasLimit(e) ==> !b
    ensures HasLimit(e) ==> (b <==> |e.attendees| >= e.maxAttendees.value)
  {
    HasLimit(e) && |e.attendees| >= e.maxAttendees.value
  }

  /** `!e.parentId`: no parent, or an empty parent id. */
  predicate IsMain(e: Event) { !TruthyOpt(e.parentId) }

  predicate NoDuplicates(s: seq<string>) {
    forall i, j :: 0 <= i < j < |s| ==> s[i] != s[j]
  }

  /** The capacity invariant of one event. */
  predicate WithinCapacity(e: Event) {
    HasLimit(e) ==> |e.attendees| <= e.maxAttendees.value
  }

  /** What registration keeps true of every event: no attendee twice and the
      capacity respected. */
  predicate RegistrationInvariant(events: seq<Event>) {
    forall i :: 0 <= i < |events| ==> NoDuplicates(events[i].attendees) && WithinCapacity(events[i])
  }

  predicate UniqueIds(events: seq<Event>) {
    forall i, j :: 0 <= i < j < |events| ==> events[i].id != events[j].id
  }

  predicate HasId(events: seq<Event>, id: string) {
    exists i :: 0 <= i < |events| && events[i].id == id
  }

  // ---------------------------------------------------------------------
  // Queries

  /** Position of the first event with this id (`findIndex`). */
  function IndexOf(events: seq<Event>, id: string): (r: Option<nat>)
    ensures r.Some? ==> r.value < |events| && events[r.value].id == id
    ensures r.Some? ==> forall j :: 0 <= j < r.value ==> events[j].id != id
    ensures r.None? <==> !HasId(events, id)
  {
    if events == [] then None
    else if events[0].id == id then Some(0)
    else
      match IndexOf(events[1..], id)
      case None => None
      case Some(k) => Some(k + 1)
  }

  /** `getEventById`: `events.find(e => e.id === id)`. */
  function EventById(events: seq<Event>, id: string): (r: Option<Event>)
    ensures r.None? <==> !HasId(events, id)
    ensures r.Some? ==> r.value.id == id && r.value in events
    ensures r.Some? ==> exists i :: 0 <= i < |events| && events[i] == r.value &&
                         forall j :: 0 <= j < i ==> events[j].id != id
  {
    match IndexOf(events, id)
    case None => None
    case Some(i) => Some(events[i])
  }

  /** With unique ids, looking an event up by its own id finds it. */
  lemma EventByIdUnique(events: seq<Event>, i: nat)
    requires UniqueIds(events) && i < |events|
    ensures EventById(events, events[i].id) == Some(events[i])
  {
    var k := IndexOf(events, events[i].id).value;
    assert !(k < i) && !(i < k);
  }

  /** `getUserEvents`: the events whose attendees include the user. */
  function UserEvents(events: seq<Event>, user: string): (r: seq<Event>)
    ensures forall e :: e in r <==> e in events && user in e.attendees
  {
    Filter(events, (e: Event) => user in e.attendees)
  }

  /** `getMainEvents`: the events with a falsy `parentId`. */
  function MainEvents(events: seq<Event>): (r: seq<Event>)
    ensures forall e :: e in r <==> e in events && IsMain(e)
  {
    Filter(events, IsMain)
  }

  /** `e => e.parentId === parent` */
  function ChildOf(parent: string): Event -> bool {
    (e: Event) => e.parentId == Some(parent)
  }

  /** `getSubEvents(parentId)`: the events whose `parentId` is exactly it. */
  function SubEvents(events: seq<Event>, parent: string): (r: seq<Event>)
    ensures forall e :: e in r <==> e in events && e.parentId == Some(parent)
  {
    Filter(events, ChildOf(parent))
  }

  /** The hierarchy is a partition: each event is either a main event or a
      sub-event listed under its (non-empty) parent id, never both. */
  lemma HierarchyPartition(events: seq<Event>, e: Event)
    requires e in events
    ensures e in MainEvents(events) <==> !(e.parentId.Some? && e in SubEvents(events, e.parentId.value) && e.parentId.value != "")
  {
  }

  /** Quirk of the truthiness test: the "sub-events" of the empty parent id
      are all main events. */
  lemma SubEventsOfEmptyParentAreMain(events: seq<Event>)
    ensures forall e :: e in SubEvents(events, "") ==> e in MainEvents(events)
  {
  }

  /** The instant at which an event starts (`new Date(`${date}T${time}`)`). */
  function StartOf(e: Event, clock: Clock): Option<int> {
    clock(e.date, e.time)
  }

  /** `new Date(`${e.date}T${e.time}`) > now`; false for an invalid date. */
  predicate StartsAfter(e: Event, now: int, clock: Clock): (b: bool)
    // An invalid date is never after anything.
    ensures StartOf(e, clock).None? ==> !b
    ensures StartOf(e, clock).Some? ==> (b <==> StartOf(e, clock).value > now)
  {
    StartOf(e, clock).Some? && StartOf(e, clock).value > now
  }

  /** The sort key; only consulted for events whose start parses. */
  function StartKey(e: Event, clock: Clock): int {
    match StartOf(e, clock)
    case Some(t) => t
    case None => 0
  }

  predicate SortedByStart(s: seq<Event>, clock: Clock) {
    forall i, j :: 0 <= i < j < |s| ==> StartKey(s[i], clock) <= StartKey(s[j], clock)
  }

  /** Inserts `x` after every element whose start is not later than its own
      (so equal starts keep their arrival order, like the stable
      `Array.prototype.sort`). */
  function InsertByStart(x: Event, s: seq<Event>, clock: Clock): seq<Event>
    decreases |s|
  {
    if s == [] then [x]
    else if StartKey(s[|s| - 1], clock) <= StartKey(x, clock) then s + [x]
    else InsertByStart(x, s[..|s| - 1], clock) + [s[|s| - 1]]
  }

  /** Insertion adds `x` and loses nothing. */
  lemma {:induction false} InsertByStartPermutes(x: Event, s: seq<Event>, clock: Clock)
    ensures multiset(InsertByStart(x, s, clock)) == multiset(s) + multiset{x}
    decreases |s|
  {
    if s != [] && StartKey(s[|s| - 1], clock) > StartKey(x, clock) {
      var init := s[..|s| - 1];
      assert s == init + [s[|s| - 1]];
      InsertByStartPermutes(x, init, clock);
    }
  }

  /** Every element of the insertion is `x` or came from `s`. */
  lemma {:induction false} InsertByStartMembers(x: Event, s: seq<Event>, clock: Clock)
    ensures forall y :: y in InsertByStart(x, s, clock) ==> y == x || y in s
    decreases |s|
  {
    if s != [] && StartKey(s[|s| - 1], clock) > StartKey(x, clock) {
      InsertByStartMembers(x, s[..|s| - 1], clock);
    }
  }

  /** A sorted sequence stays sorted when an element starting no earlier
      than any of its elements is appended. */
  lemma SortedSnoc(m: seq<Event>, last: Event, clock: Clock)
    requires SortedByStart(m, clock)
    requires forall i :: 0 <= i < |m| ==> StartKey(m[i], clock) <= StartKey(last, clock)
    ensures SortedByStart(m + [last], clock)
  {
    var r := m + [last];
    forall i, j | 0 <= i < j < |r| ensures StartKey(r[i], clock) <= StartKey(r[j], clock) {
      assert r[i] == m[i];
      if j < |m| {
        assert r[j] == m[j];
      }
    }
  }

  lemma {:induction false} InsertByStartSorted(x: Event, s: seq<Event>, clock: Clock)
    requires SortedByStart(s, clock)
    ensures SortedByStart(InsertByStart(x, s, clock), clock)
    decreases |s|
  {
    if s != [] && StartKey(s[|s| - 1], clock) > StartKey(x, clock) {
      var init := s[..|s| - 1];
      var last := s[|s| - 1];
      InsertByStartSorted(x, init, clock);
      InsertByStartMembers(x, init, clock);
      var m := InsertByStart(x, init, clock);
      forall i | 0 <= i < |m| ensures StartKey(m[i], clock) <= StartKey(last, clock) {
        assert m[i] in m;
        if m[i] != x {
          var k :| 0 <= k < |init| && init[k] == m[i];
          assert s[k] == m[i];
        }
      }
      SortedSnoc(m, last, clock);
    } else if s != [] {
      SortedSnoc(s, x, clock);
    }
  }

  /** `.sort((a, b) => start(a) - start(b))` as a stable insertion sort. */
  function SortByStart(s: seq<Event>, clock: Clock): (r: seq<Event>)
    ensures SortedByStart(r, clock)
    ensures multiset(r) == multiset(s)
    decreases |s|
  {
    if s == [] then []
    else
      assert s == s[..|s| - 1] + [s[|s| - 1]];
      InsertByStartSorted(s[|s| - 1], SortByStart(s[..|s| - 1], clock), clock);
      InsertByStartPermutes(s[|s| - 1], SortByStart(s[..|s| - 1], clock), clock);
      InsertByStart(s[|s| - 1], SortByStart(s[..|s| - 1], clock), clock)
  }

  /** The events that start at instant `t`. */
  function StartsAt(t: int, clock: Clock): Event -> bool {
    (e: Event) => StartKey(e, clock) == t
  }

  /** Ties keep the collection order: among the events with any one start
      instant, the sort returns them in the order it received them. */
  lemma {:induction false} InsertByStartStable(x: Event, s: seq<Event>, clock: Clock, t: int)
    ensures Filter(InsertByStart(x, s, clock), StartsAt(t, clock))
         == Filter(s, StartsAt(t, clock)) + (if StartKey(x, clock) == t then [x] else [])
    decreases |s|
  {
    var p := StartsAt(t, clock);
    if s == [] {
    } else if StartKey(s[|s| - 1], clock) <= StartKey(x, clock) {
      FilterConcat(s, [x], p);
    } else {
      var init := s[..|s| - 1];
      var last := s[|s| - 1];
      assert s == init + [last];
      InsertByStartStable(x, init, clock, t);
      FilterConcat(InsertByStart(x, init, clock), [last], p);
      FilterConcat(init, [last], p);
      if StartKey(x, clock) == t {
        // `last` starts later than `x`, so it is not among the ties with `x`.
        assert !p(last);
      }
    }
  }

  lemma {:induction false} SortByStartStable(s: seq<Event>, clock: Clock, t: int)
    ensures Filter(SortByStart(s, clock), StartsAt(t, clock))
         == Filter(s, StartsAt(t, clock))
    decreases |s|
  {
    var p := StartsAt(t, clock);
    if s != [] {
      var init := s[..|s| - 1];
      var last := s[|s| - 1];
      assert s == init + [last];
      SortByStartStable(init, clock, t);
      InsertByStartStable(last, SortByStart(init, clock), clock, t);
      FilterConcat(init, [last], p);
    }
  }

  lemma SameMembers(a: seq<Event>, b: seq<Event>)
    requires multiset(a) == multiset(b)
    ensures forall e :: e in a <==> e in b
  {
    forall e ensures e in a <==> e in b {
      assert e in a <==> e in multiset(a);
      assert e in b <==> e in multiset(b);
    }
  }

  /** `getUpcomingEvents(now)`: the events that start strictly after `now`,
      earliest first. */
  function UpcomingEvents(events: seq<Event>, now: int, clock: Clock): (r: seq<Event>)
    ensures forall e :: e in r <==> e in events && StartsAfter(e, now, clock)
    ensures multiset(r) == multiset(Filter(events, (e: Event) => StartsAfter(e, now, clock)))
    ensures forall i, j :: 0 <= i < j < |r| ==>
      StartOf(r[i], clock).Some? && StartOf(r[j], clock).Some? && StartOf(r[i], clock).value <= StartOf(r[j], clock).value
  {
    var future := Filter(events, (e: Event) => StartsAfter(e, now, clock));
    var r := SortByStart(future, clock);
    FilterMembership(events, (e: Event) => StartsAfter(e, now, clock));
    SameMembers(r, future);
    assert forall i :: 0 <= i < |r| ==> StartsAfter(r[i], now, clock) by {
      forall i | 0 <= i < |r| ensures StartsAfter(r[i], now, clock) {
        assert r[i] in future;
      }
    }
    r
  }

  // ---------------------------------------------------------------------
  // The state changes, as functions of the old collection

  /** The record `addEvent` builds: the caller's fields, a new id, no
      attendees, created now. */
  function FromDraft(d: Draft, id: string, now: int): (e: Event)
    ensures e.id == id && e.attendees == [] && e.createdAt == now
    ensures ToDraft(e) == d
  {
    Event(id, d.title, d.description, d.date, d.time, d.organizer, d.organizerId, [],
          d.maxAttendees, d.location, d.category, now, d.parentId, d.schedule)
  }

  /** The caller-supplied part of an event. */
  function ToDraft(e: Event): Draft {
    Draft(e.title, e.description, e.date, e.time, e.organizer, e.organizerId,
          e.maxAttendees, e.location, e.category, e.parentId, e.schedule)
  }

  /** `setEvents(prev => [...prev, newEvent])` */
  function Appended(events: seq<Event>, d: Draft, id: string, now: int): (r: seq<Event>)
    ensures |r| == |events| + 1 && r[..|events|] == events
    ensures r[|events|] == FromDraft(d, id, now)
    ensures r[|events|].attendees == [] && r[|events|].id == id && r[|events|].createdAt == now
    ensures ToDraft(r[|events|]) == d
    ensures !HasId(events, id) ==> EventById(r, id) == Some(r[|events|])
    ensures UniqueIds(events) && !HasId(events, id) ==> UniqueIds(r)
  {
    var r := events + [FromDraft(d, id, now)];
    assert r[..|events|] == events;
    r
  }

  function Pick<T>(f: Field<T>, current: T): T {
    match f
    case Keep => current
    case Set(v) => v
  }

  /** `{ ...e, ...patch }`: every present property of the patch replaces the
      field, absent ones leave it. */
  function Overlay(e: Event, p: Patch): Event {
    Event(Pick(p.id, e.id), Pick(p.title, e.title), Pick(p.description, e.description),
          Pick(p.date, e.date), Pick(p.time, e.time), Pick(p.organizer, e.organizer),
          Pick(p.organizerId, e.organizerId), Pick(p.attendees, e.attendees),
          Pick(p.maxAttendees, e.maxAttendees), Pick(p.location, e.location),
          Pick(p.category, e.category), Pick(p.createdAt, e.createdAt),
          Pick(p.parentId, e.parentId), Pick(p.schedule, e.schedule))
  }

  /** The empty patch changes nothing, and applying a patch twice is applying
      it once. */
  lemma OverlayLaws(e: Event, p: Patch)
    ensures Overlay(e, NoChange) == e
    ensures Overlay(Overlay(e, p), p) == Overlay(e, p)
  {
  }

  /** Replaces every event with id `id` by `f` of it; the others stay. */
  function MapWhereId(events: seq<Event>, id: string, f: Event -> Event): (r: seq<Event>)
    ensures |r| == |events|
    ensures forall i :: 0 <= i < |events| && events[i].id != id ==> r[i] == events[i]
    ensures forall i :: 0 <= i < |events| && events[i].id == id ==> r[i] == f(events[i])
  {
    seq(|events|, i requires 0 <= i < |events| => if events[i].id == id then f(events[i]) else events[i])
  }

  /** A map over an unknown id is the identity. */
  lemma MapWhereUnknownId(events: seq<Event>, id: string, f: Event -> Event)
    requires !HasId(events, id)
    ensures MapWhereId(events, id, f) == events
  {
  }

  /** `updateEvent`: `prev.map(e => e.id === eventId ? { ...e, ...eventData } : e)` */
  function Updated(events: seq<Event>, id: string, p: Patch): (r: seq<Event>)
    ensures |r| == |events|
    ensures forall i :: 0 <= i < |events| ==>
      r[i] == if events[i].id == id then Overlay(events[i], p) else events[i]
    ensures !HasId(events, id) ==> r == events
  {
    MapWhereId(events, id, (e: Event) => Overlay(e, p))
  }

  /** `deleteEvent`: `prev.filter(e => e.id !== eventId)`. */
  function Deleted(events: seq<Event>, id: string): (r: seq<Event>)
    ensures !HasId(r, id)
    ensures forall e :: e in events && e.id != id ==> e in r
    ensures forall e :: e in r ==> e in events
  {
    Filter(events, (e: Event) => e.id != id)
  }

  /** Deleting a main event leaves its sub-events in place (no cascade). */
  lemma DeleteKeepsSubEvents(events: seq<Event>, id: string)
    ensures forall e :: e in SubEvents(events, id) && e.id != id ==> e in SubEvents(Deleted(events, id), id)
  {
  }

  /** Deleting an event that was just added under a fresh id restores the
      collection. */
  lemma {:induction false} DeleteUndoesAdd(events: seq<Event>, d: Draft, id: string, now: int)
    requires !HasId(events, id)
    ensures Deleted(Appended(events, d, id, now), id) == events
  {
    var p := (e: Event) => e.id != id;
    FilterConcat(events, [FromDraft(d, id, now)], p);
    FilterKeepsAll(events, p);
  }

  /** The three guards of `registerForEvent`, evaluated on the first event
      with the id: it exists, the user is not an attendee yet, and it is not
      full. */
  predicate CanRegister(events: seq<Event>, id: string, user: string): (b: bool)
    // An unknown id is refused.
    ensures !HasId(events, id) ==> !b
    // Otherwise only the first event with the id is consulted.
    ensures HasId(events, id) ==> (b <==> user !in events[IndexOf(events, id).value].attendees &&
                                          !IsFull(events[IndexOf(events, id).value]))
  {
    match EventById(events, id)
    case None => false
    case Some(e) => user !in e.attendees && !IsFull(e)
  }

  function AddAttendee(user: string): Event -> Event {
    (e: Event) => e.(attendees := e.attendees + [user])
  }

  function DropAttendee(user: string): Event -> Event {
    (e: Event) => e.(attendees := Filter(e.attendees, (a: string) => a != user))
  }

  /** The successful update of `registerForEvent`: the user appended to the
      attendees of every event with the id. */
  function WithAttendee(events: seq<Event>, id: string, user: string): (r: seq<Event>)
    ensures |r| == |events|
    ensures forall i :: 0 <= i < |events| && events[i].id == id ==>
      r[i] == events[i].(attendees := events[i].attendees + [user])
    ensures forall i :: 0 <= i < |events| && events[i].id != id ==> r[i] == events[i]
  {
    MapWhereId(events, id, AddAttendee(user))
  }

  /** `unregisterFromEvent`: every occurrence of the user dropped from the
      attendees of every event with the id. */
  function WithoutAttendee(events: seq<Event>, id: string, user: string): (r: seq<Event>)
    ensures |r| == |events|
    ensures forall i :: 0 <= i < |events| && events[i].id == id ==>
      r[i] == events[i].(attendees := Filter(events[i].attendees, (a: string) => a != user))
    ensures forall i :: 0 <= i < |events| && events[i].id != id ==> r[i] == events[i]
  {
    MapWhereId(events, id, DropAttendee(user))
  }

  /** After unregistering, the user is no attendee of that event, nobody was
      added, and the others keep their order. */
  lemma UnregisterRemovesOnly(events: seq<Event>, id: string, user: string, i: nat)
    requires i < |events| && events[i].id == id
    ensures user !in WithoutAttendee(events, id, user)[i].attendees
    ensures forall a :: a in WithoutAttendee(events, id, user)[i].attendees <==> a in events[i].attendees && a != user
  {
  }

  /** Unregistering a user who is no attendee of any event with the id is a
      no-op. */
  lemma UnregisterAbsentIsNoOp(events: seq<Event>, id: string, user: string)
    requires forall i :: 0 <= i < |events| && events[i].id == id ==> user !in events[i].attendees
    ensures WithoutAttendee(events, id, user) == events
  {
    forall i | 0 <= i < |events| && events[i].id == id
      ensures WithoutAttendee(events, id, user)[i] == events[i]
    {
      FilterKeepsAll(events[i].attendees, (a: string) => a != user);
    }
  }

  /** With unique ids, a successful registration keeps every attendee list
      duplicate-free and within capacity. */
  lemma RegisterPreservesInvariant(events: seq<Event>, id: string, user: string)
    requires UniqueIds(events) && RegistrationInvariant(events)
    requires CanRegister(events, id, user)
    ensures RegistrationInvariant(WithAttendee(events, id, user))
  {
    var r := WithAttendee(events, id, user);
    forall i | 0 <= i < |r|
      ensures NoDuplicates(r[i].attendees) && WithinCapacity(r[i])
    {
      if events[i].id == id {
        EventByIdUnique(events, i);
        var a := events[i].attendees;
        assert r[i].attendees == a + [user];
        assert forall k :: 0 <= k < |a| ==> a[k] != user;
      }
    }
  }

  /** Registering twice: the second call is rejected, and the user is listed
      exactly once, at the end. */
  lemma RegisterTwiceRejected(events: seq<Event>, id: string, user: string)
    requires UniqueIds(events) && CanRegister(events, id, user)
    ensures !CanRegister(WithAttendee(events, id, user), id, user)
    ensures var e := EventById(WithAttendee(events, id, user), id).value;
            multiset(e.attendees)[user] == 1 && e.attendees[|e.attendees| - 1] == user
  {
    var i := IndexOf(events, id).value;
    EventByIdUnique(events, i);
    var r := WithAttendee(events, id, user);
    assert UniqueIds(r) by {
      assert forall k :: 0 <= k < |r| ==> r[k].id == events[k].id;
    }
    EventByIdUnique(r, i);
    var a := events[i].attendees;
    assert r[i].attendees == a + [user];
    assert multiset(a)[user] == 0;
  }

  /** Unregistering right after a successful registration restores the
      collection. */
  lemma UnregisterUndoesRegister(events: seq<Event>, id: string, user: string)
    requires UniqueIds(events) && CanRegister(events, id, user)
    ensures WithoutAttendee(WithAttendee(events, id, user), id, user) == events
  {
    var r := WithAttendee(events, id, user);
    var i := IndexOf(events, id).value;
    EventByIdUnique(events, i);
    forall k | 0 <= k < |events| && events[k].id == id
      ensures WithoutAttendee(r, id, user)[k] == events[k]
    {
      assert k == i;
      var a := events[k].attendees;
      var p := (x: string) => x != user;
      FilterConcat(a, [user], p);
      FilterKeepsAll(a, p);
      assert Filter(r[k].attendees, p) == a;
    }
  }
}
