/** The calendar page: the dictionary from day keys to the events with a
    session on that day, the lookup for the picked day, and the link each
    listed event points to. */
module CalendarPage {
  import opened Collections
  import opened Events

  /** The key a session date is filed under: the ISO date of its local
      midnight (`new Date(date + 'T00:00:00').toISOString().split('T')[0]`).
      Time zones stay outside the model. */
  type DayKey = string -> string

  type ByDate = map<string, seq<Event>>

  function EventId(e: Event): string { e.id }

  /** `acc[k] || []` */
  function Get(acc: ByDate, k: string): seq<Event> {
    if k in acc then acc[k] else []
  }

  /** `if (!list.find(x => x.id === e.id)) list.push(e)` */
  function Push(list: seq<Event>, e: Event): (r: seq<Event>)
    ensures HasKey(r, e.id, EventId)
    ensures list <= r
    ensures HasKey(list, e.id, EventId) ==> r == list
    ensures !HasKey(list, e.id, EventId) ==> r == list + [e]
  {
    if HasKey(list, e.id, EventId) then list
    else
      assert EventId(e) == e.id;
      list + [e]
  }

  /** The body of the inner `forEach` for one session filed under `k`. */
  function AddUnder(acc: ByDate, k: string, e: Event): ByDate {
    acc[k := Push(Get(acc, k), e)]
  }

  /** The inner `forEach` over the sessions `ss` of event `e`. */
  function AddSessions(acc: ByDate, e: Event, ss: seq<Session>, dayKey: DayKey): ByDate
    decreases |ss|
  {
    if ss == [] then acc
    else AddUnder(AddSessions(acc, e, ss[..|ss| - 1], dayKey), dayKey(ss[|ss| - 1].date), e)
  }

  /** The `reduce` over the events: only events whose schedule is an array
      contribute. */
  function Grouped(events: seq<Event>, dayKey: DayKey): ByDate
    decreases |events|
  {
    if events == [] then map[]
    else
      var acc := Grouped(events[..|events| - 1], dayKey);
      var e := events[|events| - 1];
      match e.schedule
      case None => acc
      case Some(ss) => AddSessions(acc, e, ss, dayKey)
  }

  /** Some session of `e` is filed under `k`. */
  predicate OnDay(e: Event, k: string, dayKey: DayKey) {
    e.schedule.Some? && Hits(e.schedule.value, k, dayKey)
  }

  function OnDayOf(k: string, dayKey: DayKey): Event -> bool {
    (e: Event) => OnDay(e, k, dayKey)
  }

  /** `eventsByDate`, step by step as the page builds it: the dictionary is
      created empty, and for each event with an array schedule and each of
      its sessions the list under the session's key is created when missing
      and the event pushed unless one with its id is already there. */
  method GroupByDate(events: seq<Event>, dayKey: DayKey) returns (acc: ByDate)
    ensures acc == Grouped(events, dayKey)
    ensures forall k :: k in acc <==> exists i :: 0 <= i < |events| && OnDay(events[i], k, dayKey)
    ensures forall k :: Get(acc, k) == DistinctBy(Filter(events, OnDayOf(k, dayKey)), EventId)
  {
    acc := map[];
    var i := 0;
    while i < |events|
      invariant 0 <= i <= |events|
      invariant acc == Grouped(events[..i], dayKey)
    {
      var e := events[i];
      assert events[..i + 1][..i] == events[..i];
      if e.schedule.Some? {
        acc := FileSessions(acc, e, e.schedule.value, dayKey);
      }
      i := i + 1;
    }
    assert events[..i] == events;
    forall k ensures (k in acc <==> exists i :: 0 <= i < |events| && OnDay(events[i], k, dayKey)) &&
                     Get(acc, k) == DistinctBy(Filter(events, OnDayOf(k, dayKey)), EventId) {
      GroupedSpec(events, dayKey, k);
    }
  }

  /** The inner `forEach`: files event `e` under the key of each session in
      `ss`, creating a missing list and pushing the event unless an event
      with its id is already there. */
  method FileSessions(acc0: ByDate, e: Event, ss: seq<Session>, dayKey: DayKey) returns (acc: ByDate)
    ensures acc == AddSessions(acc0, e, ss, dayKey)
  {
    acc := acc0;
    var j := 0;
    while j < |ss|
      invariant 0 <= j <= |ss|
      invariant acc == AddSessions(acc0, e, ss[..j], dayKey)
    {
      AddSessionsSnoc(acc0, e, ss, j, dayKey);
      var k := dayKey(ss[j].date);
      AddUnderInPlace(acc, k, e);
      if k !in acc {
        acc := acc[k := []];
      }
      var found := FindById(acc[k], e.id);
      if !found {
        acc := acc[k := acc[k] + [e]];
      }
      j := j + 1;
    }
    assert ss[..j] == ss;
  }

  /** Filing under `k` in place: create the list when missing, then push
      unless the id is there. */
  lemma AddUnderInPlace(acc: ByDate, k: string, e: Event)
    ensures var m := if k in acc then acc else acc[k := []];
            AddUnder(acc, k, e) == if HasKey(m[k], e.id, EventId) then m else m[k := m[k] + [e]]
  {
    var m := if k in acc then acc else acc[k := []];
    assert m[k] == Get(acc, k);
    if HasKey(m[k], e.id, EventId) {
      assert m == acc;
    }
  }

  /** `list.find(x => x.id === id)`, as a truth value. */
  method FindById(list: seq<Event>, id: string) returns (found: bool)
    ensures found <==> HasKey(list, id, EventId)
  {
    var i := 0;
    while i < |list|
      invariant 0 <= i <= |list|
      invariant forall j :: 0 <= j < i ==> list[j].id != id
    {
      if list[i].id == id {
        assert EventId(list[i]) == id;
        return true;
      }
      i := i + 1;
    }
    return false;
  }

  /** Some session of `ss` is filed under `k`. */
  predicate Hits(ss: seq<Session>, k: string, dayKey: DayKey) {
    exists j :: 0 <= j < |ss| && dayKey(ss[j].date) == k
  }

  /** One more session hits `k` exactly when it is filed there or an
      earlier one hits it. */
  lemma HitsSnoc(ss: seq<Session>, k: string, dayKey: DayKey)
    requires ss != []
    ensures Hits(ss, k, dayKey) <==> Hits(ss[..|ss| - 1], k, dayKey) || dayKey(ss[|ss| - 1].date) == k
  {
    var init := ss[..|ss| - 1];
    if Hits(init, k, dayKey) {
      var j :| 0 <= j < |init| && dayKey(init[j].date) == k;
      assert ss[j] == init[j];
    }
    if Hits(ss, k, dayKey) && dayKey(ss[|ss| - 1].date) != k {
      var j :| 0 <= j < |ss| && dayKey(ss[j].date) == k;
      assert init[j] == ss[j];
    }
  }

  /** The first `j + 1` sessions file the event once more than the first
      `j`. */
  lemma AddSessionsSnoc(acc: ByDate, e: Event, ss: seq<Session>, j: nat, dayKey: DayKey)
    requires j < |ss|
    ensures AddSessions(acc, e, ss[..j + 1], dayKey) ==
            AddUnder(AddSessions(acc, e, ss[..j], dayKey), dayKey(ss[j].date), e)
  {
    assert ss[..j + 1][..j] == ss[..j];
  }

  /** The sessions `ss` of `e` touch key `k` only if one of them is filed
      under `k`, and then the event is pushed once there. */
  lemma {:induction false} AddSessionsSpec(acc: ByDate, e: Event, ss: seq<Session>, dayKey: DayKey, k: string)
    ensures k in AddSessions(acc, e, ss, dayKey) <==> k in acc || Hits(ss, k, dayKey)
    ensures Get(AddSessions(acc, e, ss, dayKey), k) ==
            if Hits(ss, k, dayKey) then Push(Get(acc, k), e) else Get(acc, k)
    decreases |ss|
  {
    if ss != [] {
      var init := ss[..|ss| - 1];
      AddSessionsSpec(acc, e, init, dayKey, k);
      HitsSnoc(ss, k, dayKey);
      if dayKey(ss[|ss| - 1].date) == k {
        PushTwice(Get(acc, k), e);
      }
    }
  }

  /** Pushing the same event again changes nothing. */
  lemma PushTwice(list: seq<Event>, e: Event)
    ensures Push(Push(list, e), e) == Push(list, e)
  {
  }

  /** De-duplicating one more event is pushing it. */
  lemma DistinctSnoc(f: seq<Event>, e: Event)
    ensures DistinctBy(f + [e], EventId) == Push(DistinctBy(f, EventId), e)
  {
    assert (f + [e])[..|f|] == f;
  }

  /** One more event adds exactly the keys of its sessions. */
  lemma GroupedKeyStep(events: seq<Event>, dayKey: DayKey, k: string)
    requires events != []
    ensures k in Grouped(events, dayKey) <==>
            k in Grouped(events[..|events| - 1], dayKey) || OnDay(events[|events| - 1], k, dayKey)
  {
    var e := events[|events| - 1];
    if e.schedule.Some? {
      AddSessionsSpec(Grouped(events[..|events| - 1], dayKey), e, e.schedule.value, dayKey, k);
    }
  }

  /** A key is present exactly when some event has a session filed under
      it. */
  lemma {:induction false} GroupedKeys(events: seq<Event>, dayKey: DayKey, k: string)
    ensures k in Grouped(events, dayKey) <==> exists i :: 0 <= i < |events| && OnDay(events[i], k, dayKey)
    decreases |events|
  {
    if events != [] {
      var n := |events| - 1;
      var init := events[..n];
      GroupedKeys(init, dayKey, k);
      GroupedKeyStep(events, dayKey, k);
      assert forall i :: 0 <= i < n ==> init[i] == events[i];
      if k in Grouped(init, dayKey) {
        var i :| 0 <= i < |init| && OnDay(init[i], k, dayKey);
        assert OnDay(events[i], k, dayKey);
      }
    }
  }

  /** The list under a key is the events with a session on that day, in
      collection order, keeping the first event of each id. */
  lemma {:induction false} GroupedLists(events: seq<Event>, dayKey: DayKey, k: string)
    ensures Get(Grouped(events, dayKey), k) == DistinctBy(Filter(events, OnDayOf(k, dayKey)), EventId)
    decreases |events|
  {
    if events != [] {
      var init := events[..|events| - 1];
      var e := events[|events| - 1];
      var p := OnDayOf(k, dayKey);
      GroupedLists(init, dayKey, k);
      var f := Filter(init, p);
      if e.schedule.Some? {
        AddSessionsSpec(Grouped(init, dayKey), e, e.schedule.value, dayKey, k);
      }
      if p(e) {
        assert Filter(events, p) == f + [e];
        DistinctSnoc(f, e);
      } else {
        assert Filter(events, p) == f;
      }
    }
  }

  /** The dictionary, key by key. */
  lemma GroupedSpec(events: seq<Event>, dayKey: DayKey, k: string)
    ensures k in Grouped(events, dayKey) <==> exists i :: 0 <= i < |events| && OnDay(events[i], k, dayKey)
    ensures Get(Grouped(events, dayKey), k) == DistinctBy(Filter(events, OnDayOf(k, dayKey)), EventId)
  {
    GroupedKeys(events, dayKey, k);
    GroupedLists(events, dayKey, k);
  }

  /** The lists of the dictionary: no event twice under one key, every
      event with a session on the day present by its id, and only events
      with an array schedule and a session on that day. */
  lemma DayListProperties(events: seq<Event>, dayKey: DayKey, k: string)
    ensures var l := Get(Grouped(events, dayKey), k);
            && (forall i, j :: 0 <= i < j < |l| ==> l[i].id != l[j].id)
            && (forall i :: 0 <= i < |events| && OnDay(events[i], k, dayKey) ==> HasKey(l, events[i].id, EventId))
            && (forall x :: x in l ==> x in events && x.schedule.Some? && OnDay(x, k, dayKey))
  {
    GroupedSpec(events, dayKey, k);
    var f := Filter(events, OnDayOf(k, dayKey));
    var l := DistinctBy(f, EventId);
    forall i | 0 <= i < |events| && OnDay(events[i], k, dayKey) ensures HasKey(l, events[i].id, EventId) {
      assert events[i] in f;
      assert EventId(events[i]) == events[i].id;
    }
    forall x | x in l ensures x in events && OnDay(x, k, dayKey) {
      assert x in f;
    }
  }

  /** With unique ids nothing is de-duplicated: the list of a day is the
      events with a session that day, in collection order. */
  lemma DayListInCollectionOrder(events: seq<Event>, dayKey: DayKey, k: string)
    requires UniqueIds(events)
    ensures Get(Grouped(events, dayKey), k) == Filter(events, OnDayOf(k, dayKey))
  {
    GroupedSpec(events, dayKey, k);
    assert DistinctKeys(events, EventId);
    FilterKeepsDistinctKeys(events, OnDayOf(k, dayKey), EventId);
    DistinctByUniqueKeys(Filter(events, OnDayOf(k, dayKey)), EventId);
  }

  /** `eventsForSelectedDate`: the list under the picked day's key (the
      empty key when no day is picked), or nothing. */
  function EventsForSelectedDate(byDate: ByDate, selected: Option<string>): (r: seq<Event>)
    ensures selected.Some? && selected.value !in byDate ==> r == []
    ensures selected.Some? && selected.value in byDate ==> r == byDate[selected.value]
    ensures selected.None? ==> r == Get(byDate, "")
  {
    Get(byDate, if selected.Some? then selected.value else "")
  }

  /** The picked day lists every event with a session that day, once each,
      in collection order; with no day picked, the same for the empty key. */
  lemma SelectedDayList(events: seq<Event>, dayKey: DayKey, selected: Option<string>)
    ensures var k := if selected.Some? then selected.value else "";
            EventsForSelectedDate(Grouped(events, dayKey), selected) ==
            DistinctBy(Filter(events, OnDayOf(k, dayKey)), EventId)
  {
    GroupedSpec(events, dayKey, if selected.Some? then selected.value else "");
  }

  /** The page link of a listed event: the main event page for a falsy
      `parentId`, the event page otherwise. */
  function LinkTo(e: Event): (r: string)
    ensures IsMain(e) ==> r == "/event/main/" + e.id
    ensures !IsMain(e) ==> r == "/event/" + e.id
  {
    if !TruthyOpt(e.parentId) then "/event/main/" + e.id else "/event/" + e.id
  }
}
