/** The dashboard: the main events narrowed by a case-insensitive search,
    the "is the user registered" test, and the register and unregister
    handlers that do nothing without a user. */
module Dashboard {
  import opened Collections
  import opened Events
  import opened Auth
  import opened Registry
  import EventDetail

  /** `toLowerCase` on one character; only the ASCII letters are folded. */
  function LowerChar(c: char): char {
    if 'A' <= c <= 'Z' then (c as int + 32) as char else c
  }

  function Lower(s: string): (r: string)
    ensures |r| == |s|
    ensures forall i :: 0 <= i < |s| ==> r[i] == LowerChar(s[i])
  {
    seq(|s|, i requires 0 <= i < |s| => LowerChar(s[i]))
  }

  lemma LowerIdempotent(s: string)
    ensures Lower(Lower(s)) == Lower(s)
  {
  }

  /** `t` occurs in `s` starting at position `i`. */
  predicate OccursAt(s: string, t: string, i: int) {
    0 <= i && i + |t| <= |s| && s[i..i + |t|] == t
  }

  /** An occurrence after the first position is an occurrence in the tail. */
  lemma OccursShift(s: string, t: string, i: int)
    requires 0 < i && s != []
    ensures OccursAt(s, t, i) <==> OccursAt(s[1..], t, i - 1)
  {
    if i + |t| <= |s| {
      assert s[i..i + |t|] == s[1..][i - 1..i - 1 + |t|];
    }
  }

  /** When `t` is not a prefix of `s`, it occurs in `s` exactly when it
      occurs in the tail. */
  lemma IncludesInTail(s: string, t: string)
    requires s != [] && !(t <= s)
    ensures (exists i :: OccursAt(s, t, i)) <==> (exists j :: OccursAt(s[1..], t, j))
  {
    if exists i :: OccursAt(s, t, i) {
      var i :| OccursAt(s, t, i);
      OccursShift(s, t, i);
    }
    if exists j :: OccursAt(s[1..], t, j) {
      var j :| OccursAt(s[1..], t, j);
      OccursShift(s, t, j + 1);
    }
  }

  /** `s.includes(t)`: `t` occurs in `s` at some position. */
  function Includes(s: string, t: string): (b: bool)
    ensures b <==> exists i :: OccursAt(s, t, i)
    decreases |s|
  {
    if t <= s then
      assert OccursAt(s, t, 0);
      true
    else if s == [] then false
    else
      var b := Includes(s[1..], t);
      IncludesInTail(s, t);
      b
  }

  /** The search test of one event against the term. */
  function Matches(term: string): Event -> bool {
    (e: Event) =>
      Includes(Lower(e.title), Lower(term)) ||
      Includes(Lower(e.description), Lower(term)) ||
      Includes(Lower(e.organizer), Lower(term))
  }

  /** `filteredEvents` */
  function FilteredEvents(events: seq<Event>, term: string): (r: seq<Event>)
    ensures forall e :: e in r <==> e in events && IsMain(e) && Matches(term)(e)
  {
    FilterMembership(MainEvents(events), Matches(term));
    Filter(MainEvents(events), Matches(term))
  }

  /** An empty search keeps every main event, in order. */
  lemma EmptySearchKeepsAll(events: seq<Event>)
    ensures FilteredEvents(events, "") == MainEvents(events)
  {
    var m := MainEvents(events);
    forall i | 0 <= i < |m| ensures Matches("")(m[i]) {
      assert Lower(m[i].title)[0..0] == Lower("");
    }
    FilterKeepsAll(m, Matches(""));
  }

  /** The search does not depend on the case of the term. */
  lemma SearchIgnoresTermCase(events: seq<Event>, term: string)
    ensures FilteredEvents(events, Lower(term)) == FilteredEvents(events, term)
  {
    LowerIdempotent(term);
    var m := MainEvents(events);
    FilterExtensional(m, Matches(Lower(term)), Matches(term));
  }

  /** Nor on the case of the searched fields: an event whose title,
      description and organizer differ only in case matches the same
      terms. */
  lemma SearchIgnoresFieldCase(e: Event, term: string)
    ensures Matches(term)(e) ==
            Matches(term)(e.(title := Lower(e.title), description := Lower(e.description), organizer := Lower(e.organizer)))
  {
    LowerIdempotent(e.title);
    LowerIdempotent(e.description);
    LowerIdempotent(e.organizer);
  }

  /** `isUserRegistered`: false without a user, else whether the user's
      events include the id. */
  function IsUserRegistered(user: Option<User>, events: seq<Event>, id: string): (b: bool)
    ensures user.None? ==> !b
    ensures user.Some? ==> (b <==> exists e :: e in events && e.id == id && user.value.id in e.attendees)
  {
    user.Some? && EventDetail.IsRegistered(events, user.value.id, id)
  }

  /** `handleRegister`: without a user nothing happens (`None`); otherwise
      the registration is attempted and its result reported. */
  method HandleRegister(registry: EventRegistry, user: Option<User>, id: string) returns (ok: Option<bool>)
    modifies registry
    ensures user.None? ==> ok.None? && registry.events == old(registry.events)
    ensures user.Some? ==> ok.Some? && (ok.value <==> CanRegister(old(registry.events), id, user.value.id))
    ensures ok == Some(true) ==> registry.events == WithAttendee(old(registry.events), id, user.value.id)
    ensures ok != Some(true) ==> registry.events == old(registry.events)
  {
    if user.None? {
      return None;
    }
    var r := registry.RegisterForEvent(id, user.value.id);
    ok := Some(r);
  }

  /** `handleUnregister`: without a user nothing happens; otherwise the user
      is dropped from the event's attendees. */
  method HandleUnregister(registry: EventRegistry, user: Option<User>, id: string)
    modifies registry
    ensures user.None? ==> registry.events == old(registry.events)
    ensures user.Some? ==> registry.events == WithoutAttendee(old(registry.events), id, user.value.id)
  {
    if user.Some? {
      registry.UnregisterFromEvent(id, user.value.id);
    }
  }
}
