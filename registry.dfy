/** The events context: the one object that owns the ordered collection of
    events and changes it. Its queries are the functions of module Events
    applied to `events`. */
module Registry {
  import opened Collections
  import opened Events

  /** The demonstration main event the registry starts with when nothing
      was saved. */
  const SeedMain: Event :=
    Event("1", "Semana de Tecnologia 2024",
          "Uma semana completa de palestras, workshops e hackathons sobre as mais novas tecnologias.",
          "2024-10-15", "08:00", "Coordenação de TADS", "organizer-id", [], Some(500),
          Some("IFF Campos Centro"), Some("Tecnologia"), 1725148800000, None, None)

  /** Its three demonstration sub-events. */
  const SeedWorkshop: Event :=
    Event("2", "Workshop de React e Node.js",
          "Aprenda a desenvolver aplicações modernas com React no frontend e Node.js no backend.",
          "2024-10-15", "14:00", "Prof. Maria Santos", "organizer-id", ["user3"], Some(30),
          Some("Laboratório de Informática 1"), Some("Programação"), 1725494400000, Some("1"), None)

  const SeedTalk: Event :=
    Event("3", "Palestra sobre Inteligência Artificial",
          "Descubra o futuro da IA e suas aplicações no mercado de trabalho.",
          "2024-10-16", "10:00", "Prof. Carlos Pereira", "organizer-id", [], Some(100),
          Some("Auditório Principal"), Some("Inteligência Artificial"), 1725580800000, Some("1"), None)

  const SeedCourse: Event :=
    Event("4", "Minicurso de Docker",
          "Aprenda a containerizar suas aplicações com Docker.",
          "2024-10-17", "09:00", "Prof. Ana Souza", "organizer-id", [], Some(25),
          Some("Laboratório de Redes"), Some("DevOps"), 1725667200000, Some("1"), None)

  const SeedSubs: seq<Event> := [SeedWorkshop, SeedTalk, SeedCourse]

  /** The collection the registry starts with when nothing was saved. */
  function Seed(): seq<Event> {
    [SeedMain] + SeedSubs
  }

  /** The seed's ids are distinct and it satisfies the registration
      invariant. */
  lemma SeedIsConsistent()
    ensures UniqueIds(Seed()) && RegistrationInvariant(Seed())
  {
  }

  /** Event "1" is the seed's only main event. */
  lemma SeedMainEvents()
    ensures MainEvents(Seed()) == [SeedMain]
  {
    FilterConcat([SeedMain], SeedSubs, IsMain);
    FilterKeepsAll([SeedMain], IsMain);
    FilterDropsAll(SeedSubs, IsMain);
  }

  /** The other three seed events are the sub-events of event "1". */
  lemma SeedSubEvents()
    ensures SubEvents(Seed(), "1") == SeedSubs
  {
    FilterSplit([SeedMain], SeedSubs, ChildOf("1"));
  }

  class EventRegistry {
    var events: seq<Event>

    /** Loads the saved collection, or seeds the demonstration data when
        nothing was saved. */
    constructor Load(saved: Option<seq<Event>>)
      ensures events == (if saved.Some? then saved.value else Seed())
    {
      events := if saved.Some? then saved.value else Seed();
    }

    /** `addEvent`: one new event at the end, with the caller's fields, the
        given id, no attendees and `createdAt` now. */
    method AddEvent(d: Draft, newId: string, now: int)
      modifies this
      ensures |events| == |old(events)| + 1 && events[..|old(events)|] == old(events)
      ensures events[|old(events)|] == FromDraft(d, newId, now)
      ensures events == Appended(old(events), d, newId, now)
    {
      events := events + [FromDraft(d, newId, now)];
      assert events[..|old(events)|] == old(events);
    }

    /** `updateEvent`: the patch overlaid on every event with the id; the
        other events are untouched; an unknown id changes nothing. */
    method UpdateEvent(id: string, p: Patch)
      modifies this
      ensures |events| == |old(events)|
      ensures forall i :: 0 <= i < |events| ==>
        events[i] == if old(events)[i].id == id then Overlay(old(events)[i], p) else old(events)[i]
      ensures !HasId(old(events), id) ==> events == old(events)
    {
      events := Updated(events, id, p);
    }

    /** `deleteEvent`: every event with the id removed, the rest kept in
        order; sub-events of a deleted main event stay. */
    method DeleteEvent(id: string)
      modifies this
      ensures events == Filter(old(events), (e: Event) => e.id != id)
      ensures !HasId(events, id)
      ensures forall e :: e in old(events) && e.id != id ==> e in events
    {
      events := Deleted(events, id);
    }

    /** `registerForEvent`: the guards are checked on the first event with the
        id; on success the user is appended to the attendees of the events
        with that id and nothing else changes; on failure nothing changes. */
    method RegisterForEvent(id: string, user: string) returns (ok: bool)
      modifies this
      ensures ok <==> (EventById(old(events), id).Some? &&
                       user !in EventById(old(events), id).value.attendees &&
                       !IsFull(EventById(old(events), id).value))
      ensures ok ==> events == WithAttendee(old(events), id, user)
      ensures !ok ==> events == old(events)
      ensures UniqueIds(old(events)) && RegistrationInvariant(old(events)) ==> RegistrationInvariant(events)
    {
      var found := EventById(events, id);
      if found.None? {
        return false;
      }
      var e := found.value;
      if user in e.attendees {
        return false;
      }
      if IsFull(e) {
        return false;
      }
      if UniqueIds(events) && RegistrationInvariant(events) {
        RegisterPreservesInvariant(events, id, user);
      }
      events := WithAttendee(events, id, user);
      return true;
    }

    /** `unregisterFromEvent`: the user dropped from the attendees of the
        events with the id; nobody is added and no other event changes. */
    method UnregisterFromEvent(id: string, user: string)
      modifies this
      ensures events == WithoutAttendee(old(events), id, user)
      ensures forall i :: 0 <= i < |events| && events[i].id == id ==> user !in events[i].attendees
      ensures forall i :: 0 <= i < |events| && old(events)[i].id != id ==> events[i] == old(events)[i]
    {
      events := WithoutAttendee(events, id, user);
    }
  }
}
