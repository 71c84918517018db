/** The event detail page: what it shows for the route's id and the current
    user (the registration status ladder and the remaining slots), and what
    its single button does. */
module EventDetail {
  import opened Collections
  import opened Events
  import opened Auth
  import opened Registry

  /** `getUserEvents(user).some(e => e.id === id)` */
  function IsRegistered(events: seq<Event>, user: string, id: string): (b: bool)
    ensures b <==> exists e :: e in events && e.id == id && user in e.attendees
  {
    var mine := UserEvents(events, user);
    assert forall e :: e in mine <==> e in events && user in e.attendees;
    HasId(mine, id)
  }

  datatype StatusText = Finished | CancelRegistration | SoldOut | SignUp

  function Caption(t: StatusText): string {
    match t
    case Finished => "Evento Finalizado"
    case CancelRegistration => "Cancelar Inscrição"
    case SoldOut => "Evento Lotado"
    case SignUp => "Inscrever-se"
  }

  /** What the button says, whether it is drawn outlined (otherwise in the
      default variant) and whether it is disabled. */
  datatype Status = Status(text: StatusText, outline: bool, disabled: bool)

  /** `getRegistrationStatus` */
  function RegistrationStatus(isUpcoming: bool, isRegistered: bool, isFull: bool): (s: Status)
    // A past event is finished whatever the registration or capacity.
    ensures !isUpcoming ==> s == Status(Finished, true, true)
    // A registered user can always cancel an upcoming event, even a full one.
    ensures isUpcoming && isRegistered ==> s == Status(CancelRegistration, true, false)
    ensures isUpcoming && !isRegistered && isFull ==> s == Status(SoldOut, true, true)
    ensures s.text == SignUp <==> isUpcoming && !isRegistered && !isFull
    ensures s.disabled <==> !isUpcoming || (!isRegistered && isFull)
    ensures !s.outline <==> s.text == SignUp
  {
    if !isUpcoming then Status(Finished, true, true)
    else if isRegistered then Status(CancelRegistration, true, false)
    else if isFull then Status(SoldOut, true, true)
    else Status(SignUp, false, false)
  }

  /** "Vagas disponíveis": shown only when `maxAttendees` is truthy, as
      `maxAttendees - attendees.length`; it can go negative when an edit
      lowered the limit below the attendance. */
  function RemainingSlots(e: Event): (r: Option<int>)
    ensures r.Some? <==> HasLimit(e)
    ensures r.Some? ==> r.value + |e.attendees| == e.maxAttendees.value
    ensures r.Some? ==> (r.value <= 0 <==> IsFull(e))
  {
    if HasLimit(e) then Some(e.maxAttendees.value - |e.attendees|) else None
  }

  /** The page for route id `routeId` and the current user. */
  datatype View =
    | NotFound                 // no id in the route, or nobody logged in
    | UnknownEvent             // no event has the id
    | Shown(event: Event, isRegistered: bool, status: Status, remaining: Option<int>)

  function DetailView(events: seq<Event>, routeId: Option<string>, user: Option<User>, now: int, clock: Clock): (v: View)
    ensures v == NotFound <==> !TruthyOpt(routeId) || user.None?
    ensures v == UnknownEvent <==> TruthyOpt(routeId) && user.Some? && !HasId(events, routeId.value)
    ensures v.Shown? ==> Some(v.event) == EventById(events, routeId.value) &&
                         v.isRegistered == IsRegistered(events, user.value.id, routeId.value) &&
                         v.remaining == RemainingSlots(v.event)
    ensures v.Shown? ==> v.status == RegistrationStatus(StartsAfter(v.event, now, clock), v.isRegistered, IsFull(v.event))
  {
    if !TruthyOpt(routeId) || user.None? then NotFound
    else
      match EventById(events, routeId.value)
      case None => UnknownEvent
      case Some(e) =>
        var registered := IsRegistered(events, user.value.id, routeId.value);
        Shown(e, registered, RegistrationStatus(StartsAfter(e, now, clock), registered, IsFull(e)), RemainingSlots(e))
  }

  /** An enabled "Inscrever-se" button is honest: the registration it
      triggers passes every guard of `registerForEvent`. */
  lemma SignUpButtonSucceeds(events: seq<Event>, routeId: Option<string>, user: Option<User>, now: int, clock: Clock)
    requires DetailView(events, routeId, user, now, clock).Shown?
    requires DetailView(events, routeId, user, now, clock).status.text == SignUp
    ensures CanRegister(events, routeId.value, user.value.id)
  {
    var v := DetailView(events, routeId, user, now, clock);
    assert v.event in events && v.event.id == routeId.value;
  }

  /** "Evento Lotado" is honest too: registering would be refused. */
  lemma SoldOutButtonWouldFail(events: seq<Event>, routeId: Option<string>, user: Option<User>, now: int, clock: Clock)
    requires DetailView(events, routeId, user, now, clock).Shown?
    requires DetailView(events, routeId, user, now, clock).status.text == SoldOut
    ensures !CanRegister(events, routeId.value, user.value.id)
  {
  }

  /** "Cancelar Inscrição" is shown only to an attendee; with unique ids,
      of exactly the event on the page. */
  lemma CancelButtonMeansAttendee(events: seq<Event>, routeId: Option<string>, user: Option<User>, now: int, clock: Clock)
    requires DetailView(events, routeId, user, now, clock).Shown?
    requires DetailView(events, routeId, user, now, clock).status.text == CancelRegistration
    requires UniqueIds(events)
    ensures user.value.id in DetailView(events, routeId, user, now, clock).event.attendees
  {
    var v := DetailView(events, routeId, user, now, clock);
    var e :| e in events && e.id == routeId.value && user.value.id in e.attendees;
    var i :| 0 <= i < |events| && events[i] == e;
    EventByIdUnique(events, i);
  }

  /** The toast `handleRegister` raises. */
  datatype Outcome = Cancelled | SignedUp | Refused

  /** `handleRegister`: unregisters when the page says the user is
      registered, otherwise attempts the registration and reports whether it
      succeeded. */
  method HandleRegister(registry: EventRegistry, e: Event, user: User, isRegistered: bool) returns (o: Outcome)
    modifies registry
    ensures isRegistered ==> o == Cancelled && registry.events == WithoutAttendee(old(registry.events), e.id, user.id)
    ensures !isRegistered ==> o != Cancelled
    ensures !isRegistered ==> (o == SignedUp <==> CanRegister(old(registry.events), e.id, user.id))
    ensures o == SignedUp ==> registry.events == WithAttendee(old(registry.events), e.id, user.id)
    ensures o == Refused ==> registry.events == old(registry.events)
  {
    if isRegistered {
      registry.UnregisterFromEvent(e.id, user.id);
      o := Cancelled;
    } else {
      var ok := registry.RegisterForEvent(e.id, user.id);
      o := if ok then SignedUp else Refused;
    }
  }
}
