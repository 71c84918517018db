/** The event form, in create and in edit mode: what an edit loads into the
    form, the checks a submission must pass, the record it builds, and
    which store operation and route follow. */
module EventForm {
  import opened Collections
  import opened Events
  import opened Auth
  import CalendarPage

  /** `Number(text)` or `parseInt(text)`: `None` stands for NaN. */
  type NumberParse = string -> Option<int>

  /** The maximum-attendance input: `undefined` (or a NaN loaded from an
      event), the text typed in the input, or the number an edit loaded. */
  datatype MaxInput = NoMax | MaxText(text: string) | MaxNumber(n: int)

  /** `formData`: the record's fields as far as the form has them, and the
      maximum-attendance input apart, since the payload always replaces it. */
  datatype Form = Form(data: Patch, maxInput: MaxInput)

  datatype Kind = MainKind | SubKind

  /** The form's three pieces of state: `formData`, `eventType`, `parentId`. */
  datatype FormState = FormState(form: Form, kind: Kind, parent: Option<string>)

  /** The empty form of create mode. */
  const InitialState := FormState(
    Form(NoChange.(title := Set(""), description := Set(""), date := Set(""), time := Set(""),
                   location := Set(Some("")), category := Set(Some(""))), NoMax),
    MainKind, None)

  /** Every field of the event, as `setFormData(event)` stores it. */
  function FullPatch(e: Event): Patch {
    Patch(Set(e.id), Set(e.title), Set(e.description), Set(e.date), Set(e.time), Set(e.organizer),
          Set(e.organizerId), Set(e.attendees), Set(e.maxAttendees), Set(e.location), Set(e.category),
          Set(e.createdAt), Set(e.parentId), Set(e.schedule))
  }

  /** Overlaying every field of an event yields that event, whatever it is
      laid over. */
  lemma OverlayFullPatch(x: Event, e: Event)
    ensures Overlay(x, FullPatch(e)) == e
  {
  }

  function KindOf(e: Event): (k: Kind)
    ensures k == SubKind <==> !IsMain(e)
  {
    if TruthyOpt(e.parentId) then SubKind else MainKind
  }

  /** The edit-mode effect: the event with the route's id, when there is
      one, fills the form, sets the type to sub exactly for a truthy
      `parentId`, and selects its parent. */
  function LoadedState(events: seq<Event>, isEditMode: bool, routeId: Option<string>): (st: FormState)
    ensures !(isEditMode && TruthyOpt(routeId) && HasId(events, routeId.value)) ==> st == InitialState
    ensures isEditMode && TruthyOpt(routeId) && HasId(events, routeId.value) ==>
      var e := EventById(events, routeId.value).value;
      && st.form.data == FullPatch(e)
      && Overlay(e, st.form.data) == e
      && st.form.maxInput == (if e.maxAttendees.Some? then MaxNumber(e.maxAttendees.value) else NoMax)
      && (st.kind == SubKind <==> !IsMain(e))
      && st.parent == e.parentId
  {
    if isEditMode && TruthyOpt(routeId) then
      match EventById(events, routeId.value)
      case None => InitialState
      case Some(e) =>
        OverlayFullPatch(e, e);
        FormState(Form(FullPatch(e), if e.maxAttendees.Some? then MaxNumber(e.maxAttendees.value) else NoMax),
                  KindOf(e), e.parentId)
    else InitialState
  }

  /** A text field of `formData` (`undefined` when absent). */
  function Text(f: Field<string>): string {
    match f
    case Keep => ""
    case Set(s) => s
  }

  /** `title`, `description`, `date` and `time` are all truthy. */
  predicate RequiredFilled(title: string, description: string, date: string, time: string) {
    Truthy(title) && Truthy(description) && Truthy(date) && Truthy(time)
  }

  /** The required fields of the form are filled in. */
  predicate Filled(d: Patch) {
    RequiredFilled(Text(d.title), Text(d.description), Text(d.date), Text(d.time))
  }

  /** `new Date(`${date}T${time}`) <= new Date()`; an invalid date compares
      false and so is not in the past. */
  predicate NotInFuture(date: string, time: string, now: int, clock: Clock) {
    match clock(date, time)
    case Some(t) => t <= now
    case None => false
  }

  /** `formData.maxAttendees ? Number(formData.maxAttendees) : undefined` */
  function MaxValue(m: MaxInput, number: NumberParse): (r: Option<int>)
    ensures m == NoMax || m == MaxText("") || m == MaxNumber(0) ==> r == None
    ensures m.MaxText? && m.text != "" ==> r == number(m.text)
    ensures m.MaxNumber? && m.n != 0 ==> r == Some(m.n)
  {
    match m
    case NoMax => None
    case MaxText(t) => if t == "" then None else number(t)
    case MaxNumber(n) => if n == 0 then None else Some(n)
  }

  /** `eventData`: the form's fields, with the organizer taken from the
      user, the converted maximum, and a parent only for a sub-event. */
  function Payload(st: FormState, user: User, number: NumberParse): (p: Patch)
    ensures p.organizer == Set(user.name) && p.organizerId == Set(user.id)
    ensures p.maxAttendees == Set(MaxValue(st.form.maxInput, number))
    ensures p.parentId == Set(if st.kind == SubKind then st.parent else None)
    ensures p.(organizer := Keep, organizerId := Keep, maxAttendees := Keep, parentId := Keep) ==
            st.form.data.(organizer := Keep, organizerId := Keep, maxAttendees := Keep, parentId := Keep)
  {
    st.form.data.(organizer := Set(user.name), organizerId := Set(user.id),
                  maxAttendees := Set(MaxValue(st.form.maxInput, number)),
                  parentId := Set(if st.kind == SubKind then st.parent else None))
  }

  /** What `addEvent` receives from a payload: absent fields are
      `undefined`. */
  function DraftOf(p: Patch): Draft {
    Draft(Text(p.title), Text(p.description), Text(p.date), Text(p.time), Text(p.organizer),
          Text(p.organizerId), Pick(p.maxAttendees, None), Pick(p.location, None),
          Pick(p.category, None), Pick(p.parentId, None), Pick(p.schedule, None))
  }

  /** Where a submission ends. */
  datatype Submission =
    | Redirected                                        // no organizer logged in
    | MissingFields                                     // "Campos obrigatórios"
    | PastDate                                          // "Data inválida"
    | Update(id: string, patch: Patch, route: string)   // `updateEvent`, then navigate
    | Add(draft: Draft, route: string)                  // `addEvent`, then navigate

  predicate IsOrganizerUser(user: Option<User>) {
    user.Some? && user.value.role == Organizer
  }

  /** The route after an edit: the event page for a sub-event, the main
      event page otherwise. */
  function EditRoute(id: string, p: Patch): string {
    if p.parentId.Set? && TruthyOpt(p.parentId.value) then "/event/" + id else "/event/main/" + id
  }

  /** `handleSubmit` (behind the organizer redirect). */
  function Submit(user: Option<User>, isEditMode: bool, routeId: Option<string>, st: FormState,
                  now: int, clock: Clock, number: NumberParse): (s: Submission)
    ensures s == Redirected <==> !IsOrganizerUser(user)
    ensures s == MissingFields <==> IsOrganizerUser(user) && !Filled(st.form.data)
    // Only create mode checks the date.
    ensures s == PastDate ==> !isEditMode && NotInFuture(Text(st.form.data.date), Text(st.form.data.time), now, clock)
    ensures s.Update? || s.Add? ==> Filled(st.form.data)
    ensures s.Update? <==> IsOrganizerUser(user) && isEditMode && TruthyOpt(routeId) && Filled(st.form.data)
    ensures s.Update? ==> s.id == routeId.value && s.patch == Payload(st, user.value, number) &&
                          s.route == EditRoute(s.id, s.patch)
    ensures s.Add? ==> !(isEditMode && TruthyOpt(routeId)) && s.route == "/dashboard" &&
                       s.draft == DraftOf(Payload(st, user.value, number))
    ensures s.Add? && !isEditMode ==> !NotInFuture(Text(st.form.data.date), Text(st.form.data.time), now, clock)
  {
    var d := st.form.data;
    if !IsOrganizerUser(user) then Redirected
    else if !Filled(d) then MissingFields
    else if !isEditMode && NotInFuture(Text(d.date), Text(d.time), now, clock) then PastDate
    else
      var p := Payload(st, user.value, number);
      if isEditMode && TruthyOpt(routeId) then Update(routeId.value, p, EditRoute(routeId.value, p))
      else Add(DraftOf(p), "/dashboard")
  }

  /** Choosing "sub" without selecting a parent creates a main event. */
  lemma SubWithoutParentIsMain(st: FormState, user: User, number: NumberParse, id: string, now: int)
    requires st.kind == SubKind && st.parent == None
    ensures IsMain(FromDraft(DraftOf(Payload(st, user, number)), id, now))
  {
  }

  /** Saving an edit keeps the loaded event a main event or a sub-event of
      the same parent, when the type and parent are left as loaded. */
  lemma EditKeepsHierarchy(events: seq<Event>, routeId: Option<string>, user: User, number: NumberParse, x: Event)
    requires TruthyOpt(routeId) && HasId(events, routeId.value)
    ensures var e := EventById(events, routeId.value).value;
            var saved := Overlay(x, Payload(LoadedState(events, true, routeId), user, number));
            (IsMain(saved) <==> IsMain(e)) && (!IsMain(e) ==> saved.parentId == e.parentId)
  {
  }

  /** Saving an edit writes back every field as loaded except the organizer
      (now the editing user), the maximum (a 0 limit becomes `undefined`,
      both unlimited) and a falsy parent (cleared): attendees who registered
      while the form was open are dropped. */
  lemma EditRewritesLoadedEvent(events: seq<Event>, routeId: Option<string>, user: User, number: NumberParse, x: Event)
    requires TruthyOpt(routeId) && HasId(events, routeId.value)
    ensures var e := EventById(events, routeId.value).value;
            var saved := Overlay(x, Payload(LoadedState(events, true, routeId), user, number));
            && saved.attendees == e.attendees
            && saved.id == e.id
            && saved.organizer == user.name && saved.organizerId == user.id
            && (HasLimit(saved) <==> HasLimit(e)) && (IsFull(saved) <==> IsFull(e))
            && saved == e.(organizer := user.name, organizerId := user.id,
                           maxAttendees := saved.maxAttendees, parentId := saved.parentId)
  {
  }

  /** After an edit of a loaded event, the route is the link the calendar
      shows for the saved event. */
  lemma EditRouteIsCalendarLink(events: seq<Event>, routeId: Option<string>, st: FormState,
                                now: int, clock: Clock, number: NumberParse, user: Option<User>, x: Event)
    requires routeId.Some? && x.id == routeId.value
    requires st.form.data.id == Keep || st.form.data.id == Set(x.id)
    requires Submit(user, true, routeId, st, now, clock, number).Update?
    ensures var s := Submit(user, true, routeId, st, now, clock, number);
            s.route == CalendarPage.LinkTo(Overlay(x, s.patch))
  {
  }

  /** Edit mode never rejects a date, even one in the past. */
  lemma EditSkipsDateCheck(user: Option<User>, routeId: Option<string>, st: FormState,
                           now: int, clock: Clock, number: NumberParse)
    ensures Submit(user, true, routeId, st, now, clock, number) != PastDate
  {
  }
}
