/** The older create-only page: the same required-field and future-date
    checks as the event form (without an edit mode), a text-only form, and a
    record that is always a main event. */
module CreateEvent {
  import opened Collections
  import opened Events
  import opened Auth
  import EventForm

  /** `formData`: seven text inputs, all empty at first. */
  datatype CreateForm = CreateForm(title: string, description: string, date: string, time: string,
                                   location: string, category: string, maxAttendees: string)

  const EmptyForm := CreateForm("", "", "", "", "", "", "")

  datatype Outcome = Redirected | MissingFields | PastDate | Add(draft: Draft)

  /** The record handed to `addEvent`: the text fields, the organizer from
      the user, `parseInt` of a non-empty maximum, and no parent. */
  function CreateDraft(f: CreateForm, user: User, parseInt: EventForm.NumberParse): (d: Draft)
    ensures d.title == f.title && d.description == f.description && d.date == f.date && d.time == f.time
    ensures d.organizer == user.name && d.organizerId == user.id
    ensures d.parentId == None && d.schedule == None
    ensures f.maxAttendees == "" ==> d.maxAttendees == None
    ensures f.maxAttendees != "" ==> d.maxAttendees == parseInt(f.maxAttendees)
    ensures d.location == Some(f.location) && d.category == Some(f.category)
  {
    Draft(f.title, f.description, f.date, f.time, user.name, user.id,
          if f.maxAttendees != "" then parseInt(f.maxAttendees) else None,
          Some(f.location), Some(f.category), None, None)
  }

  /** `handleSubmit` (behind the organizer redirect). */
  function Submit(user: Option<User>, f: CreateForm, now: int, clock: Clock,
                  parseInt: EventForm.NumberParse): (o: Outcome)
    ensures o == Redirected <==> !EventForm.IsOrganizerUser(user)
    ensures o == MissingFields <==> EventForm.IsOrganizerUser(user) &&
                                    !EventForm.RequiredFilled(f.title, f.description, f.date, f.time)
    // No edit-mode exemption: a date not strictly ahead is always rejected.
    ensures o == PastDate <==> EventForm.IsOrganizerUser(user) &&
                               EventForm.RequiredFilled(f.title, f.description, f.date, f.time) &&
                               EventForm.NotInFuture(f.date, f.time, now, clock)
    ensures o.Add? ==> o.draft == CreateDraft(f, user.value, parseInt)
  {
    if !EventForm.IsOrganizerUser(user) then Redirected
    else if !EventForm.RequiredFilled(f.title, f.description, f.date, f.time) then MissingFields
    else if EventForm.NotInFuture(f.date, f.time, now, clock) then PastDate
    else Add(CreateDraft(f, user.value, parseInt))
  }

  /** The event this page adds is always a main event, owned by the user. */
  lemma CreatedIsMain(user: Option<User>, f: CreateForm, now: int, clock: Clock,
                      parseInt: EventForm.NumberParse, id: string)
    requires Submit(user, f, now, clock, parseInt).Add?
    ensures var e := FromDraft(Submit(user, f, now, clock, parseInt).draft, id, now);
            IsMain(e) && e.organizerId == user.value.id && e.attendees == []
  {
  }

  /** The same texts typed into the event form in create mode. */
  function AsFormState(f: CreateForm): EventForm.FormState {
    EventForm.FormState(
      EventForm.Form(NoChange.(title := Set(f.title), description := Set(f.description), date := Set(f.date),
                               time := Set(f.time), location := Set(Some(f.location)),
                               category := Set(Some(f.category))),
                     EventForm.MaxText(f.maxAttendees)),
      EventForm.MainKind, None)
  }

  /** The two create paths agree: for the same texts, with the event form
      left on "main" and the two number conversions agreeing, they redirect,
      reject and add alike, and add the same record. */
  lemma AgreesWithEventForm(user: Option<User>, f: CreateForm, now: int, clock: Clock,
                            parse: EventForm.NumberParse, routeId: Option<string>)
    ensures var mine := Submit(user, f, now, clock, parse);
            var theirs := EventForm.Submit(user, false, routeId, AsFormState(f), now, clock, parse);
            && (mine == Redirected <==> theirs == EventForm.Redirected)
            && (mine == MissingFields <==> theirs == EventForm.MissingFields)
            && (mine == PastDate <==> theirs == EventForm.PastDate)
            && (mine.Add? <==> theirs.Add?)
            && (mine.Add? ==> mine.draft == theirs.draft)
  {
  }
}
