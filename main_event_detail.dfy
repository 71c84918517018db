/** The main event page: the distinct dates of the main event's schedule,
    the sub-events narrowed to a selected date, the organizer test and when
    the date buttons show. Its register and unregister handlers are those of
    module Dashboard, and so is its `isUserRegistered`. */
module MainEventDetail {
  import opened Collections
  import opened Events
  import opened Auth
  import CreateEvent
  import EventForm

  /** `schedule.map(s => s.date)` */
  function SessionDates(ss: seq<Session>): (r: seq<string>)
    ensures |r| == |ss| && forall i :: 0 <= i < |ss| ==> r[i] == ss[i].date
  {
    seq(|ss|, i requires 0 <= i < |ss| => ss[i].date)
  }

  /** `mainEventDates`: each date of the schedule once, where it first
      occurs; nothing when there is no schedule. */
  function MainEventDates(e: Event): (r: seq<string>)
    ensures e.schedule.None? ==> r == []
    ensures e.schedule.Some? ==> forall i :: 0 <= i < |e.schedule.value| ==> e.schedule.value[i].date in r
    ensures forall i :: 0 <= i < |r| ==> exists j :: 0 <= j < |e.schedule.value| && e.schedule.value[j].date == r[i]
    ensures forall i, j :: 0 <= i < j < |r| ==> r[i] != r[j]
  {
    match e.schedule
    case None => []
    case Some(ss) =>
      var r := Distinct(SessionDates(ss));
      assert forall i :: 0 <= i < |r| ==> r[i] in SessionDates(ss);
      r
  }

  /** First-occurrence order: the dates of the first `n` sessions are listed
      first. */
  lemma MainEventDatesOrder(e: Event, n: nat)
    requires e.schedule.Some? && n <= |e.schedule.value|
    ensures Distinct(SessionDates(e.schedule.value[..n])) <= MainEventDates(e)
  {
    var ss := e.schedule.value;
    assert SessionDates(ss[..n]) == SessionDates(ss)[..n];
    DistinctPrefix(SessionDates(ss), n);
  }

  /** Two distinct dates come from two sessions on different days. */
  lemma TwoDatesTwoSessions(e: Event)
    requires |MainEventDates(e)| > 1
    ensures e.schedule.Some? && exists i, j :: 0 <= i < j < |e.schedule.value| &&
                                               e.schedule.value[i].date != e.schedule.value[j].date
  {
    var dates := MainEventDates(e);
    var ss := e.schedule.value;
    var i :| 0 <= i < |ss| && ss[i].date == dates[0];
    var j :| 0 <= j < |ss| && ss[j].date == dates[1];
    if i < j {
      assert ss[i].date != ss[j].date;
    } else {
      assert ss[j].date != ss[i].date;
    }
  }

  /** The date buttons render only when there are at least two distinct
      dates. */
  function ShowsDateFilter(e: Event): (b: bool)
    ensures b <==> e.schedule.Some? && exists i, j :: 0 <= i < j < |e.schedule.value| &&
                                                      e.schedule.value[i].date != e.schedule.value[j].date
  {
    if |MainEventDates(e)| > 1 then
      TwoDatesTwoSessions(e);
      true
    else
      OneDateOneDay(e);
      false
  }

  /** Conversely, two sessions on different dates give two listed dates. */
  lemma OneDateOneDay(e: Event)
    requires |MainEventDates(e)| <= 1
    ensures !(e.schedule.Some? && exists i, j :: 0 <= i < j < |e.schedule.value| &&
                                                 e.schedule.value[i].date != e.schedule.value[j].date)
  {
    var dates := MainEventDates(e);
    if e.schedule.Some? {
      var ss := e.schedule.value;
      forall i, j | 0 <= i < j < |ss| ensures ss[i].date == ss[j].date {
        assert ss[i].date in dates && ss[j].date in dates;
      }
    }
  }

  /** The sub-event has a session on the date; a sub-event without a
      schedule has none. */
  function OnDate(date: string): Event -> bool {
    (e: Event) => e.schedule.Some? && date in SessionDates(e.schedule.value)
  }

  /** `filteredSubEvents`, with a sub-event that has no schedule taken to
      have no session on any date. */
  function FilteredSubEvents(subs: seq<Event>, selected: string): (r: seq<Event>)
    ensures selected == "all" ==> r == subs
    ensures selected != "all" ==> forall e :: e in r <==> e in subs && OnDate(selected)(e)
  {
    if selected == "all" then subs
    else
      FilterMembership(subs, OnDate(selected));
      Filter(subs, OnDate(selected))
  }

  /** `filteredSubEvents` as written: `subEvent.schedule.some(...)` throws a
      TypeError (`None`) on the first sub-event without a schedule once a
      date is selected. */
  function FilteredSubEventsAsWritten(subs: seq<Event>, selected: string): (r: Option<seq<Event>>)
    ensures selected == "all" ==> r == Some(subs)
    decreases |subs|
  {
    if selected == "all" then Some(subs)
    else if subs == [] then Some([])
    else
      match FilteredSubEventsAsWritten(subs[..|subs| - 1], selected)
      case None => None
      case Some(kept) =>
        var last := subs[|subs| - 1];
        if last.schedule.None? then None
        else Some(kept + if OnDate(selected)(last) then [last] else [])
  }

  /** The page crashes for a selected date exactly when some sub-event has
      no schedule; otherwise it agrees with the corrected filter. */
  lemma {:induction false} AsWrittenCrashesOnMissingSchedule(subs: seq<Event>, selected: string)
    requires selected != "all"
    ensures FilteredSubEventsAsWritten(subs, selected).None? <==>
            exists i :: 0 <= i < |subs| && subs[i].schedule.None?
    ensures FilteredSubEventsAsWritten(subs, selected).Some? ==>
            FilteredSubEventsAsWritten(subs, selected).value == FilteredSubEvents(subs, selected)
    decreases |subs|
  {
    if subs != [] {
      var init := subs[..|subs| - 1];
      AsWrittenCrashesOnMissingSchedule(init, selected);
      assert forall i :: 0 <= i < |init| ==> init[i] == subs[i];
    }
  }

  /** A concrete crash: a date selected and one sub-event without schedule. */
  lemma AsWrittenCrashExample()
    ensures var sub := Event("2", "Oficina", "", "2024-10-15", "14:00", "Ana", "org", [], None,
                             None, None, 0, Some("1"), None);
            FilteredSubEventsAsWritten([sub], "2024-10-15") == None &&
            FilteredSubEvents([sub], "2024-10-15") == []
  {
  }

  /** `isOrganizer`: `user?.id === mainEvent.organizerId` */
  function IsOrganizer(user: Option<User>, e: Event): (b: bool)
    ensures b <==> user.Some? && user.value.id == e.organizerId
    ensures user.None? ==> !b
  {
    match user
    case None => false
    case Some(u) => u.id == e.organizerId
  }

  /** The organizer who creates an event on the creation page is its
      organizer on the main event page. */
  lemma CreatorIsOrganizer(user: Option<User>, f: CreateEvent.CreateForm, now: int, clock: Clock,
                           parseInt: EventForm.NumberParse, id: string)
    requires CreateEvent.Submit(user, f, now, clock, parseInt).Add?
    ensures IsOrganizer(user, FromDraft(CreateEvent.Submit(user, f, now, clock, parseInt).draft, id, now))
  {
    CreateEvent.CreatedIsMain(user, f, now, clock, parseInt, id);
  }

  /** Whoever saves the event form is the organizer of the saved event. The
      form checks the role only, not ownership: an edit by any organizer
      takes the event over, whoever organized it before. */
  lemma SaverIsOrganizer(user: Option<User>, isEditMode: bool, routeId: Option<string>, st: EventForm.FormState,
                         now: int, clock: Clock, number: EventForm.NumberParse, x: Event, id: string)
    requires EventForm.Submit(user, isEditMode, routeId, st, now, clock, number).Update? ||
             EventForm.Submit(user, isEditMode, routeId, st, now, clock, number).Add?
    ensures var s := EventForm.Submit(user, isEditMode, routeId, st, now, clock, number);
            s.Update? ==> IsOrganizer(user, Overlay(x, s.patch))
    ensures var s := EventForm.Submit(user, isEditMode, routeId, st, now, clock, number);
            s.Add? ==> IsOrganizer(user, FromDraft(s.draft, id, now))
  {
  }

  /** Editing someone else's event: after a save by `editor`, the previous
      organizer `owner` is no longer the organizer. */
  lemma EditTakesOver(events: seq<Event>, routeId: Option<string>, editor: User, owner: User,
                      number: EventForm.NumberParse, x: Event)
    requires TruthyOpt(routeId) && HasId(events, routeId.value)
    requires owner.id == EventById(events, routeId.value).value.organizerId && owner.id != editor.id
    ensures var saved := Overlay(x, EventForm.Payload(EventForm.LoadedState(events, true, routeId), editor, number));
            IsOrganizer(Some(editor), saved) && !IsOrganizer(Some(owner), saved)
  {
    EventForm.EditRewritesLoadedEvent(events, routeId, editor, number, x);
  }
}
