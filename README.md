# IFF event hub: the event registry and its page rules

A Dafny model of the event portal of the IFF campus (iff-event-hub). The
portal lists events, lets students register and unregister, and lets
organizers create, edit and delete events. Main events group sub-events
through `parentId`. Its core is the events context: one object that owns
the ordered collection of events. It adds, overlays, deletes, registers and
unregisters, and answers queries: by id, by user, main and sub-events, and
upcoming sorted by start.

Around it sit small decision rules in the pages and components:

- the register button of the event card and its label;
- the registration-status ladder of the event detail page;
- the validation and payload of the two event forms;
- the date filter of the main event page;
- the dashboard search;
- the calendar's dictionary from day to events;
- the display name the mock login derives from an e-mail address.

Modules, one per source file:

- `Collections` holds the shared vocabulary: `Option`, JavaScript's
  order-preserving `filter`, and keep-the-first de-duplication.
- `Events` holds the event record, every query, and a specification
  function for each state change (`Appended`, `Updated`, `Deleted`,
  `WithAttendee`, `WithoutAttendee`), with the lemmas relating them.
- `Registry` holds the class `EventRegistry`. Its field `events` is the
  collection, and its methods change it as the events context does. Each
  method's postcondition ties the new collection to the specification
  function of the old one.
- `Auth` holds the display-name pipeline and the class `AuthSession`, which
  holds the current user.
- `EventCard`, `EventDetail`, `EventForm`, `CreateEvent`,
  `MainEventDetail`, `Dashboard` and `CalendarPage` hold the page rules.
  `CalendarPage.GroupByDate` builds the day dictionary the way the page
  does: a loop over the events with an inner loop over each event's
  sessions.

Conventions:

- JavaScript truthiness is spelled out. A `maxAttendees` of 0 means
  "unlimited", an empty `parentId` makes a main event, and the `NaN` of a
  failed number conversion is `None`.
- The object spread `{ ...e, ...patch }` is `Events.Overlay` over a `Patch`.
  In a `Patch`, every field is absent (`Keep`) or present (`Set`).
- Date parsing is a parameter `clock` that maps a date and a time to an
  instant. "Now" is a parameter. So are the calendar's day key, the number
  conversions and random ids.
- The event record carries an optional `schedule`, a list of sessions each
  with a date and start and end times. The `Event` interface of
  src/contexts/EventsContext.tsx:3-17 does not declare it, but the event
  card, the calendar and the main event page read it, so the model's
  `Event` has `schedule: Option<seq<Session>>`; `None` is a missing one.

## Model

| member | source | states |
|---|---|---|
| Events.IndexOf | src/contexts/EventsContext.tsx:176 | the position of the first event with the id; nothing exactly when no event has it |
| Events.EventById | src/contexts/EventsContext.tsx:176 | `getEventById`: nothing exactly when no event has the id, otherwise an event of the collection with that id and no earlier one with it |
| Events.EventByIdUnique | src/contexts/EventsContext.tsx:176 | with unique ids, looking up an event's own id finds that event |
| Events.UserEvents | src/contexts/EventsContext.tsx:178-179 | `getUserEvents`: exactly the events whose attendees include the user |
| Events.HasLimit | src/contexts/EventsContext.tsx:156 | the limit test is JavaScript truthiness: no limit or a limit of 0 is no limit |
| Events.IsFull | src/components/EventCard.tsx:37 | `isFull` (also src/pages/EventDetail.tsx:53 and the capacity guard of `registerForEvent`): never full without a truthy limit, so 0 means unlimited; with one, full exactly when attendance reaches the limit |
| Events.MainEvents | src/contexts/EventsContext.tsx:146 | `getMainEvents`: exactly the events whose `parentId` is absent or empty |
| Events.SubEvents | src/contexts/EventsContext.tsx:148 | `getSubEvents`: exactly the events whose `parentId` equals the given id |
| Events.HierarchyPartition | src/contexts/EventsContext.tsx:146-148 | each event is a main event or a sub-event of its non-empty parent, never both |
| Events.SubEventsOfEmptyParentAreMain | src/contexts/EventsContext.tsx:146-148 | the "sub-events" of the empty parent id are all main events, because of the truthiness test |
| Events.InsertByStartSorted | src/contexts/EventsContext.tsx:185 | inserting into a list sorted by start keeps it sorted |
| Events.InsertByStartStable | src/contexts/EventsContext.tsx:185 | insertion places the new event after every event with the same start |
| Events.StartsAfter | src/contexts/EventsContext.tsx:182-184 | the date comparison of `getUpcomingEvents` (and of `isUpcoming` at src/pages/EventDetail.tsx:51-52): an invalid date is never after now; a valid one exactly when its instant is strictly later |
| Events.SortByStart | src/contexts/EventsContext.tsx:185 | the sort returns the same events (as a multiset), ordered by start |
| Events.SortByStartStable | src/contexts/EventsContext.tsx:185 | events with equal starts keep their collection order, as with the stable `Array.prototype.sort` |
| Events.UpcomingEvents | src/contexts/EventsContext.tsx:181-186 | `getUpcomingEvents`: exactly the events whose start parses and is strictly after now, each as often as in the collection, in ascending start order |
| Events.FromDraft | src/contexts/EventsContext.tsx:128-134 | the new record has the caller's fields, the given id, no attendees and the creation instant |
| Events.Appended | src/contexts/EventsContext.tsx:128-136 | `addEvent`: the old collection unchanged, then exactly the record built from the draft, the new id and the creation instant `now` (no attendees); stripping it gives back the draft; a fresh id then finds the new event and keeps the ids unique |
| Events.OverlayLaws | src/contexts/EventsContext.tsx:139 | the empty patch changes nothing; overlaying a patch twice equals overlaying it once |
| Events.Updated | src/contexts/EventsContext.tsx:138-140 | `updateEvent`: every event with the id gets the patch overlaid, any field included; the others stay; an unknown id changes nothing |
| Events.Deleted | src/contexts/EventsContext.tsx:142-144 | `deleteEvent`: no event with the id remains; every other event remains; nothing new appears |
| Events.DeleteKeepsSubEvents | src/contexts/EventsContext.tsx:142-144 | deleting a main event leaves its sub-events in place (no cascade) |
| Events.DeleteUndoesAdd | src/contexts/EventsContext.tsx:128-144 | deleting an event just added under a fresh id restores the collection |
| Events.CanRegister | src/contexts/EventsContext.tsx:151-156 | the three guards of `registerForEvent`: an unknown id is refused; otherwise the first event with the id must not list the user and must not be full |
| Events.WithAttendee | src/contexts/EventsContext.tsx:160-164 | the user is appended to the attendees of every event with the id; the other events are unchanged |
| Events.WithoutAttendee | src/contexts/EventsContext.tsx:168-174 | every occurrence of the user is dropped from the attendees of every event with the id; the other events are unchanged |
| Events.UnregisterRemovesOnly | src/contexts/EventsContext.tsx:168-174 | after unregistering, the user is gone from that event; every other attendee stays; nobody is added |
| Events.UnregisterAbsentIsNoOp | src/contexts/EventsContext.tsx:168-174 | unregistering a user who attends no event with the id changes nothing |
| Events.RegisterPreservesInvariant | src/contexts/EventsContext.tsx:150-165 | with unique ids, a registration that passes the guards keeps every attendee list duplicate-free and within capacity |
| Events.RegisterTwiceRejected | src/contexts/EventsContext.tsx:150-165 | after a successful registration, a second one is refused; the user is listed exactly once, at the end |
| Events.UnregisterUndoesRegister | src/contexts/EventsContext.tsx:150-174 | unregistering right after a successful registration restores the collection |
| Registry.SeedIsConsistent | src/contexts/EventsContext.tsx:47-108 | the demonstration collection has distinct ids and respects the registration invariant |
| Registry.SeedMainEvents | src/contexts/EventsContext.tsx:47-108 | event "1" is the seed's only main event |
| Registry.SeedSubEvents | src/contexts/EventsContext.tsx:47-108 | the other three seed events are exactly the sub-events of event "1", in order |
| Registry.EventRegistry.Load | src/contexts/EventsContext.tsx:110-121 | the registry starts with the saved collection, or with the demonstration collection when nothing was saved |
| Registry.EventRegistry.AddEvent | src/contexts/EventsContext.tsx:128-136 | the old events stay as they were, in order, followed by exactly one new event built from the caller's fields |
| Registry.EventRegistry.UpdateEvent | src/contexts/EventsContext.tsx:138-140 | events with the id get the patch; all other events are unchanged; an unknown id is a no-op |
| Registry.EventRegistry.DeleteEvent | src/contexts/EventsContext.tsx:142-144 | the events without the id, in their order; none with the id remains |
| Registry.EventRegistry.RegisterForEvent | src/contexts/EventsContext.tsx:150-166 | succeeds exactly when the first event with the id exists, lacks the user and is not full; on success the user is appended to the events with the id; on failure nothing changes; the registration invariant is preserved |
| Registry.EventRegistry.UnregisterFromEvent | src/contexts/EventsContext.tsx:168-174 | the user is absent from every event with the id afterwards; the other events are unchanged |
| Auth.LocalPart | src/contexts/AuthContext.tsx:38 | the text before the first '@', or the whole address when there is none |
| Auth.Sanitize | src/contexts/AuthContext.tsx:38 | same length; ASCII letters are kept in place; every other character becomes a space |
| Auth.Collapse | src/contexts/AuthContext.tsx:38 | no two consecutive spaces; never longer; same first and last character; no new kinds of character |
| Auth.CollapseKeepsLetters | src/contexts/AuthContext.tsx:38 | collapsing keeps the letters in order |
| Auth.CollapseConcat | src/contexts/AuthContext.tsx:38 | collapsing works run by run: across a cut that does not split a run of spaces, each side collapses on its own |
| Auth.CollapseSpaceRun | src/contexts/AuthContext.tsx:38 | a run of one or more spaces becomes exactly one space |
| Auth.CollapseNoSpaces | src/contexts/AuthContext.tsx:38 | text without spaces is unchanged |
| Auth.CollapseWordBreak | src/contexts/AuthContext.tsx:38 | two words separated by any run of spaces come out separated by exactly one space |
| Auth.TrimStart | src/contexts/AuthContext.tsx:38 | a suffix preceded only by spaces, not starting with one |
| Auth.TrimEnd | src/contexts/AuthContext.tsx:38 | a prefix followed only by spaces, not ending with one |
| Auth.Trim | src/contexts/AuthContext.tsx:38 | never longer; the result neither starts nor ends with a space |
| Auth.TrimKeepsLetters | src/contexts/AuthContext.tsx:38 | trimming keeps the letters in order |
| Auth.TrimKeepsShape | src/contexts/AuthContext.tsx:38 | trimming keeps "letters and spaces only" and "no double space" |
| Auth.SanitizeKeepsLetters | src/contexts/AuthContext.tsx:38 | replacing the non-letters keeps the letters in order |
| Auth.DisplayName | src/contexts/AuthContext.tsx:38 | the whole `name:` chain, Trim after Collapse after Sanitize after LocalPart: never longer than the local part, no space at either end; its full shape is DisplayNameShape and its word breaks DisplayNameWordBreak |
| Auth.DisplayNameShape | src/contexts/AuthContext.tsx:38 | the display name has only ASCII letters and single spaces, no space at either end, and the letters of the local part in order |
| Auth.LocalPartBeforeAt | src/contexts/AuthContext.tsx:38 | the local part of `x@domain` is `x` when `x` has no '@' |
| Auth.SanitizeWordBreak | src/contexts/AuthContext.tsx:38 | two words around a separator without letters keep their letters; the separator becomes a run of spaces |
| Auth.DisplayNameWordBreak | src/contexts/AuthContext.tsx:38 | for `w1 sep w2@domain` with letter words and a separator of non-letters, the name is exactly `w1`, one space, `w2` (so `john.doe@x` gives "john doe") |
| Auth.AuthSession.constructor | src/contexts/AuthContext.tsx:32 | no user is logged in at first |
| Auth.AuthSession.Restore | src/contexts/AuthContext.tsx:56-61 | a saved user becomes the current user; otherwise nothing changes |
| Auth.AuthSession.Login | src/contexts/AuthContext.tsx:34-48 | any password is accepted; the user has the new id, the derived name, the address and the chosen role, so `isAuthenticated` is true |
| Auth.AuthSession.IsAuthenticated | src/contexts/AuthContext.tsx:67 | `!!user`: true exactly when a user is logged in |
| Auth.AuthSession.Logout | src/contexts/AuthContext.tsx:50-53 | no user afterwards, so `isAuthenticated` is false |
| EventCard.AnySessionAfter | src/components/EventCard.tsx:31-36 | true exactly when some session starts strictly after now |
| EventCard.CardIsUpcoming | src/components/EventCard.tsx:31-36 | `isUpcoming`: exactly when the schedule is an array with a session after now |
| EventCard.ClickAction | src/components/EventCard.tsx:39-53 | a registered user with an unregister handler always unregisters; a full event the user is not registered for only touches the waitlist (leave if in it, else join); otherwise it registers if the handler is present, even for a registered user without an unregister handler |
| EventCard.ButtonLabel | src/components/EventCard.tsx:55-60 | a waitlist label exactly when full and not registered (leave or join by waitlist membership); otherwise "Cancelar Inscrição" exactly when registered |
| EventCard.ShowsButton | src/components/EventCard.tsx:134 | the button renders exactly when the card is asked to show it and the event is upcoming |
| EventCard.UpcomingEarlier | src/components/EventCard.tsx:31-36 | a card upcoming at a later instant was already upcoming at an earlier one |
| EventCard.ButtonStaysHidden | src/components/EventCard.tsx:31-36 | a hidden button stays hidden as time passes: the button of a past event never comes back |
| EventCard.LabelAnnouncesClick | src/components/EventCard.tsx:39-60 | a waitlist label never leads to a registration change; with every handler, the label names exactly the action a click takes |
| EventCard.CancelLabelWithoutHandlerRegisters | src/components/EventCard.tsx:42-59 | without an unregister handler, the "Cancelar Inscrição" label triggers a registration attempt |
| EventDetail.IsRegistered | src/pages/EventDetail.tsx:33-35 | true exactly when some event with the page's id lists the user |
| EventDetail.RegistrationStatus | src/pages/EventDetail.tsx:95-129 | a past event is "Evento Finalizado" and disabled; a registered user of an upcoming event gets an enabled "Cancelar Inscrição", even when full; unregistered and full gives a disabled "Evento Lotado"; otherwise an enabled default-variant "Inscrever-se" |
| EventDetail.RemainingSlots | src/pages/EventDetail.tsx:297-302 | shown exactly when the limit is truthy; it is the limit minus the attendance; it is at most 0 exactly when the event is full |
| EventDetail.DetailView | src/pages/EventDetail.tsx:29-53 | "not found" without an id or a user; "unknown" when no event has the id; otherwise the first event with the id, the registration flag, the status ladder and the remaining slots |
| EventDetail.SignUpButtonSucceeds | src/pages/EventDetail.tsx:114-128 | an enabled "Inscrever-se" means the registration passes every guard of `registerForEvent` |
| EventDetail.SoldOutButtonWouldFail | src/pages/EventDetail.tsx:114-121 | "Evento Lotado" means a registration would be refused |
| EventDetail.CancelButtonMeansAttendee | src/pages/EventDetail.tsx:105-111 | with unique ids, "Cancelar Inscrição" is shown only to an attendee of the event on the page |
| EventDetail.HandleRegister | src/pages/EventDetail.tsx:71-93 | a registered user is unregistered; otherwise the registration is attempted; the outcome is signed up exactly when the guards pass, and a refusal changes nothing |
| EventForm.OverlayFullPatch | src/pages/EventForm.tsx:46 | loading an event into the form captures every field: overlaying it yields the event |
| EventForm.KindOf | src/pages/EventForm.tsx:47 | the type is "sub" exactly for an event with a truthy `parentId` |
| EventForm.LoadedState | src/pages/EventForm.tsx:42-51 | in edit mode with a known id, the form data is the full patch of the event (overlaying it gives the event back), the limit input holds the event's limit or is empty, the type is "sub" exactly for a sub-event, and the parent is the event's; otherwise the empty form |
| EventForm.MaxValue | src/pages/EventForm.tsx:95 | no limit for a falsy input; otherwise the number conversion of the input |
| EventForm.Payload | src/pages/EventForm.tsx:91-97 | the organizer fields come from the user; the converted limit; a parent only for type "sub"; every other field as in the form |
| EventForm.Submit | src/pages/EventForm.tsx:54-111 | a missing organizer redirects; empty required fields are rejected; only create mode rejects a start not strictly in the future; edit mode with an id updates and routes by the parent, otherwise adds and goes to the dashboard |
| EventForm.SubWithoutParentIsMain | src/pages/EventForm.tsx:96 | choosing "sub" without a parent creates a main event |
| EventForm.EditKeepsHierarchy | src/pages/EventForm.tsx:42-100 | saving an untouched edit keeps a main event main and a sub-event under the same parent |
| EventForm.EditRewritesLoadedEvent | src/pages/EventForm.tsx:42-100 | saving an edit writes back every loaded field; attendees who registered meanwhile are dropped; the organizer becomes the editing user; the limit's meaning is kept |
| EventForm.EditRouteIsCalendarLink | src/pages/EventForm.tsx:104 | after an edit, the route is the link the calendar shows for the saved event |
| EventForm.EditSkipsDateCheck | src/pages/EventForm.tsx:75-83 | edit mode never rejects a date |
| CreateEvent.CreateDraft | src/pages/CreateEvent.tsx:70-75 | title, description, date and time as typed; organizer fields from the user; no parent; no limit for an empty input, otherwise `parseInt` of it |
| CreateEvent.Submit | src/pages/CreateEvent.tsx:33-82 | a missing organizer redirects; empty required fields are rejected; a start not strictly in the future is always rejected; otherwise the draft is added |
| CreateEvent.CreatedIsMain | src/pages/CreateEvent.tsx:70-75 | the created event is always a main event owned by the user, with no attendees |
| CreateEvent.AgreesWithEventForm | src/pages/CreateEvent.tsx:42-82 | for the same texts, and when the two number conversions agree on the limit text, it redirects, rejects and adds exactly as the event form in create mode, and adds the same record |
| MainEventDetail.MainEventDates | src/pages/MainEventDetail.tsx:44 | each schedule date exactly once, only schedule dates; none without a schedule |
| MainEventDetail.MainEventDatesOrder | src/pages/MainEventDetail.tsx:44 | first-occurrence order: the dates of the first sessions come first |
| MainEventDetail.TwoDatesTwoSessions | src/pages/MainEventDetail.tsx:170 | two distinct dates come from two sessions on different days |
| MainEventDetail.ShowsDateFilter | src/pages/MainEventDetail.tsx:170 | the date buttons show exactly when the main event has a schedule with two sessions on different dates |
| MainEventDetail.OneDateOneDay | src/pages/MainEventDetail.tsx:170 | at most one distinct date means no two sessions on different dates |
| MainEventDetail.FilteredSubEvents | src/pages/MainEventDetail.tsx:46-48 | "all" keeps every sub-event; a date keeps exactly the sub-events with a session that day |
| MainEventDetail.FilteredSubEventsAsWritten | src/pages/MainEventDetail.tsx:46-48 | "all" returns every sub-event; the date case as written |
| MainEventDetail.AsWrittenCrashesOnMissingSchedule | src/pages/MainEventDetail.tsx:48 | with a date selected, the page as written fails exactly when some sub-event has no schedule; otherwise it agrees with the corrected filter |
| MainEventDetail.AsWrittenCrashExample | src/pages/MainEventDetail.tsx:48 | a single sub-event without schedule and a selected date: the page as written fails; the corrected filter returns nothing |
| MainEventDetail.IsOrganizer | src/pages/MainEventDetail.tsx:50 | exactly when a user is logged in and their id is the main event's organizer id |
| MainEventDetail.CreatorIsOrganizer | src/pages/CreateEvent.tsx:70-75 | the user who creates an event on the creation page is its organizer on the main event page |
| MainEventDetail.SaverIsOrganizer | src/pages/EventForm.tsx:90-105 | whoever saves the event form, creating or editing, is the organizer of the saved event |
| MainEventDetail.EditTakesOver | src/pages/EventForm.tsx:90-100 | the form checks the role, not ownership: after another organizer edits an event, its previous organizer no longer is one |
| Dashboard.Lower | src/pages/Dashboard.tsx:23-27 | same length; each character folded to lower case |
| Dashboard.LowerIdempotent | src/pages/Dashboard.tsx:23-27 | lower-casing twice is lower-casing once |
| Dashboard.Includes | src/pages/Dashboard.tsx:24-26 | `includes`: exactly when the term occurs at some position |
| Dashboard.FilteredEvents | src/pages/Dashboard.tsx:20-27 | exactly the main events whose lower-cased title, description or organizer contains the lower-cased term |
| Dashboard.EmptySearchKeepsAll | src/pages/Dashboard.tsx:23-27 | an empty term keeps every main event, in order |
| Dashboard.SearchIgnoresTermCase | src/pages/Dashboard.tsx:23-27 | the result does not depend on the case of the term |
| Dashboard.SearchIgnoresFieldCase | src/pages/Dashboard.tsx:23-27 | nor on the case of the searched fields |
| Dashboard.IsUserRegistered | src/pages/Dashboard.tsx:57-59 | false without a user, else whether an event with the id lists the user (the main event page's `isUserRegistered` is the same) |
| Dashboard.HandleRegister | src/pages/Dashboard.tsx:29-45 | without a user nothing happens; otherwise it reports whether the registration guards passed and applies the registration only then |
| Dashboard.HandleUnregister | src/pages/Dashboard.tsx:47-55 | without a user nothing happens; otherwise the user is dropped from the event's attendees |
| CalendarPage.Push | src/pages/CalendarPage.tsx:21-23 | the old list is a prefix of the new; a list that already has the id is unchanged; otherwise the event is appended |
| CalendarPage.PushTwice | src/pages/CalendarPage.tsx:21-23 | pushing the same event again changes nothing |
| CalendarPage.FindById | src/pages/CalendarPage.tsx:21 | true exactly when the list holds an event with the id |
| CalendarPage.AddUnderInPlace | src/pages/CalendarPage.tsx:18-23 | creating the missing list and pushing unless the id is present equals filing the event under the key |
| CalendarPage.FileSessions | src/pages/CalendarPage.tsx:16-24 | the inner loop files the event under the key of each of its sessions |
| CalendarPage.AddSessionsSpec | src/pages/CalendarPage.tsx:16-24 | an event's sessions add exactly their keys, and the event once under each |
| CalendarPage.GroupByDate | src/pages/CalendarPage.tsx:14-27 | the loops build the dictionary; a key exists exactly when some event has a session that day; its list is the events with a session that day, in collection order, first of each id |
| CalendarPage.GroupedKeys | src/pages/CalendarPage.tsx:14-27 | a key exists exactly when some event with an array schedule has a session filed under it |
| CalendarPage.GroupedLists | src/pages/CalendarPage.tsx:14-27 | the list under a key is the de-duplicated, order-preserving filter of the events with a session that day |
| CalendarPage.GroupedSpec | src/pages/CalendarPage.tsx:14-27 | both of the above, key by key |
| CalendarPage.DayListProperties | src/pages/CalendarPage.tsx:14-27 | no id twice under a key; every event with a session that day is present by id; only such events appear |
| CalendarPage.DayListInCollectionOrder | src/pages/CalendarPage.tsx:14-27 | with unique ids, a day's list is exactly the events with a session that day, in collection order |
| CalendarPage.EventsForSelectedDate | src/pages/CalendarPage.tsx:33-34 | the list under the picked day, nothing for a day without a key, and the empty key when no day is picked |
| CalendarPage.SelectedDayList | src/pages/CalendarPage.tsx:14-34 | the picked day lists every event with a session that day, once each, in collection order |
| CalendarPage.LinkTo | src/pages/CalendarPage.tsx:71-72 | `/event/main/:id` for a falsy `parentId`, else `/event/:id` |

## Left out

- Persistence to `localStorage` and the `JSON.parse` rehydration, including
  `createdAt` revived as a `Date`. `Registry.EventRegistry.Load` only
  chooses between a saved collection and the demonstration one.
  `Auth.AuthSession.Restore` only adopts a saved user.
- Random ids (`Math.random`) are parameters. `addEvent` does not ensure they
  are fresh, so unique ids are proved only for a fresh id.
- Date parsing, `toISOString`, time zones and the clock. They are the
  parameters `clock`, `dayKey` and `now`. The `RangeError` that
  `toISOString` raises for an invalid session date is not modelled.
- EventCard.CardIsUpcoming: the card builds each session's start from the
  numeric parts of its date and start time. `clock` stands for that
  construction; the arithmetic of `new Date(y, m - 1, d, h, min)` is not
  modelled.
- EventForm.MaxValue: `Number` is a parameter `string -> Option<int>`. A
  result that is not an integer is not modelled.
- CreateEvent.CreateDraft: `parseInt` is a parameter in the same way.
- CreateEvent.AgreesWithEventForm: it assumes one number conversion for both
  pages. The creation page uses `parseInt` and the event form `Number`, and
  these differ on limit texts such as "1e3" (1 against 1000) and "12abc"
  (12 against `NaN`), so on such texts the two pages store different limits.
- Dashboard.Lower: it folds only the ASCII letters A–Z, where
  `toLowerCase` also folds letters of other scripts.
- Auth.Collapse and Auth.Trim treat only the space as whitespace. They run
  after `Auth.Sanitize`, which leaves no other whitespace, so the display
  name is the same.
- The simulated `setTimeout` delays, `async`/`await`, the loading flags and
  the `try`/`catch` around the store calls.
- React state batching. `registerForEvent` checks the render-time
  collection and writes through a functional update. The model applies the
  check and the update in one step, on one state.
- Rendering, toasts, `navigate` and routing tables. Navigation targets are
  kept only as route strings. The header, login and not-found pages, the
  protected route and the QR-code dialog are not part of this model.
- The waitlist. The events context has no `joinWaitlist`, `leaveWaitlist` or
  `isUserInWaitlist`, although the main event page calls them. The card's
  waitlist branches are modelled as the choice of callback only, and
  waitlist membership is an input.
- Schedule-conflict rules. The events context checks capacity and duplicate
  registration only. The model follows that code: no time-overlap check and
  no waitlist promotion.
- Events.UpcomingEvents follows the code. It keeps and sorts events by
  their own `date` and `time`, not by their schedule's sessions.
- Typing into the forms (`handleInputChange`) is not an operation of the
  model. A form is a state, and the lemmas range over all states.
- The deletion handler of the main event page is `deleteEvent` followed by
  navigation, and it is covered by `Registry.EventRegistry.DeleteEvent`.
- Events.Overlay: a `Patch` can put `undefined` into an optional field but
  not into a required field such as `title`. A `Partial<Event>` can do that
  too, but no caller does.
- `imageUrl` and the display-only fields of the pages are left out.

## Findings

| source | as written | input that shows it | evidently intended | confidence | as-written member | corrected member |
|---|---|---|---|---|---|---|
| src/pages/MainEventDetail.tsx:48 | with a date selected, `subEvent.schedule.some(...)` is called on every sub-event, although `schedule` may be absent | a main event with sessions on two dates, one of its sub-events without `schedule` (as the demonstration sub-events are), and one of the dates selected: `.some` on `undefined` raises a TypeError | a sub-event without a schedule has no session on the date and is filtered out | low: not executed; the date buttons show only when the main event's own schedule has two dates | MainEventDetail.AsWrittenCrashesOnMissingSchedule | MainEventDetail.FilteredSubEvents |
