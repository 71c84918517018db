/** The decision rules of the event card: whether the event is still ahead,
    which callback a click on its button triggers, the button's label, and
    whether the button shows at all. Fullness is `Events.IsFull`. */
module EventCard {
  import opened Collections
  import opened Events

  /** The session starts strictly after `now`. The card builds the start as a
      local date from the numeric parts of `date` and `startTime`; `clock`
      stands for that construction, and a part that is not a number gives an
      invalid date (`None`), which is never after anything. */
  predicate SessionStartsAfter(s: Session, now: int, clock: Clock) {
    match clock(s.date, s.startTime)
    case Some(t) => t > now
    case None => false
  }

  /** `schedule.some(s => start(s) > now)` */
  function AnySessionAfter(ss: seq<Session>, now: int, clock: Clock): (b: bool)
    ensures b <==> exists i :: 0 <= i < |ss| && SessionStartsAfter(ss[i], now, clock)
    decreases |ss|
  {
    if ss == [] then false
    else SessionStartsAfter(ss[0], now, clock) || AnySessionAfter(ss[1..], now, clock)
  }

  /** `isUpcoming`: the schedule is an array and one of its sessions starts
      after now. */
  function CardIsUpcoming(e: Event, now: int, clock: Clock): (b: bool)
    ensures b <==> e.schedule.Some? && exists i :: 0 <= i < |e.schedule.value| && SessionStartsAfter(e.schedule.value[i], now, clock)
    ensures e.schedule.None? ==> !b
  {
    match e.schedule
    case None => false
    case Some(ss) => AnySessionAfter(ss, now, clock)
  }

  /** Which of the optional callbacks the card was given. */
  datatype Handlers = Handlers(onRegister: bool, onUnregister: bool, onJoinWaitlist: bool, onLeaveWaitlist: bool)

  /** The callback one click invokes. */
  datatype Action = Unregister | LeaveWaitlist | JoinWaitlist | Register | NoAction

  /** `handleRegisterClick` */
  function ClickAction(isRegistered: bool, isFull: bool, isInWaitlist: bool, h: Handlers): (a: Action)
    // A registered user with an unregister handler always unregisters, full or not.
    ensures isRegistered && h.onUnregister ==> a == Unregister
    ensures a == Unregister ==> isRegistered && h.onUnregister
    // A full event the user is not registered for only ever touches the waitlist.
    ensures !isRegistered && isFull ==> a in {LeaveWaitlist, JoinWaitlist, NoAction}
    ensures a == LeaveWaitlist <==> !isRegistered && isFull && isInWaitlist && h.onLeaveWaitlist
    ensures a == JoinWaitlist <==> !isRegistered && isFull && !isInWaitlist && h.onJoinWaitlist
    // Every other case registers when it can, even "registered but no unregister handler".
    ensures a == Register <==> h.onRegister && !(isRegistered && h.onUnregister) && !(isFull && !isRegistered)
  {
    if isRegistered && h.onUnregister then Unregister
    else if isFull && !isRegistered then
      if isInWaitlist && h.onLeaveWaitlist then LeaveWaitlist
      else if !isInWaitlist && h.onJoinWaitlist then JoinWaitlist
      else NoAction
    else if h.onRegister then Register
    else NoAction
  }

  datatype Label = LeaveWaitlistLabel | JoinWaitlistLabel | CancelLabel | RegisterLabel

  function LabelText(l: Label): string {
    match l
    case LeaveWaitlistLabel => "Sair da Fila de Espera"
    case JoinWaitlistLabel => "Entrar na Fila de Espera"
    case CancelLabel => "Cancelar Inscrição"
    case RegisterLabel => "Inscrever-se"
  }

  /** `getButtonContent` */
  function ButtonLabel(isRegistered: bool, isFull: bool, isInWaitlist: bool): (l: Label)
    ensures (l == LeaveWaitlistLabel || l == JoinWaitlistLabel) <==> isFull && !isRegistered
    ensures l == LeaveWaitlistLabel ==> isInWaitlist
    ensures l == JoinWaitlistLabel ==> !isInWaitlist
    ensures l == CancelLabel <==> isRegistered
  {
    if isFull && !isRegistered then
      if isInWaitlist then LeaveWaitlistLabel else JoinWaitlistLabel
    else if isRegistered then CancelLabel else RegisterLabel
  }

  /** The footer with the button renders only for an upcoming event on a
      card asked to show it. */
  function ShowsButton(showRegisterButton: bool, isUpcoming: bool): (b: bool)
    ensures b <==> showRegisterButton && isUpcoming
    ensures !isUpcoming ==> !b
  {
    showRegisterButton && isUpcoming
  }

  /** `isUpcoming` can only turn false as time passes: a card that is
      upcoming later was already upcoming earlier. */
  lemma UpcomingEarlier(e: Event, now: int, later: int, clock: Clock)
    requires now <= later
    ensures CardIsUpcoming(e, later, clock) ==> CardIsUpcoming(e, now, clock)
  {
    if CardIsUpcoming(e, later, clock) {
      var i :| 0 <= i < |e.schedule.value| && SessionStartsAfter(e.schedule.value[i], later, clock);
      assert SessionStartsAfter(e.schedule.value[i], now, clock);
    }
  }

  /** Once a card's button is hidden it stays hidden: the button of an event
      whose sessions have all started never comes back. */
  lemma ButtonStaysHidden(show: bool, e: Event, now: int, later: int, clock: Clock)
    requires now <= later
    requires !ShowsButton(show, CardIsUpcoming(e, now, clock))
    ensures !ShowsButton(show, CardIsUpcoming(e, later, clock))
  {
    UpcomingEarlier(e, now, later, clock);
  }

  /** The label announces what a click does when the card has every
      handler; the two waitlist labels never lead to a registration change. */
  lemma LabelAnnouncesClick(isRegistered: bool, isFull: bool, isInWaitlist: bool, h: Handlers)
    ensures var l := ButtonLabel(isRegistered, isFull, isInWaitlist);
            var a := ClickAction(isRegistered, isFull, isInWaitlist, h);
            && (l in {LeaveWaitlistLabel, JoinWaitlistLabel} ==> a !in {Register, Unregister})
            && (h == Handlers(true, true, true, true) ==>
                  (l == LeaveWaitlistLabel <==> a == LeaveWaitlist) &&
                  (l == JoinWaitlistLabel <==> a == JoinWaitlist) &&
                  (l == CancelLabel <==> a == Unregister) &&
                  (l == RegisterLabel <==> a == Register))
  {
  }

  /** Without an unregister handler, the "Cancelar Inscrição" label of a
      registered user triggers a registration attempt instead. */
  lemma CancelLabelWithoutHandlerRegisters(isFull: bool, isInWaitlist: bool, h: Handlers)
    requires h.onRegister && !h.onUnregister
    ensures ButtonLabel(true, isFull, isInWaitlist) == CancelLabel
    ensures ClickAction(true, isFull, isInWaitlist, h) == Register
  {
  }
}
