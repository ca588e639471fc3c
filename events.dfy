/**
 * The events dialog's selectors: whether the signed-in student is
 * registered for an event, how many registrations an event has, when it is
 * full, which control its card shows, and the register handler's guard.
 */
module Events {
  import opened Lists
  import opened Students

  datatype Event = Event(
    id: string, title: string, description: Option<string>, eventDate: string,
    eventTime: Option<string>, location: Option<string>, link: Option<string>,
    maxParticipants: Option<int>, createdAt: string, updatedAt: string)

  datatype Registration = Registration(
    id: string, eventId: string, userId: string, userName: string, registeredAt: string)

  /** A registration of this roll number for this event. */
  predicate RegistrationOf(reg: Registration, eventId: string, rollNumber: string)
  {
    reg.eventId == eventId && reg.userId == rollNumber
  }

  /** `isUserRegistered`: false without a user, else some registration is theirs for the event. */
  function IsUserRegistered(regs: seq<Registration>, currentUser: Option<User>, eventId: string): (b: bool)
    ensures currentUser.None? ==> !b
    ensures b <==> currentUser.Some? &&
                   exists i :: 0 <= i < |regs| && RegistrationOf(regs[i], eventId, currentUser.value.rollNumber)
  {
    match currentUser
    case None => false
    case Some(u) => Any(regs, (r: Registration) => RegistrationOf(r, eventId, u.rollNumber))
  }

  /** `getRegistrationCount`: `eventRegistrations.filter(reg => reg.event_id === eventId).length`. */
  function RegistrationCount(regs: seq<Registration>, eventId: string): (n: nat)
    ensures n <= |regs|
    ensures (exists i :: 0 <= i < |regs| && regs[i].eventId == eventId) ==> n > 0
  {
    var mine := Filter(regs, (r: Registration) => r.eventId == eventId);
    assert forall i :: 0 <= i < |regs| && regs[i].eventId == eventId ==> regs[i] in mine;
    |mine|
  }

  /** A new registration counts towards its own event only. */
  lemma RegistrationCountAppend(regs: seq<Registration>, reg: Registration, eventId: string)
    ensures RegistrationCount(regs + [reg], eventId)
              == RegistrationCount(regs, eventId) + (if reg.eventId == eventId then 1 else 0)
  {
    var p := (r: Registration) => r.eventId == eventId;
    FilterConcat(regs, [reg], p);
    assert Filter([reg], p) == (if p(reg) then [reg] else []) + Filter([reg][1..], p);
  }

  /** A registered user's event has at least one registration. */
  lemma RegisteredImpliesCounted(regs: seq<Registration>, currentUser: Option<User>, eventId: string)
    requires IsUserRegistered(regs, currentUser, eventId)
    ensures RegistrationCount(regs, eventId) >= 1
  {
  }

  /**
   * `isFull = event.max_participants && registrationCount >= event.max_participants`:
   * a null or zero maximum is falsy and never makes the event full.
   */
  predicate IsFull(event: Event, count: nat)
    ensures event.maxParticipants.None? ==> !IsFull(event, count)
    ensures event.maxParticipants == Some(0) ==> !IsFull(event, count)
    ensures IsFull(event, count) <==>
              event.maxParticipants.Some? && event.maxParticipants.value != 0 &&
              count >= event.maxParticipants.value
  {
    match event.maxParticipants
    case None => false
    case Some(m) => m != 0 && count >= m
  }

  /** The control at the foot of an event card. */
  datatype Control =
    | RegisteredBadge
    | RegisterButton(disabled: bool)   // labelled "Event Full" when disabled, "Register" otherwise
    | SignInPrompt

  /**
   * Registered users see the badge; other signed-in users see the Register
   * button, disabled exactly when the event is full; visitors see the
   * sign-in prompt.
   */
  function ControlFor(event: Event, regs: seq<Registration>, currentUser: Option<User>): (c: Control)
    ensures c == RegisteredBadge <==> IsUserRegistered(regs, currentUser, event.id)
    ensures c.RegisterButton? <==> currentUser.Some? && !IsUserRegistered(regs, currentUser, event.id)
    ensures c.RegisterButton? ==> c.disabled == IsFull(event, RegistrationCount(regs, event.id))
    ensures c == SignInPrompt <==> currentUser.None?
  {
    if IsUserRegistered(regs, currentUser, event.id) then RegisteredBadge
    else if currentUser.Some? then RegisterButton(IsFull(event, RegistrationCount(regs, event.id)))
    else SignInPrompt
  }

  /** The arguments of `registerForEvent(eventId, rollNumber, name)`. */
  datatype RegisterCall = RegisterCall(eventId: string, userId: string, userName: string)

  /** `handleRegisterForEvent`: no call without a user; otherwise one call with the user's roll number and name. */
  function RegisterRequest(currentUser: Option<User>, eventId: string): (r: Option<RegisterCall>)
    ensures r.None? <==> currentUser.None?
    ensures r.Some? ==> r.value == RegisterCall(eventId, currentUser.value.rollNumber, currentUser.value.name)
  {
    match currentUser
    case None => None
    case Some(u) => Some(RegisterCall(eventId, u.rollNumber, u.name))
  }

  /** A registration made from such a request makes the user registered for that event. */
  lemma RegisteringRegisters(regs: seq<Registration>, currentUser: Option<User>, eventId: string,
                             regId: string, at: string)
    requires RegisterRequest(currentUser, eventId).Some?
    ensures var call := RegisterRequest(currentUser, eventId).value;
            IsUserRegistered(regs + [Registration(regId, call.eventId, call.userId, call.userName, at)],
                             currentUser, eventId)
  {
    var call := RegisterRequest(currentUser, eventId).value;
    var all := regs + [Registration(regId, call.eventId, call.userId, call.userName, at)];
    assert RegistrationOf(all[|regs|], eventId, currentUser.value.rollNumber);
  }
}
