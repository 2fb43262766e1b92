/**
 * Which chat state notifications (XEP-0085) and message events a chat window sends, and what the
 * contact gets to see over a whole run.
 */
module ChatStates {

  datatype ChatState = StateNone | Active | Inactive | Composing | Paused | Gone

  /** Message events (XEP-0022); what else there is besides these two does not matter here. */
  datatype MessageEvent = ComposingEvent | CancelEvent | OtherEvent

  datatype Message = Message(chatState: ChatState, events: set<MessageEvent>, eventId: string)

  /** The options in force at a step, and who is reachable. */
  datatype Environment = Environment(sendEvents: bool, sendInactivity: bool, dontSend: bool,
                                     contactAvailable: bool, accountAvailable: bool, loggedIn: bool)

  datatype Dialog = Dialog(last: ChatState, sendComposing: bool, contact: ChatState, eventId: string)

  /** What happens on the wire; the contact going out of reach starts the conversation over. */
  datatype Event = Sent(message: Message) | Lost

  // ---- One step ----------------------------------------------------------------------------------

  predicate Watched(d: Dialog, env: Environment) {
    env.sendEvents && (d.sendComposing || d.contact != StateNone)
  }

  /** The state shown to the contact: leaving or idling may be nobody's business. */
  function Shown(state: ChatState, env: Environment): ChatState {
    if !env.sendInactivity && (state == Gone || state == Inactive) then Paused else state
  }

  /** Steps that make no sense to the contact. */
  predicate Refused(last: ChatState, state: ChatState) {
    || (last == StateNone && state != Active && state != Composing && state != Gone)
    || (last == Gone && state == Inactive)
  }

  predicate Silent(last: ChatState, state: ChatState) {
    state == last || (last == Active && state == Paused)
  }

  /** Gone is left only by becoming active. */
  function Next(last: ChatState, state: ChatState): ChatState {
    if Refused(last, state) then last
    else if Silent(last, state) then state
    else if last == Gone && state != Active then Gone
    else state
  }

  /** Between composing and inactive the contact is told of a pause. */
  predicate ViaPause(last: ChatState, state: ChatState) {
    (state == Inactive && last == Composing) || (state == Composing && last == Inactive)
  }

  function EventsFor(d: Dialog, state: ChatState): set<MessageEvent> {
    if !d.sendComposing then {}
    else if state == Composing then {ComposingEvent}
    else if d.last == Composing then {CancelEvent}
    else {}
  }

  function Outgoing(d: Dialog, state: ChatState, env: Environment): seq<Event> {
    if Refused(d.last, state) || Silent(d.last, state) || env.dontSend || !env.accountAvailable then []
    else
      var id := if d.sendComposing then d.eventId else "";
      var events := EventsFor(d, state);
      if d.contact == StateNone then
        if events == {} then [] else [Sent(Message(StateNone, events, id))]
      else
        (if ViaPause(d.last, state) then [Sent(Message(Paused, events, id))] else [])
        + if state == StateNone && events == {} then [] else [Sent(Message(state, events, id))]
  }

  function Step(d: Dialog, state: ChatState, env: Environment): Dialog {
    if !Watched(d, env) then d
    else if !env.contactAvailable then d.(sendComposing := false, last := StateNone)
    else d.(last := Next(d.last, Shown(state, env)))
  }

  function Emitted(d: Dialog, state: ChatState, env: Environment): seq<Event> {
    if !Watched(d, env) then []
    else if !env.contactAvailable then [Lost]
    else Outgoing(d, Shown(state, env), env)
  }

  class ChatDialog {
    var lastChatState: ChatState
    var sendComposingEvents: bool
    var contactChatState: ChatState
    var eventId: string
    ghost var trace: seq<Event>

    function Current(): Dialog
      reads this
    {
      Dialog(lastChatState, sendComposingEvents, contactChatState, eventId)
    }

    constructor (contact: ChatState)
      ensures Current() == Dialog(StateNone, false, contact, "") && trace == []
    {
      lastChatState, sendComposingEvents, contactChatState, eventId := StateNone, false, contact, "";
      trace := [];
    }

    method SetChatState(requested: ChatState, env: Environment)
      modifies this
      ensures Current() == After(old(Current()), Own(requested, env))
      ensures trace == old(trace) + Wire(old(Current()), Own(requested, env))
    {
      hide Outgoing;
      Quiet(Current(), Shown(requested, env), env);
      if env.sendEvents && (sendComposingEvents || contactChatState != StateNone) {
        if !env.contactAvailable {
          sendComposingEvents := false;
          lastChatState := StateNone;
          trace := trace + [Lost];
          return;
        }
        var state := requested;
        if !env.sendInactivity && (state == Gone || state == Inactive) {
          state := Paused;
        }
        if lastChatState == StateNone && state != Active && state != Composing && state != Gone {
          return;
        }
        if lastChatState == Gone && state == Inactive {
          return;
        }
        if state == lastChatState || (lastChatState == Active && state == Paused) {
          lastChatState := state;
          return;
        }
        if !env.dontSend {
          Notify(state, env);
        }
        if lastChatState != Gone || state == Active {
          lastChatState := state;
        }
      }
    }

    lemma Quiet(d: Dialog, state: ChatState, env: Environment)
      ensures Refused(d.last, state) || Silent(d.last, state) || env.dontSend ==> Outgoing(d, state, env) == []
    {
    }

    method Notify(state: ChatState, env: Environment)
      requires !Refused(lastChatState, state) && !Silent(lastChatState, state) && !env.dontSend
      modifies this`trace
      ensures trace == old(trace) + Outgoing(Current(), state, env)
    {
      var m := Message(StateNone, {}, "");
      if sendComposingEvents {
        m := m.(eventId := eventId);
        if state == Composing {
          m := m.(events := m.events + {ComposingEvent});
        } else if lastChatState == Composing {
          m := m.(events := m.events + {CancelEvent});
        }
      }
      assert m.events == EventsFor(Current(), state);
      if contactChatState != StateNone {
        if (state == Inactive && lastChatState == Composing) || (state == Composing && lastChatState == Inactive) {
          m := m.(chatState := Paused);
          if env.accountAvailable {
            trace := trace + [Sent(m)];
          }
        }
        m := m.(chatState := state);
      }
      if m.events != {} || m.chatState != StateNone {
        if env.accountAvailable {
          trace := trace + [Sent(m)];
        }
      }
    }

    /** A message without text: the contact's own notification. */
    method IncomingEvent(events: set<MessageEvent>, chatState: ChatState)
      modifies this`contactChatState
      ensures Current() == After(old(Current()), Notice(events, chatState))
      ensures chatState != StateNone ==> contactChatState == chatState
      ensures chatState == StateNone && CancelEvent in events ==> contactChatState == Paused
      ensures chatState == StateNone && CancelEvent !in events && ComposingEvent in events ==>
                contactChatState == Composing
      ensures chatState == StateNone && CancelEvent !in events && ComposingEvent !in events ==>
                contactChatState == old(contactChatState)
    {
      if CancelEvent in events {
        contactChatState := Paused;
      } else if ComposingEvent in events {
        contactChatState := Composing;
      }
      if chatState != StateNone {
        contactChatState := chatState;
      }
    }

    /** A message with text, which says whether the contact wants to be notified. */
    method IncomingMessage(events: set<MessageEvent>, chatState: ChatState, id: string)
      modifies this`contactChatState, this`sendComposingEvents, this`eventId
      ensures Current() == After(old(Current()), Text(events, chatState, id))
      ensures sendComposingEvents <==> ComposingEvent in events
      ensures eventId == if id == "" then old(eventId) else id
      ensures contactChatState == if events == {} && chatState == StateNone then StateNone else Active
    {
      sendComposingEvents := ComposingEvent in events;
      if id != "" {
        eventId := id;
      }
      if events != {} || chatState != StateNone {
        contactChatState := Active;
      } else {
        contactChatState := StateNone;
      }
    }

    /** The contact is offline: its state is not known, and whatever it was told is over. */
    method ContactOffline()
      modifies this`contactChatState, this`trace
      ensures Current() == After(old(Current()), Offline)
      ensures trace == old(trace) + Wire(old(Current()), Offline)
    {
      contactChatState := StateNone;
      trace := trace + [Lost];
    }

    /** What the user has written is sent, after the notification that the user is active. */
    method DoSend(env: Environment)
      modifies this
      ensures Current() == After(old(Current()), Content(env))
      ensures trace == old(trace) + Wire(old(Current()), Content(env))
      ensures !env.loggedIn ==> trace == old(trace)
      ensures env.loggedIn ==>
                && |trace| > |old(trace)| && trace[..|old(trace)|] == old(trace) && trace[|trace| - 1].Sent?
                && var m := trace[|trace| - 1].message;
                   && m.chatState == (if env.sendEvents then Active else StateNone) && m.eventId == ""
                   && (ComposingEvent in m.events <==> env.sendEvents && old(sendComposingEvents))
    {
      if !env.loggedIn {
        return;
      }
      var m := Message(StateNone, {}, "");
      if env.sendEvents {
        if sendComposingEvents {
          m := m.(events := m.events + {ComposingEvent});
        }
        m := m.(chatState := Active);
      }
      assert m == ContentMessage(Current(), env);
      SetChatState(Active, env);
      trace := trace + [Sent(m)];
    }
  }

  function Heard(d: Dialog, events: set<MessageEvent>, chatState: ChatState): Dialog {
    d.(contact :=
      if chatState != StateNone then chatState
      else if CancelEvent in events then Paused
      else if ComposingEvent in events then Composing
      else d.contact)
  }

  function Received(d: Dialog, events: set<MessageEvent>, chatState: ChatState, id: string): Dialog {
    Dialog(d.last, ComposingEvent in events,
           if events != {} || chatState != StateNone then Active else StateNone,
           if id != "" then id else d.eventId)
  }

  // ---- Whole runs ---------------------------------------------------------------------------------

  datatype Input =
    | Own(state: ChatState, env: Environment)
    | Notice(events: set<MessageEvent>, chatState: ChatState)
    | Text(events: set<MessageEvent>, chatState: ChatState, id: string)
    | Offline
    | Content(env: Environment)

  function After(d: Dialog, i: Input): Dialog {
    match i
    case Own(state, env) => Step(d, state, env)
    case Notice(events, chatState) => Heard(d, events, chatState)
    case Text(events, chatState, id) => Received(d, events, chatState, id)
    case Offline => d.(contact := StateNone)
    case Content(env) => if env.loggedIn then Step(d, Active, env) else d
  }

  function ContentMessage(d: Dialog, env: Environment): Message {
    Message(if env.sendEvents then Active else StateNone,
            if env.sendEvents && d.sendComposing then {ComposingEvent} else {}, "")
  }

  /** Everything that happens on the wire at an input. */
  function Wire(d: Dialog, i: Input): seq<Event> {
    match i
    case Own(state, env) => Emitted(d, state, env)
    case Notice(_, _) => []
    case Text(_, _, _) => []
    case Offline => [Lost]
    case Content(env) => if env.loggedIn then Emitted(d, Active, env) + [Sent(ContentMessage(d, env))] else []
  }

  /** What of a step's messages tells a chat state; a message may carry message events only. */
  function Told(out: seq<Event>): seq<Event> {
    if out == [] then []
    else (if out[0].Sent? && out[0].message.chatState == StateNone then [] else [out[0]]) + Told(out[1..])
  }

  function Output(d: Dialog, i: Input): seq<Event> {
    Told(Wire(d, i))
  }

  function Run(d: Dialog, inputs: seq<Input>): (Dialog, seq<Event>) {
    if inputs == [] then (d, [])
    else
      var (before, trace) := Run(d, inputs[..|inputs| - 1]);
      var i := inputs[|inputs| - 1];
      (After(before, i), trace + Output(before, i))
  }

  const START := Dialog(StateNone, false, StateNone, "")

  /**
   * At this step the machine goes on without the contact being told: sending is suppressed, the
   * account is offline, or the contact only takes message events.
   */
  predicate Unsaid(d: Dialog, i: Input) {
    && i.Own? && Watched(d, i.env) && i.env.contactAvailable
    && (i.env.dontSend || !i.env.accountAvailable || d.contact == StateNone)
  }

  /**
   * The machine keeps up with the conversation: no state is standing when the contact goes offline,
   * and nobody taken to be gone sends a message to a contact whose state is not known.
   */
  predicate KeepsUp(d: Dialog, i: Input) {
    match i
    case Offline => d.last == StateNone
    case Content(env) => env.loggedIn && env.sendEvents && !Watched(d, env) ==> d.last != Gone
    case _ => true
  }

  predicate Said(d: Dialog, i: Input) {
    (i.Own? ==> i.state != StateNone && !Unsaid(d, i)) && KeepsUp(d, i)
  }

  predicate Says(trace: seq<Event>, k: int, s: ChatState) {
    0 <= k < |trace| && trace[k].Sent? && trace[k].message.chatState == s
  }

  predicate Begins(trace: seq<Event>, k: int) {
    0 <= k < |trace| && (k == 0 || trace[k - 1].Lost?)
  }

  /** From `i` up to `j` the contact is told of a return, or is lost. */
  predicate Returns(trace: seq<Event>, i: int, j: int) {
    exists m :: i < m < j && 0 <= m < |trace| && (trace[m].Lost? || Says(trace, m, Active))
  }

  /** A conversation never begins with a pause or idling. */
  ghost predicate BeginsWell(trace: seq<Event>) {
    forall k :: Begins(trace, k) ==> !Says(trace, k, Paused) && !Says(trace, k, Inactive)
  }

  /** Composing and inactive are never told one after the other. */
  ghost predicate Pauses(trace: seq<Event>) {
    forall k :: && !(Says(trace, k, Composing) && Says(trace, k + 1, Inactive))
                && !(Says(trace, k, Inactive) && Says(trace, k + 1, Composing))
  }

  /** Whoever has gone does not idle before coming back. */
  ghost predicate StaysGone(trace: seq<Event>) {
    forall i, j :: Says(trace, i, Gone) && Says(trace, j, Inactive) && i < j ==> Returns(trace, i, j)
  }

  /** A state is told twice in a row only after an unsaid pause, or by someone already gone. */
  ghost predicate RepeatsLittle(trace: seq<Event>) {
    forall k, s :: Says(trace, k, s) && Says(trace, k + 1, s) ==>
      s == Active || ((s == Composing || s == Paused) && GoneOpen(trace[..k]))
  }

  ghost predicate Proper(trace: seq<Event>) {
    && BeginsWell(trace) && Pauses(trace) && StaysGone(trace) && RepeatsLittle(trace)
    && forall k :: 0 <= k < |trace| && trace[k].Sent? ==> trace[k].message.chatState != StateNone
  }

  /** The state the contact knows of last. */
  function Latest(trace: seq<Event>): ChatState {
    if trace == [] || trace[|trace| - 1].Lost? then StateNone else trace[|trace| - 1].message.chatState
  }

  /** Whether the contact was told of leaving, and not of coming back since. */
  predicate GoneOpen(trace: seq<Event>) {
    if trace == [] then false
    else
      var e := trace[|trace| - 1];
      e.Sent? && e.message.chatState != Active && (e.message.chatState == Gone || GoneOpen(trace[..|trace| - 1]))
  }

  lemma {:induction false} GoneClosed(trace: seq<Event>, i: int)
    requires Says(trace, i, Gone) && !GoneOpen(trace)
    ensures Returns(trace, i, |trace|)
  {
    var n := |trace| - 1;
    if trace[n].Lost? || Says(trace, n, Active) {
      assert i < n;
    } else {
      GoneClosed(trace[..n], i);
      var m :| i < m < n && (trace[..n][m].Lost? || Says(trace[..n], m, Active));
      assert trace[..n][m] == trace[m];
    }
  }

  lemma {:induction false} GoneShown(trace: seq<Event>) returns (i: int)
    requires GoneOpen(trace)
    ensures Says(trace, i, Gone) && !Returns(trace, i, |trace|)
  {
    var n := |trace| - 1;
    if Says(trace, n, Gone) {
      i := n;
    } else {
      i := GoneShown(trace[..n]);
      assert Says(trace, i, Gone) by { assert trace[..n][i] == trace[i]; }
      forall m | i < m < |trace|
        ensures !(trace[m].Lost? || Says(trace, m, Active))
      {
        if m < n {
          assert trace[..n][m] == trace[m];
          assert !(trace[..n][m].Lost? || Says(trace[..n], m, Active));
        }
      }
    }
  }

  /** What may follow a proper trace. */
  predicate Admissible(trace: seq<Event>, e: Event) {
    e.Sent? ==>
      var s := e.message.chatState;
      && s != StateNone
      && (Latest(trace) == StateNone ==> s != Paused && s != Inactive)
      && !(Latest(trace) == Composing && s == Inactive) && !(Latest(trace) == Inactive && s == Composing)
      && (s == Inactive ==> !GoneOpen(trace))
      && (s == Latest(trace) ==> s == Active || ((s == Composing || s == Paused) && GoneOpen(trace[..|trace| - 1])))
  }

  lemma SaysBefore(trace: seq<Event>, e: Event)
    ensures forall k, s :: 0 <= k < |trace| ==> (Says(trace + [e], k, s) <==> Says(trace, k, s))
    ensures forall k :: 0 <= k < |trace| ==> (Begins(trace + [e], k) <==> Begins(trace, k))
    ensures forall i, j :: j <= |trace| ==> (Returns(trace + [e], i, j) <==> Returns(trace, i, j))
    ensures forall k :: 0 <= k <= |trace| ==> (trace + [e])[..k] == trace[..k]
  {
    var after := trace + [e];
    forall i, j | j <= |trace|
      ensures Returns(after, i, j) <==> Returns(trace, i, j)
    {
      assert forall m :: i < m < j && 0 <= m ==> after[m] == trace[m];
      assert forall m :: i < m < j && 0 <= m ==> (Says(after, m, Active) <==> Says(trace, m, Active));
    }
  }

  lemma Extends(trace: seq<Event>, e: Event)
    requires Proper(trace) && Admissible(trace, e)
    ensures Proper(trace + [e])
  {
    var after := trace + [e];
    SaysBefore(trace, e);
    forall i, j | Says(after, i, Gone) && Says(after, j, Inactive) && i < j
      ensures Returns(after, i, j)
    {
      if j == |trace| {
        GoneClosed(trace, i);
      }
    }
    forall k, s | Says(after, k, s) && Says(after, k + 1, s)
      ensures s == Active || ((s == Composing || s == Paused) && GoneOpen(after[..k]))
    {
      if k + 1 == |trace| {
        assert Latest(trace) == s;
      }
    }
  }

  /** Nothing else may. */
  lemma Spoils(trace: seq<Event>, e: Event)
    requires !Admissible(trace, e)
    ensures !Proper(trace + [e])
  {
    var after, n, s := trace + [e], |trace|, e.message.chatState;
    SaysBefore(trace, e);
    assert after[n] == e && Says(after, n, s);
    assert trace != [] ==> after[n - 1] == trace[n - 1];
    if s == Inactive && GoneOpen(trace) {
      var i := GoneShown(trace);
      assert Says(after, i, Gone) && !Returns(after, i, n);
    } else if s != StateNone && Latest(trace) == StateNone && (s == Paused || s == Inactive) {
      assert Begins(after, n) || Says(after, n - 1, StateNone);
    } else if trace != [] && trace[n - 1].Sent? {
      assert Says(after, n - 1, Latest(trace)) && after[..n - 1] == trace[..n - 1];
    }
  }

  lemma {:induction false} PrefixProper(a: seq<Event>, b: seq<Event>)
    requires Proper(a + b)
    ensures Proper(a)
  {
    if b == [] {
      assert a + b == a;
    } else {
      var init, e := a + b[..|b| - 1], b[|b| - 1];
      assert a + b == init + [e];
      ShorterProper(init, e);
      PrefixProper(a, b[..|b| - 1]);
    }
  }

  lemma ShorterProper(trace: seq<Event>, e: Event)
    requires Proper(trace + [e])
    ensures Proper(trace)
  {
    var after := trace + [e];
    SaysBefore(trace, e);
    assert forall k :: 0 <= k < |trace| ==> after[k] == trace[k];
    assert forall k, s :: Says(trace, k, s) ==> Says(after, k, s);
    forall k, s | Says(trace, k, s) && Says(trace, k + 1, s)
      ensures s == Active || ((s == Composing || s == Paused) && GoneOpen(trace[..k]))
    {
      assert after[..k] == trace[..k];
    }
  }

  /**
   * How the last state has to relate to what the contact knows. The two need not agree: a state that
   * went unsaid does no harm as long as the next one makes sense without it.
   */
  predicate Safe(last: ChatState, trace: seq<Event>) {
    var s, open := Latest(trace), GoneOpen(trace);
    match last
    case StateNone => !open && s != Inactive && s != Composing
    case Active => !open && (s == Active || s == Paused)
    case Paused => !open && (s == Active || s == Paused)
    case Composing => !open && (s == Active || s == Composing || s == Inactive)
    case Inactive => !open && (s == Active || s == Composing || s == Inactive)
    case Gone => open && s != Inactive
  }

  /** The machine keeps up, and the contact is told or being left in the dark does no harm. */
  predicate Fair(d: Dialog, trace: seq<Event>, i: Input) {
    (i.Own? ==> i.state != StateNone && (Unsaid(d, i) ==> Safe(After(d, i).last, trace))) && KeepsUp(d, i)
  }

  ghost predicate FairRun(d: Dialog, trace: seq<Event>, inputs: seq<Input>) {
    forall k :: 0 <= k < |inputs| ==>
      Fair(Run(d, inputs[..k]).0, trace + Run(d, inputs[..k]).1, inputs[k])
  }

  ghost predicate SaidRun(d: Dialog, inputs: seq<Input>) {
    forall k :: 0 <= k < |inputs| ==> Said(Run(d, inputs[..k]).0, inputs[k])
  }

  lemma Appended(trace: seq<Event>, e: Event)
    ensures Latest(trace + [e]) == if e.Lost? then StateNone else e.message.chatState
    ensures (trace + [e])[..|trace|] == trace
    ensures GoneOpen(trace + [e]) <==>
              e.Sent? && e.message.chatState != Active && (e.message.chatState == Gone || GoneOpen(trace))
  {
    assert (trace + [e])[..|trace|] == trace;
  }

  lemma ToldOutgoing(d: Dialog, i: Input)
    requires i.Own? && i.state != StateNone
    ensures Output(d, i) == if Unsaid(d, i) then [] else Emitted(d, i.state, i.env)
  {
    hide Told;
    var out := Emitted(d, i.state, i.env);
    ToldShort(out);
  }

  lemma ToldShort(out: seq<Event>)
    requires |out| <= 2
    ensures (forall e :: e in out && e.Sent? ==> e.message.chatState != StateNone) ==> Told(out) == out
    ensures (forall e :: e in out ==> e.Sent? && e.message.chatState == StateNone) ==> Told(out) == []
  {
    if out != [] {
      assert out[0] in out && out == [out[0]] + out[1..];
      if |out| == 2 {
        assert out[1] in out && out[1..] == [out[1]] && out[1..][1..] == [];
      }
    }
  }

  lemma {:induction false} ToldFrom(out: seq<Event>)
    ensures forall e :: e in Told(out) ==> e in out
  {
    if out != [] {
      ToldFrom(out[1..]);
    }
  }

  lemma {:induction false} ToldConcat(a: seq<Event>, b: seq<Event>)
    ensures Told(a + b) == Told(a) + Told(b)
  {
    hide Told;
    if a == [] {
      assert a + b == b;
      ToldShort(a);
    } else {
      ToldConcat(a[1..], b);
      ToldFirst(a[0], a[1..]);
      ToldFirst(a[0], a[1..] + b);
      assert a == [a[0]] + a[1..] && a + b == [a[0]] + (a[1..] + b);
    }
  }

  lemma ToldFirst(e: Event, rest: seq<Event>)
    ensures Told([e] + rest) == (if e.Sent? && e.message.chatState == StateNone then [] else [e]) + Told(rest)
  {
    assert ([e] + rest)[1..] == rest;
  }

  /** With a message the contact is lost or told of being active, if anything. */
  lemma ToldContent(d: Dialog, env: Environment)
    ensures var out := Output(d, Content(env));
            && |out| <= 2 && (forall e :: e in out ==> e.Lost? || e.message.chatState == Active)
            && (out == [] <==> !env.loggedIn || !env.sendEvents)
            && (out != [] ==> out[|out| - 1].Sent?)
  {
    hide Told;
    ToldShort([]);
    if env.loggedIn {
      var out, m := Emitted(d, Active, env), [Sent(ContentMessage(d, env))];
      ToldConcat(out, m);
      ToldShort(out);
      ToldShort(m);
    }
  }

  lemma ToldOthers(d: Dialog, i: Input)
    requires !i.Own? && !i.Content?
    ensures Output(d, i) == if i.Offline? then [Lost] else []
  {
    ToldShort(Wire(d, i));
  }

  lemma StepProper(d: Dialog, i: Input, trace: seq<Event>)
    requires Fair(d, trace, i) && Proper(trace) && Safe(d.last, trace)
    ensures Proper(trace + Output(d, i)) && Safe(After(d, i).last, trace + Output(d, i))
  {
    hide Output;
    if i.Own? {
      ToldOutgoing(d, i);
    } else if i.Content? {
      ToldContent(d, i.env);
    } else {
      ToldOthers(d, i);
    }
    var out := Output(d, i);
    if out == [] {
      assert trace + out == trace;
    } else {
      Appended(trace, out[0]);
      Extends(trace, out[0]);
      if |out| == 1 {
        assert out == [out[0]];
      } else {
        var next := trace + [out[0]];
        Appended(next, out[1]);
        Extends(next, out[1]);
        assert next + [out[1]] == trace + out;
      }
    }
  }

  lemma {:induction false} RunFrom(d: Dialog, trace: seq<Event>, inputs: seq<Input>)
    requires FairRun(d, trace, inputs) && Proper(trace) && Safe(d.last, trace)
    ensures var (after, told) := Run(d, inputs); Proper(trace + told) && Safe(after.last, trace + told)
  {
    hide Fair, Proper, Safe, After, Output;
    if inputs == [] {
      assert trace + [] == trace;
    } else {
      var init := inputs[..|inputs| - 1];
      assert forall k :: 0 <= k < |init| ==> init[..k] == inputs[..k];
      RunFrom(d, trace, init);
      var (before, told) := Run(d, init);
      var i := inputs[|inputs| - 1];
      StepProper(before, i, trace + told);
      assert trace + told + Output(before, i) == trace + (told + Output(before, i));
    }
  }

  /** Over any fair run the contact gets a proper trace. */
  lemma RunProper(inputs: seq<Input>)
    requires FairRun(START, [], inputs)
    ensures Proper(Run(START, inputs).1)
  {
    RunFrom(START, [], inputs);
    assert [] + Run(START, inputs).1 == Run(START, inputs).1;
  }

  /** With inactivity events off nobody is told of leaving or idling, fair or not. */
  lemma {:induction false} RunPrivate(inputs: seq<Input>)
    requires forall i :: i in inputs && i.Own? ==> !i.env.sendInactivity
    ensures var (d, trace) := Run(START, inputs);
            && d.last != Gone && d.last != Inactive
            && forall k :: !Says(trace, k, Gone) && !Says(trace, k, Inactive)
  {
    if inputs != [] {
      hide After, Output;
      var init, i := inputs[..|inputs| - 1], inputs[|inputs| - 1];
      RunPrivate(init);
      var (before, trace) := Run(START, init);
      StepPrivate(before, i);
      var out := Output(before, i);
      assert forall k, s :: Says(trace + out, k, s) ==> Says(trace, k, s) || Says(out, k - |trace|, s);
    }
  }

  lemma StepPrivate(d: Dialog, i: Input)
    requires d.last != Gone && d.last != Inactive && (i.Own? ==> !i.env.sendInactivity)
    ensures After(d, i).last != Gone && After(d, i).last != Inactive
    ensures forall k :: !Says(Output(d, i), k, Gone) && !Says(Output(d, i), k, Inactive)
  {
    ToldFrom(Wire(d, i));
    forall k, s | Says(Output(d, i), k, s)
      ensures s != Gone && s != Inactive
    {
      assert Output(d, i)[k] in Wire(d, i);
    }
  }

  // ---- When the run is not fair ---------------------------------------------------------------------

  const OPEN := Environment(true, true, false, true, true, true)

  /**
   * Sending suppressed at the first step only: the machine takes composing for told, and the
   * conversation begins with a pause.
   */
  lemma SuppressedStart()
    ensures var inputs := [Notice({}, Active), Own(Composing, OPEN.(dontSend := true)), Own(Paused, OPEN)];
            !BeginsWell(Run(START, inputs).1)
  {
    var a, b, c := Notice({}, Active), Own(Composing, OPEN.(dontSend := true)), Own(Paused, OPEN);
    hide Run;
    RunThree(a, b, c);
    var trace := Run(START, [a, b, c]).1;
    assert trace == [Sent(Message(Paused, {}, ""))];
    assert Begins(trace, 0) && Says(trace, 0, Paused);
  }

  lemma RunLast(d: Dialog, inputs: seq<Input>, i: Input)
    ensures var (before, told) := Run(d, inputs);
            Run(d, inputs + [i]) == (After(before, i), told + Output(before, i))
  {
    hide After, Output;
    assert (inputs + [i])[..|inputs|] == inputs;
  }

  lemma {:induction false} RunConcat(d: Dialog, a: seq<Input>, b: seq<Input>)
    ensures var (mid, told) := Run(d, a);
            Run(d, a + b) == (Run(mid, b).0, told + Run(mid, b).1)
  {
    hide After, Output, Run;
    var (mid, told) := Run(d, a);
    if b == [] {
      assert a + b == a;
      RunNone(mid);
      assert told + [] == told;
    } else {
      var init, i := b[..|b| - 1], b[|b| - 1];
      RunConcat(d, a, init);
      RunLast(d, a + init, i);
      RunLast(mid, init, i);
      assert a + init + [i] == a + b && init + [i] == b;
      var (before, more) := Run(mid, init);
      assert told + more + Output(before, i) == told + (more + Output(before, i));
    }
  }

  lemma RunNone(d: Dialog)
    ensures Run(d, []) == (d, [])
  {
  }

  /**
   * The contact goes offline while the user is composing, and comes back: the machine does not
   * notice, and the new conversation begins with a pause.
   */
  lemma OfflineStart()
    ensures var inputs := [Notice({}, Active), Own(Composing, OPEN), Offline]
                          + [Notice({}, Active), Own(Inactive, OPEN)];
            !BeginsWell(Run(START, inputs).1)
  {
    hide Run, Output, Step, Emitted, Wire;
    var a, b, c := Notice({}, Active), Own(Composing, OPEN), Offline;
    RunInputs(START, a, b, c);
    var d := After(After(After(START, a), b), c);
    RunConcat(START, [a, b, c], [a, Own(Inactive, OPEN)]);
    RunInputs(d, a, Own(Inactive, OPEN), c);
    Noticed(START);
    Sends(After(START, a), Composing);
    ToldOthers(After(After(START, a), b), c);
    Noticed(d);
    Sends(After(d, a), Inactive);
    var out1, out2 := Output(After(START, a), b), Output(After(d, a), Own(Inactive, OPEN));
    var told := Run(START, [a, b, c] + [a, Own(Inactive, OPEN)]).1;
    assert told == out1 + [Lost] + out2;
    assert told[1].Lost? && Says(told, 2, Paused) && Begins(told, 2);
  }

  lemma RunThree(a: Input, b: Input, c: Input)
    ensures var d := After(START, a);
            && Run(START, [a, b, c]).1 == Output(START, a) + Output(d, b) + Output(After(d, b), c)
  {
    RunInputs(START, a, b, c);
  }

  lemma RunInputs(d: Dialog, a: Input, b: Input, c: Input)
    ensures var d1, d2 := After(d, a), After(After(d, a), b);
            && Run(d, [a]) == (d1, Output(d, a))
            && Run(d, [a, b]) == (d2, Output(d, a) + Output(d1, b))
            && Run(d, [a, b, c]) == (After(d2, c), Output(d, a) + Output(d1, b) + Output(d2, c))
  {
    assert [a, b, c][..2] == [a, b] && [a, b][..1] == [a] && [a][..0] == [];
    assert [] + Output(d, a) == Output(d, a);
  }

  /** A trace with something inadmissible in it is not proper, whatever follows. */
  lemma Stuck(trace: seq<Event>, told: seq<Event>, k: nat)
    requires k < |told| && !Admissible(trace + told[..k], told[k])
    ensures !Proper(trace + told)
  {
    var upTo := trace + told[..k];
    Spoils(upTo, told[k]);
    assert upTo + [told[k]] + told[k + 1..] == trace + told;
    if Proper(trace + told) {
      PrefixProper(upTo + [told[k]], told[k + 1..]);
    }
  }

  /** Idling told while gone, with no return before. */
  lemma StuckGone(trace: seq<Event>, told: seq<Event>, k: nat)
    requires GoneOpen(trace) && Says(told, k, Inactive)
    requires forall j :: 0 <= j < k ==> told[j].Sent? && told[j].message.chatState != Active
    ensures !Proper(trace + told)
  {
    StillOpen(trace, told, k);
    Stuck(trace, told, k);
  }

  lemma {:induction false} StillOpen(trace: seq<Event>, told: seq<Event>, k: nat)
    requires GoneOpen(trace) && k <= |told|
    requires forall j :: 0 <= j < k ==> told[j].Sent? && told[j].message.chatState != Active
    ensures GoneOpen(trace + told[..k])
  {
    if k == 0 {
      assert trace + told[..0] == trace;
    } else {
      StillOpen(trace, told, k - 1);
      Appended(trace + told[..k - 1], told[k - 1]);
      assert trace + told[..k] == trace + told[..k - 1] + [told[k - 1]];
    }
  }

  /** Composing told twice by someone not gone. */
  lemma StuckTwice(trace: seq<Event>, told: seq<Event>)
    requires !GoneOpen(trace) && Says(told, 0, Composing) && Says(told, 1, Composing)
    ensures !Proper(trace + told)
  {
    Appended(trace, told[0]);
    assert trace + told[..1] == trace + [told[0]];
    Stuck(trace, told, 1);
  }

  lemma StuckFirst(trace: seq<Event>, told: seq<Event>)
    requires told != [] && !Admissible(trace, told[0])
    ensures !Proper(trace + told)
  {
    assert trace + told[..0] == trace;
    Stuck(trace, told, 0);
  }

  function FirstProbe(last: ChatState, trace: seq<Event>): ChatState {
    match last
    case StateNone => Composing
    case Active => if Latest(trace) == Inactive then Composing else Inactive
    case Paused => if Latest(trace) == Inactive then Composing else Inactive
    case Composing => if GoneOpen(trace) then Inactive else Paused
    case Inactive => Paused
    case Gone => Composing
  }

  function SecondProbe(last: ChatState): ChatState {
    if last == Gone then Composing else Inactive
  }

  /** What is told of `s` when nothing is in the way. */
  predicate Tells(last: ChatState, s: ChatState, out: seq<Event>) {
    if Refused(last, s) || Silent(last, s) then out == []
    else if ViaPause(last, s) then |out| == 2 && Says(out, 0, Paused) && Says(out, 1, s)
    else |out| == 1 && Says(out, 0, s)
  }

  lemma Sends(d: Dialog, s: ChatState)
    requires d.contact != StateNone && s != StateNone
    ensures After(d, Own(s, OPEN)) == d.(last := Next(d.last, s)) && Said(d, Own(s, OPEN))
    ensures Tells(d.last, s, Output(d, Own(s, OPEN)))
  {
    ToldOutgoing(d, Own(s, OPEN));
  }

  /** From an unsafe state one or two steps that are told give the machine away. */
  lemma Unsafe(d: Dialog, trace: seq<Event>) returns (inputs: seq<Input>)
    requires !Safe(d.last, trace)
    ensures SaidRun(d, inputs) && !Proper(trace + Run(d, inputs).1)
  {
    hide Run, Output, After, Proper, Safe, Tells, FirstProbe, SecondProbe, Next, SaidRun, Said;
    var first, second := FirstProbe(d.last, trace), SecondProbe(d.last);
    Probes(d.last, trace);
    var a, b, c := Notice({}, Active), Own(first, OPEN), Own(second, OPEN);
    Noticed(d);
    var d1 := After(d, a);
    Sends(d1, first);
    var d2 := After(d1, b);
    Sends(d2, second);
    SaidThree(d, a, b, c);
    RunInputs(d, a, b, c);
    inputs := [a, b, c];
    var out1, out2 := Output(d1, b), Output(d2, c);
    assert [] + out1 + out2 == out1 + out2;
    if d.last == Gone && !GoneOpen(trace) {
      ProbedTwice(trace, out1, out2);
    } else if GoneOpen(trace) && d.last != Gone {
      ProbedGone(trace, d.last, out1, out2);
    } else {
      ProbedFirst(trace, d.last, out1, out2);
    }
  }

  lemma Probes(last: ChatState, trace: seq<Event>)
    ensures FirstProbe(last, trace) != StateNone && SecondProbe(last) != StateNone
  {
  }

  lemma Noticed(d: Dialog)
    ensures After(d, Notice({}, Active)) == d.(contact := Active)
    ensures Output(d, Notice({}, Active)) == [] && Said(d, Notice({}, Active))
  {
  }

  lemma ProbedTwice(trace: seq<Event>, out1: seq<Event>, out2: seq<Event>)
    requires !GoneOpen(trace) && Tells(Gone, FirstProbe(Gone, trace), out1)
    requires Tells(Next(Gone, FirstProbe(Gone, trace)), SecondProbe(Gone), out2)
    ensures !Proper(trace + (out1 + out2))
  {
    hide Proper, GoneOpen;
    StuckTwice(trace, out1 + out2);
  }

  lemma ProbedGone(trace: seq<Event>, last: ChatState, out1: seq<Event>, out2: seq<Event>)
    requires GoneOpen(trace) && last != Gone && Tells(last, FirstProbe(last, trace), out1)
    requires Tells(Next(last, FirstProbe(last, trace)), SecondProbe(last), out2)
    ensures !Proper(trace + (out1 + out2))
  {
    hide Proper, GoneOpen, Latest;
    var told := out1 + out2;
    if last == StateNone {
      StuckGone(trace, told, 2);
    } else if last == Composing || last == Inactive {
      StuckGone(trace, told, 1);
    } else if Latest(trace) == Inactive {
      StuckFirst(trace, told);
    } else {
      StuckGone(trace, told, 0);
    }
  }

  lemma ProbedFirst(trace: seq<Event>, last: ChatState, out1: seq<Event>, out2: seq<Event>)
    requires !Safe(last, trace) && (GoneOpen(trace) <==> last == Gone) && Tells(last, FirstProbe(last, trace), out1)
    ensures !Proper(trace + (out1 + out2))
  {
    hide Proper, GoneOpen, Latest;
    Openness(trace);
    StuckFirst(trace, out1 + out2);
  }

  lemma Openness(trace: seq<Event>)
    ensures Latest(trace) == Gone ==> GoneOpen(trace)
    ensures Latest(trace) == StateNone && trace != [] && !trace[|trace| - 1].Lost? ==>
              (GoneOpen(trace) <==> GoneOpen(trace[..|trace| - 1]))
    ensures Latest(trace) == Composing || Latest(trace) == Paused ==>
              trace != [] && (GoneOpen(trace) <==> GoneOpen(trace[..|trace| - 1]))
  {
  }

  /**
   * Whatever the run so far, everything that is told from here on keeps the trace proper exactly if
   * it is proper and the last state is safe.
   */
  lemma SafeExactly(d: Dialog, trace: seq<Event>)
    ensures Proper(trace) && Safe(d.last, trace) <==>
            forall inputs :: SaidRun(d, inputs) ==> Proper(trace + Run(d, inputs).1)
  {
    if Proper(trace) && Safe(d.last, trace) {
      forall inputs | SaidRun(d, inputs)
        ensures Proper(trace + Run(d, inputs).1)
      {
        RunFrom(d, trace, inputs);
      }
    } else if !Proper(trace) {
      assert SaidRun(d, []) && trace + Run(d, []).1 == trace;
    } else {
      var inputs := Unsafe(d, trace);
    }
  }

  /** So a step that goes unsaid does harm, now or later, exactly if it is not fair. */
  lemma UnsaidExactly(d: Dialog, trace: seq<Event>, i: Input)
    requires Proper(trace) && Unsaid(d, i) && i.state != StateNone
    ensures Fair(d, trace, i) <==>
            forall inputs :: SaidRun(After(d, i), inputs) ==> Proper(trace + Output(d, i) + Run(After(d, i), inputs).1)
  {
    ToldOutgoing(d, i);
    assert trace + Output(d, i) == trace;
    SafeExactly(After(d, i), trace);
  }

  /**
   * And at an input that is no step of the machine's own the trace can stay proper exactly if the
   * machine keeps up.
   */
  lemma KeptUpExactly(d: Dialog, trace: seq<Event>, i: Input)
    requires Proper(trace) && !i.Own? && (i.Offline? || Safe(d.last, trace))
    ensures KeepsUp(d, i) <==> Safe(After(d, i).last, trace + Output(d, i))
    ensures KeepsUp(d, i) <==>
            forall inputs :: SaidRun(After(d, i), inputs) ==> Proper(trace + Output(d, i) + Run(After(d, i), inputs).1)
  {
    var out := Output(d, i);
    Noted(d, trace, i);
    SafeExactly(After(d, i), trace + out);
  }

  lemma Noted(d: Dialog, trace: seq<Event>, i: Input)
    requires Proper(trace) && !i.Own? && (i.Offline? || Safe(d.last, trace))
    ensures Proper(trace + Output(d, i))
    ensures KeepsUp(d, i) <==> Safe(After(d, i).last, trace + Output(d, i))
  {
    hide Output, Proper;
    if i.Content? {
      ToldContent(d, i.env);
    } else {
      ToldOthers(d, i);
    }
    var out := Output(d, i);
    if out == [] {
      assert trace + out == trace;
    } else {
      Appended(trace, out[0]);
      Extends(trace, out[0]);
      if |out| == 1 {
        assert out == [out[0]];
      } else {
        Appended(trace + [out[0]], out[1]);
        Extends(trace + [out[0]], out[1]);
        assert trace + [out[0]] + [out[1]] == trace + out;
      }
    }
  }

  lemma SaidThree(d: Dialog, a: Input, b: Input, c: Input)
    requires Said(d, a) && Said(After(d, a), b) && Said(After(After(d, a), b), c)
    ensures SaidRun(d, [a, b, c])
  {
    hide Said, After, Output;
    RunInputs(d, a, b, c);
    var inputs := [a, b, c];
    assert inputs[..0] == [] && Run(d, []) == (d, []);
    assert inputs[..1] == [a] && inputs[..2] == [a, b];
  }

  /** Who has gone and composes is not taken to be back: composing is told again each time. */
  lemma RepeatedAfterGone(d: Dialog)
    requires d.contact != StateNone && d.last == Gone
    ensures Step(d, Composing, OPEN) == d
    ensures var id := if d.sendComposing then d.eventId else "";
            Emitted(d, Composing, OPEN)
            == [Sent(Message(Composing, if d.sendComposing then {ComposingEvent} else {}, id))]
  {
  }

  /** A contact who asked for message events is one whose state is known, until going offline. */
  lemma {:induction false} AskedIsKnown(inputs: seq<Input>)
    requires Offline !in inputs
    ensures var d := Run(START, inputs).0; d.sendComposing ==> d.contact != StateNone
  {
    if inputs != [] {
      AskedIsKnown(inputs[..|inputs| - 1]);
    }
  }

  /** Once the contact is offline the machine tells no state, whatever it is asked to, until the contact is heard of. */
  lemma {:induction false} OfflineSilent(d: Dialog, inputs: seq<Input>)
    requires forall i :: i in inputs ==> i.Own? || i.Offline?
    ensures var (after, told) := Run(After(d, Offline), inputs);
            after.contact == StateNone && forall e :: e in told ==> e.Lost?
  {
    if inputs != [] {
      var init, i := inputs[..|inputs| - 1], inputs[|inputs| - 1];
      OfflineSilent(d, init);
      var before := Run(After(d, Offline), init).0;
      ToldShort(Wire(before, i));
    }
  }

  // ---- Message events -------------------------------------------------------------------------------

  /** What a contact can go by who asks for message events: what the user does, and the id to answer to. */
  datatype Talk = Talk(typing: bool, left: bool, id: string)

  function Follow(t: Talk, i: Input): Talk {
    match i
    case Own(state, env) =>
      t.(typing := state == Composing, left := state != Active && (t.left || (state == Gone && env.sendInactivity)))
    case Content(env) => if env.loggedIn then t.(typing := false, left := false) else t
    case Text(_, _, id) => if id != "" then t.(id := id) else t
    case Notice(_, _) => t
    case Offline => t
  }

  function Followed(t: Talk, inputs: seq<Input>): Talk {
    if inputs == [] then t else Follow(Followed(t, inputs[..|inputs| - 1]), inputs[|inputs| - 1])
  }

  function TalkOf(d: Dialog): Talk {
    Talk(d.last == Composing, d.last == Gone, d.eventId)
  }

  predicate Open(env: Environment) {
    env.sendEvents && env.contactAvailable && !env.dontSend && env.accountAvailable
  }

  /** The contact goes on asking for events, and every step is sent. */
  predicate Asks(i: Input) {
    match i
    case Own(state, env) => state != StateNone && Open(env)
    case Content(env) => env.loggedIn ==> Open(env)
    case Text(events, _, _) => ComposingEvent in events
    case Notice(_, _) => true
    case Offline => true
  }

  /** The notifications of an input: everything sent but what the user has written. */
  function Notifications(d: Dialog, i: Input): seq<Event> {
    var out := Wire(d, i);
    if i.Content? && out != [] then out[..|out| - 1] else out
  }

  predicate Carries(e: Event, event: MessageEvent, id: string) {
    e.Sent? && e.message.events == {event} && e.message.eventId == id
  }

  /** The user does something, composing or not. */
  predicate Acts(i: Input) {
    i.Own? || (i.Content? && i.env.loggedIn)
  }

  predicate Types(i: Input) {
    i.Own? && i.state == Composing
  }

  /** Each message of these notifications says what the user's step makes it say, and answers to the id. */
  ghost predicate Answers(t: Talk, i: Input, out: seq<Event>) {
    if Types(i) && (!t.typing || t.left) then
      out != [] && forall e :: e in out ==> Carries(e, ComposingEvent, t.id)
    else if Acts(i) && !Types(i) && t.typing && !t.left then
      out != [] && forall e :: e in out ==> Carries(e, CancelEvent, t.id)
    else
      forall e :: e in out && e.Sent? ==> e.message.events == {} && e.message.eventId == t.id
  }

  ghost predicate Agrees(d: Dialog, t: Talk) {
    && d.sendComposing && d.eventId == t.id
    && (d.last == Gone <==> t.left) && (d.last == Composing <==> t.typing && !t.left)
  }

  /** All messages of a step carry the same. */
  lemma OutgoingCarries(d: Dialog, s: ChatState, env: Environment)
    requires d.sendComposing && Open(env)
    ensures forall e :: e in Outgoing(d, s, env) ==>
              e.Sent? && e.message.events == EventsFor(d, s) && e.message.eventId == d.eventId
    ensures !Refused(d.last, s) && !Silent(d.last, s) && EventsFor(d, s) != {} ==> Outgoing(d, s, env) != []
    ensures Refused(d.last, s) || Silent(d.last, s) ==> Outgoing(d, s, env) == []
  {
    hide EventsFor, Refused, Silent, ViaPause;
  }

  lemma OwnAnswers(d: Dialog, t: Talk, s: ChatState, env: Environment)
    requires Agrees(d, t) && s != StateNone && Open(env)
    ensures Agrees(Step(d, s, env), Follow(t, Own(s, env))) && Answers(t, Own(s, env), Emitted(d, s, env))
  {
    hide Outgoing, ViaPause;
    OutgoingCarries(d, Shown(s, env), env);
  }

  lemma StepAnswers(d: Dialog, t: Talk, i: Input)
    requires Agrees(d, t) && Asks(i)
    ensures Agrees(After(d, i), Follow(t, i)) && Answers(t, i, Notifications(d, i))
  {
    hide Emitted, Step;
    if i.Own? {
      OwnAnswers(d, t, i.state, i.env);
    } else if i.Content? && i.env.loggedIn {
      OwnAnswers(d, t, Active, i.env);
      assert Notifications(d, i) == Emitted(d, Active, i.env);
    }
  }

  lemma FollowedNone(d: Dialog)
    ensures Followed(TalkOf(d), []) == TalkOf(d) && (d.sendComposing ==> Agrees(d, TalkOf(d)))
  {
  }

  lemma FollowedLast(t: Talk, inputs: seq<Input>, i: Input)
    ensures Followed(t, inputs + [i]) == Follow(Followed(t, inputs), i)
  {
    assert (inputs + [i])[..|inputs|] == inputs;
  }

  /**
   * While a contact asks for events and every step is sent: whatever the run, a composing event goes
   * out at a step into composing and at every one while gone, a cancel at a step out of composing
   * unless gone, each in every message of the step, and each answers to the id received last.
   */
  lemma {:induction false} EventsSent(d: Dialog, inputs: seq<Input>)
    requires d.sendComposing && forall i :: i in inputs ==> Asks(i)
    ensures Agrees(Run(d, inputs).0, Followed(TalkOf(d), inputs))
    ensures forall k :: 0 <= k < |inputs| ==>
              Answers(Followed(TalkOf(d), inputs[..k]), inputs[k], Notifications(Run(d, inputs[..k]).0, inputs[k]))
  {
    hide Run, Followed, After, Output, Follow, Answers, Agrees, Asks, Notifications;
    if inputs == [] {
      RunNone(d);
      FollowedNone(d);
    } else {
      var init, i := inputs[..|inputs| - 1], inputs[|inputs| - 1];
      EventsSent(d, init);
      forall k | 0 <= k < |init|
        ensures inputs[..k] == init[..k] && inputs[k] == init[k]
      {
      }
      assert inputs == init + [i] && inputs[..|init|] == init;
      RunLast(d, init, i);
      FollowedLast(TalkOf(d), init, i);
      StepAnswers(Run(d, init).0, Followed(TalkOf(d), init), i);
    }
  }

  predicate Announces(out: seq<Event>, event: MessageEvent) {
    exists e :: e in out && e.Sent? && event in e.message.events
  }

  /** A composing event exactly at a step into composing, a cancel exactly at a step out of it. */
  predicate Plain(t: Talk, i: Input, out: seq<Event>) {
    && (Announces(out, ComposingEvent) <==> Types(i) && !t.typing)
    && (Announces(out, CancelEvent) <==> Acts(i) && !Types(i) && t.typing)
  }

  /** That fails exactly when the user, while gone, has been composing already. */
  lemma PlainExactly(d: Dialog, t: Talk, i: Input)
    requires Agrees(d, t) && Asks(i)
    ensures Plain(t, i, Notifications(d, i)) <==> !(Acts(i) && t.typing && t.left)
  {
    hide Notifications, Agrees, Asks;
    StepAnswers(d, t, i);
    var out := Notifications(d, i);
    if out != [] {
      assert out[0] in out;
    }
  }

  /** The events sent over a run, one for each step that sends any. */
  function Signs(d: Dialog, inputs: seq<Input>): seq<MessageEvent> {
    if inputs == [] then []
    else
      var init, i := inputs[..|inputs| - 1], inputs[|inputs| - 1];
      var out := Notifications(Run(d, init).0, i);
      Signs(d, init) + SignsOf(out)
  }

  function SignsOf(out: seq<Event>): seq<MessageEvent> {
    (if Announces(out, ComposingEvent) then [ComposingEvent] else [])
    + (if Announces(out, CancelEvent) then [CancelEvent] else [])
  }

  /** Composing and cancel take turns, composing first; composing is last exactly if the user is composing. */
  predicate Alternating(signs: seq<MessageEvent>, typing: bool) {
    && (forall k :: 0 <= k < |signs| ==> signs[k] == if k % 2 == 0 then ComposingEvent else CancelEvent)
    && (typing <==> signs != [] && signs[|signs| - 1] == ComposingEvent)
  }

  lemma NoneAlternating()
    ensures Alternating([], false)
  {
  }

  lemma StillAlternating(signs: seq<MessageEvent>, t: Talk, i: Input, out: seq<Event>)
    requires Alternating(signs, t.typing) && Plain(t, i, out)
    ensures Alternating(signs + SignsOf(out), Follow(t, i).typing)
  {
    hide Announces;
  }

  /**
   * So composing and cancel take turns, composing first, and the last one sent is composing exactly
   * if the user is, as long as nobody who has gone without a word goes on after composing.
   */
  lemma {:induction false} EventsAlternate(d: Dialog, inputs: seq<Input>)
    requires d.sendComposing && d.last != Composing && forall i :: i in inputs ==> Asks(i)
    requires forall k :: 0 <= k < |inputs| && Acts(inputs[k]) ==>
               var t := Followed(TalkOf(d), inputs[..k]); !(t.typing && t.left)
    ensures Alternating(Signs(d, inputs), Followed(TalkOf(d), inputs).typing)
  {
    hide Run, Followed, Follow, Notifications, SignsOf, Answers, Agrees, Asks, After, Output, Plain, Alternating;
    if inputs == [] {
      FollowedNone(d);
      NoneAlternating();
    } else {
      var init, i := inputs[..|inputs| - 1], inputs[|inputs| - 1];
      forall k | 0 <= k < |init|
        ensures inputs[..k] == init[..k] && inputs[k] == init[k]
      {
      }
      EventsAlternate(d, init);
      EventsSent(d, init);
      assert inputs == init + [i] && inputs[..|init|] == init;
      FollowedLast(TalkOf(d), init, i);
      var t, before := Followed(TalkOf(d), init), Run(d, init).0;
      PlainExactly(before, t, i);
      StillAlternating(Signs(d, init), t, i, Notifications(before, i));
    }
  }

  /** Gone, and composing after all: the event is sent again and again, and never taken back. */
  lemma GoneTyping(d: Dialog)
    requires d.sendComposing && d.last == Gone
    ensures var inputs := [Own(Composing, OPEN), Own(Composing, OPEN), Own(Active, OPEN)];
            Signs(d, inputs) == [ComposingEvent, ComposingEvent]
  {
    hide Notifications, After, Output;
    var a, b := Own(Composing, OPEN), Own(Active, OPEN);
    assert [a, a, b][..2] == [a, a] && [a, a][..1] == [a] && [a][..0] == [];
    RunInputs(d, a, a, b);
    var t := Talk(false, true, d.eventId);
    StepAnswers(d, t, a);
    StepAnswers(d, t.(typing := true), b);
    assert After(d, a) == d by { RetypedAfterGone(d); }
    var out := Notifications(d, a);
    assert out[0] in out;
    assert Signs(d, [a]) == [] + [ComposingEvent] + [];
    assert Signs(d, [a, a]) == Signs(d, [a]) + [ComposingEvent] + [];
    assert Signs(d, [a, a, b]) == Signs(d, [a, a]) + [] + [];
  }

  lemma RetypedAfterGone(d: Dialog)
    requires d.sendComposing && d.last == Gone
    ensures After(d, Own(Composing, OPEN)) == d
  {
  }

  // ---- Chat states ----------------------------------------------------------------------------------

  /** What a step that is sent tells a contact whose state is known, and what the machine takes for told. */
  lemma StepTells(d: Dialog, state: ChatState, env: Environment)
    requires Open(env) && d.contact != StateNone && state != StateNone
    ensures var s := if state in {Gone, Inactive} && !env.sendInactivity then Paused else state;
            var out, after := Output(d, Own(state, env)), After(d, Own(state, env));
            && after == d.(last := after.last)
            && (forall e :: e in out ==> e.Sent?)
            && (if s == d.last || (d.last == Active && s == Paused) then out == [] && after.last == s
                else if d.last == StateNone && s in {Paused, Inactive} then out == [] && after.last == StateNone
                else if d.last == Gone && s == Inactive then out == [] && after.last == Gone
                else if {d.last, s} == {Composing, Inactive} then
                  |out| == 2 && out[0].message.chatState == Paused && out[1].message.chatState == s && after.last == s
                else
                  |out| == 1 && out[0].message.chatState == s
                  && after.last == if d.last == Gone && s != Active then Gone else s)
  {
    ToldOutgoing(d, Own(state, env));
  }

  /** When a step tells nothing, and whether the machine goes on all the same. */
  lemma StepUntold(d: Dialog, state: ChatState, env: Environment)
    ensures !env.sendEvents || (!d.sendComposing && d.contact == StateNone) ==>
              Wire(d, Own(state, env)) == [] && After(d, Own(state, env)) == d
    ensures env.sendEvents && (d.sendComposing || d.contact != StateNone) && !env.contactAvailable ==>
              && Wire(d, Own(state, env)) == [Lost]
              && After(d, Own(state, env)) == Dialog(StateNone, false, d.contact, d.eventId)
    ensures env.sendEvents && env.contactAvailable && (env.dontSend || !env.accountAvailable) ==>
              Wire(d, Own(state, env)) == []
    ensures env.sendEvents && env.contactAvailable && d.contact != StateNone ==>
              After(d, Own(state, env)) == After(d, Own(state, OPEN.(sendInactivity := env.sendInactivity)))
  {
  }
}
