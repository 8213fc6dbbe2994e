/** How a channel is released.

    A channel leaves the manager's collection, a RELEASE_RESOURCE command goes through the command
    queue to the event loop, the loop closes the handle, and a close callback ends it. Meanwhile
    disconnect commands may be queued, listeners accept and drop clients, and any thread may remove
    any channel. This module is the transition system; module ChannelManager holds the methods.

    Granularity. RemoveChannel is one step. A drain (OnAsyncEvent) is open from its first command
    until the queue is empty; other threads may step in between its commands, but a close callback
    only fires when no drain and no accept is open, because the loop runs all three on one thread.
    Closing a handle twice is the same as closing it once. Whether a channel is connected, whether a
    command came too late and whether the queue takes a command is left to the environment.
 */
module ReleaseProtocol {
  import opened Basics

  type Id = nat

  /** CHANNEL_RESOURCE_RELEASE_STATE */
  datatype Release = Idle | Pending | Closing | Closed {
    function Rank(): nat {
      match this case Idle => 0 case Pending => 1 case Closing => 2 case Closed => 3
    }
  }

  datatype Command =
    | Connect(c: Id)
    | Listen(c: Id)
    | Disconnect(c: Id, reuse: bool)
    | Write(c: Id)
    | ReleaseResource(c: Id)

  /** A channel that was added with success. `sent` and `lost` are history: how many
      RELEASE_RESOURCE commands were queued for it, and whether the queue refused one. */
  datatype Channel = Channel(
    release: Release,
    handleClosing: bool,
    callbackPending: bool,
    backlog: nat,
    accepted: seq<Id>,
    acceptedBy: Option<Id>,
    sent: nat,
    lost: bool)

  /** The accept that is under way: its listener and the new client. */
  datatype Accept = Accept(listener: Id, client: Id)

  datatype State = State(
    nbMax: nat,
    channels: map<Id, Channel>,
    collection: seq<Id>,
    queue: seq<Command>,
    ticket: nat,
    draining: bool,
    accepting: Option<Accept>)

  function Init(nbMax: nat): State {
    State(nbMax, map[], [], [], 0, false, None)
  }

  // ---- The operations ---------------------------------------------------------------------------

  /** The list without the first occurrence of `x` (std::find, then erase). */
  function Erase(s: seq<Id>, x: Id): seq<Id> {
    if s == [] then [] else if s[0] == x then s[1..] else [s[0]] + Erase(s[1..], x)
  }

  function Fresh(backlog: nat, owner: Option<Id>): Channel {
    Channel(Idle, false, false, backlog, [], owner, 0, false)
  }

  /** AddChannel and InternalAddChannel: refused when the manager is full. */
  function AddChannel(s: State, c: Id, backlog: nat, owner: Option<Id>): State {
    if |s.collection| < s.nbMax then
      s.(channels := s.channels[c := Fresh(backlog, owner)], collection := s.collection + [c])
    else s
  }

  /** An attempt to queue a command takes a ticket; `room` says which tickets the queue takes. */
  function Send(room: nat -> bool, s: State, cmd: Command): State {
    var t := s.ticket + 1;
    if room(t) then s.(queue := s.queue + [cmd], ticket := t) else s.(ticket := t)
  }

  /** Mark an idle channel as pending and queue its release. */
  function StartRelease(room: nat -> bool, s: State, c: Id): State
    requires c in s.channels
  {
    var ch := s.channels[c];
    var taken := room(s.ticket + 1);
    Send(room, s, ReleaseResource(c)).(channels := s.channels[c := ch.(
      release := Pending,
      sent := if taken then ch.sent + 1 else ch.sent,
      lost := ch.lost || !taken)])
  }

  function RemoveChannel(room: nat -> bool, s: State, c: Id): State
    requires c in s.channels
  {
    if c !in s.collection then s
    else
      var erased := s.(collection := Erase(s.collection, c));
      if s.channels[c].release == Idle then StartRelease(room, erased, c) else erased
  }

  function RemoveAccepted(room: nat -> bool, s: State, l: Id, c: Id): (t: State)
    requires l in s.channels && c in s.channels
    ensures t.channels.Keys == s.channels.Keys
    ensures t.channels[l].accepted == Erase(s.channels[l].accepted, c)
  {
    if c !in s.channels[l].accepted then EraseAbsent(s.channels[l].accepted, c); s
    else
      Unlist(RemoveChannel(room, s, c), l, c)
  }

  function Unlist(s: State, l: Id, c: Id): State
    requires l in s.channels
  {
    s.(channels := s.channels[l := s.channels[l].(accepted := Erase(s.channels[l].accepted, c))])
  }

  lemma {:induction false} EraseAbsent(s: seq<Id>, x: Id)
    requires x !in s
    ensures Erase(s, x) == s
  {
    if s != [] {
      EraseAbsent(s[1..], x);
    }
  }

  predicate AcceptedKnown(s: State, l: Id)
    requires l in s.channels
  {
    forall c :: c in s.channels[l].accepted ==> c in s.channels
  }

  function RemoveAllAccepted(room: nat -> bool, s: State, l: Id): (t: State)
    requires l in s.channels && AcceptedKnown(s, l)
    ensures t.channels.Keys == s.channels.Keys
    decreases |s.channels[l].accepted|
  {
    var a := s.channels[l].accepted;
    if a == [] then s else RemoveAllAccepted(room, RemoveAccepted(room, s, l, a[0]), l)
  }

  /** CloseListenerChannelAndItsAcceptedChannel */
  function CloseListener(room: nat -> bool, s: State, l: Id): State
    requires l in s.channels && AcceptedKnown(s, l)
  {
    RemoveChannel(room, RemoveAllAccepted(room, s, l), l)
  }

  /** Ask for the handle to be closed; a second request changes nothing. */
  function CloseHandle(ch: Channel): Channel {
    if ch.handleClosing then ch else ch.(handleClosing := true, callbackPending := true)
  }

  /** OnAsyncDisconnect, as far as the release is concerned. */
  function OnDisconnect(ch: Channel, reuse: bool, connected: bool, expired: bool): Channel {
    if connected && !expired && !ch.handleClosing && !reuse then CloseHandle(ch.(release := Pending)) else ch
  }

  /** OnAsyncReleaseResource for one channel. */
  function OnRelease(ch: Channel): Channel {
    CloseHandle(ch).(release := Closing)
  }

  /** One command of a drain. */
  function Execute(s: State, connected: bool, expired: bool): State
    requires s.queue != [] && s.queue[0].c in s.channels
  {
    var cmd := s.queue[0];
    var ch := s.channels[cmd.c];
    var t := s.(queue := s.queue[1..]);
    match cmd
    case Disconnect(c, reuse) => t.(channels := s.channels[c := OnDisconnect(ch, reuse, connected, expired)])
    case ReleaseResource(c) => t.(channels := s.channels[c := OnRelease(ch)])
    case _ => t
  }

  /** OnTcpCloseEvent: the close callback, which also drops an accepted client from its listener. */
  function OnClosed(room: nat -> bool, s: State, c: Id): State
    requires c in s.channels
    requires s.channels[c].acceptedBy.Some? ==> s.channels[c].acceptedBy.value in s.channels
  {
    var ch := s.channels[c];
    var t := s.(channels := s.channels[c := ch.(release := Closed, callbackPending := false)]);
    if ch.acceptedBy.Some? then RemoveAccepted(room, t, ch.acceptedBy.value, c) else t
  }

  /** OnTcpListenEvent up to the user's callback: the client joins the manager. */
  function BeginAccept(s: State, l: Id, c: Id): State
    requires l in s.channels
  {
    if |s.channels[l].accepted| < s.channels[l].backlog && |s.collection| < s.nbMax then
      AddChannel(s, c, 0, Some(l)).(accepting := Some(Accept(l, c)))
    else s
  }

  /** AddAcceptedChannel at the end of OnTcpListenEvent. */
  function EndAccept(s: State): State
    requires s.accepting.Some? && s.accepting.value.listener in s.channels
  {
    var l := s.accepting.value.listener;
    var ch := s.channels[l];
    var t := s.(accepting := None);
    if |ch.accepted| < ch.backlog then
      t.(channels := s.channels[l := ch.(accepted := ch.accepted + [s.accepting.value.client])])
    else t
  }

  // ---- The transition system ----------------------------------------------------------------------

  datatype Step =
    | AddStep(id: Id, backlog: nat)
    | RemoveStep(id: Id)
    | SendStep(cmd: Command)
    | BeginDrainStep
    | ExecuteStep(connected: bool, expired: bool)
    | EndDrainStep
    | ClosedStep(id: Id)
    | BeginAcceptStep(listener: Id, id: Id)
    | EndAcceptStep
    | DropAcceptedStep(id: Id)
    | CloseListenerStep(listener: Id)

  predicate Enabled(s: State, step: Step) {
    match step
    case AddStep(c, _) => c !in s.channels
    case RemoveStep(c) => c in s.channels
    case SendStep(cmd) => cmd.c in s.channels && !cmd.ReleaseResource?
    case BeginDrainStep => !s.draining && s.accepting.None?
    case ExecuteStep(_, _) => s.draining && s.queue != [] && s.queue[0].c in s.channels
    case EndDrainStep => s.draining && s.queue == []
    case ClosedStep(c) =>
      && c in s.channels && s.channels[c].callbackPending && !s.draining && s.accepting.None?
      && (s.channels[c].acceptedBy.Some? ==> s.channels[c].acceptedBy.value in s.channels)
    case BeginAcceptStep(l, c) => l in s.channels && c !in s.channels && !s.draining && s.accepting.None?
    case EndAcceptStep => s.accepting.Some? && s.accepting.value.listener in s.channels
    case DropAcceptedStep(c) =>
      && c in s.channels && s.channels[c].acceptedBy.Some? && s.channels[c].acceptedBy.value in s.channels
    case CloseListenerStep(l) => l in s.channels && s.channels[l].backlog != 0 && AcceptedKnown(s, l)
  }

  function Apply(room: nat -> bool, s: State, step: Step): State
    requires Enabled(s, step)
  {
    match step
    case AddStep(c, backlog) => AddChannel(s, c, backlog, None)
    case RemoveStep(c) => RemoveChannel(room, s, c)
    case SendStep(cmd) => Send(room, s, cmd)
    case BeginDrainStep => s.(draining := true)
    case ExecuteStep(connected, expired) => Execute(s, connected, expired)
    case EndDrainStep => s.(draining := false)
    case ClosedStep(c) => OnClosed(room, s, c)
    case BeginAcceptStep(l, c) => BeginAccept(s, l, c)
    case EndAcceptStep => EndAccept(s)
    case DropAcceptedStep(c) => RemoveAccepted(room, s, s.channels[c].acceptedBy.value, c)
    case CloseListenerStep(l) => CloseListener(room, s, l)
  }

  /** A run from the empty manager: states[i + 1] is what steps[i] makes of states[i]. */
  predicate IsRun(room: nat -> bool, nbMax: nat, states: seq<State>, steps: seq<Step>) {
    && |states| == |steps| + 1
    && states[0] == Init(nbMax)
    && forall i {:trigger steps[i]} :: 0 <= i < |steps| ==>
         Enabled(states[i], steps[i]) && states[i + 1] == Apply(room, states[i], steps[i])
  }
}
