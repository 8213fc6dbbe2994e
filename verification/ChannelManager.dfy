/** The manager's and the channels' methods that take part in a release, on mutable state. Each is
    proved against its function in module ReleaseProtocol and keeps the invariant of every run. */
module ChannelManager {
  import opened Basics
  import opened ReleaseProtocol
  import opened ReleaseSafety

  /** std::find: the first position of `x`, or the length of the list. */
  method Find(list: seq<Id>, x: Id) returns (i: nat)
    ensures i <= |list| && x !in list[..i]
    ensures i < |list| ==> list[i] == x
    ensures i == |list| <==> x !in list
  {
    i := 0;
    while i < |list| && list[i] != x
      invariant i <= |list| && x !in list[..i]
    {
      i := i + 1;
    }
  }

  lemma {:induction false} EraseAt(list: seq<Id>, i: nat)
    requires i < |list| && list[i] !in list[..i]
    ensures Erase(list, list[i]) == list[..i] + list[i + 1..]
  {
    if i > 0 {
      assert list[0] in list[..i];
      assert list[1..][..i - 1] == list[..i][1..];
      EraseAt(list[1..], i - 1);
    }
  }

  // ---- Drains ---------------------------------------------------------------------------------------

  /** What a whole drain makes of a state; `answer(k)` is what the loop finds out about the channel
      of the k-th command: whether it is connected and whether the command came too late. */
  function Drain(s: State, answer: nat -> (bool, bool), k: nat): State
    requires forall cmd :: cmd in s.queue ==> cmd.c in s.channels
    decreases |s.queue|
  {
    if s.queue == [] then s
    else
      assert forall cmd :: cmd in s.queue[1..] ==> cmd in s.queue;
      Drain(Execute(s, answer(k).0, answer(k).1), answer, k + 1)
  }

  /** A drain keeps the invariant, empties the queue, and leaves every channel whose release was
      queued in closing. */
  lemma {:induction false} DrainReleases(s: State, answer: nat -> (bool, bool), k: nat, c: Id)
    requires Inv(s) && s.draining && c in s.channels
    ensures var t := Drain(s, answer, k);
      && Inv(t) && Forward(s, t) && t.queue == [] && t.draining && c in t.channels
      && (Queued(s.queue, c) == 1 ==> t.channels[c].release == Closing)
      && (s.channels[c].release == Closing ==> t.channels[c].release == Closing)
    decreases |s.queue|
  {
    if s.queue != [] {
      assert s.queue[0] in s.queue;
      var u := Execute(s, answer(k).0, answer(k).1);
      ExecuteKeeps(s, answer(k).0, answer(k).1);
      ExecuteCloses(s, answer(k).0, answer(k).1, c);
      DrainReleases(u, answer, k + 1, c);
      ForwardTrans(s, u, Drain(u, answer, k + 1));
    }
  }

  lemma ExecuteCloses(s: State, connected: bool, expired: bool, c: Id)
    requires Inv(s) && s.draining && s.queue != [] && s.queue[0].c in s.channels && c in s.channels
    ensures var t := Execute(s, connected, expired);
      && t.draining
      && (s.channels[c].release == Closing ==> t.channels[c].release == Closing)
      && (Queued(s.queue, c) == 1 ==> Queued(t.queue, c) == 1 || t.channels[c].release == Closing)
  {
    assert LifeOk(s.channels[c], c in s.collection, Queued(s.queue, c), s.draining);
  }

  // ---- The manager ------------------------------------------------------------------------------------

  class Manager {
    const nbMax: nat
    const room: nat -> bool
    var channels: map<Id, Channel>
    var collection: seq<Id>
    var queue: seq<Command>
    var ticket: nat
    var draining: bool
    var accepting: Option<Accept>

    ghost function Model(): State
      reads this
    {
      State(nbMax, channels, collection, queue, ticket, draining, accepting)
    }

    constructor (nbMax: nat, room: nat -> bool)
      ensures Model() == Init(nbMax) && Inv(Model()) && this.room == room
    {
      this.nbMax, this.room := nbMax, room;
      channels, collection, queue, ticket := map[], [], [], 0;
      draining, accepting := false, None;
    }

    method SendCommand(cmd: Command) returns (ok: bool)
      modifies `queue, `ticket
      ensures Model() == Send(room, old(Model()), cmd)
      ensures ok == room(ticket) && queue == old(queue) + if ok then [cmd] else []
    {
      ticket := ticket + 1;
      ok := room(ticket);
      if ok {
        queue := queue + [cmd];
      }
    }

    /** AddChannel; `ok` is false when the manager is full. */
    method Add(c: Id, backlog: nat) returns (ok: bool)
      requires Inv(Model()) && c !in channels
      modifies `channels, `collection
      ensures Model() == AddChannel(old(Model()), c, backlog, None) && Inv(Model())
      ensures ok == (old(|collection|) < nbMax)
      ensures collection == old(collection) + if ok then [c] else []
      ensures ok == (c in channels) && (ok ==> channels[c].backlog == backlog && channels[c].release == Idle)
    {
      AddKeeps(Model(), c, backlog, None);
      ok := |collection| < nbMax;
      if ok {
        channels := channels[c := Fresh(backlog, None)];
        collection := collection + [c];
      }
    }

    /** The idle branch of RemoveChannel. */
    method BeginRelease(c: Id)
      requires c in channels
      modifies `channels, `queue, `ticket
      ensures Model() == StartRelease(room, old(Model()), c)
    {
      var ch := channels[c];
      var sent := SendCommand(ReleaseResource(c));
      channels := channels[c := ch.(
        release := Pending, sent := if sent then ch.sent + 1 else ch.sent, lost := ch.lost || !sent)];
    }

    /** RemoveChannel; `found` is false when the channel is no longer managed. */
    method Remove(c: Id, ghost closed: set<Id>) returns (found: bool)
      requires Core(Model(), closed) && c in channels
      modifies `channels, `collection, `queue, `ticket
      ensures Model() == RemoveChannel(room, old(Model()), c) && Core(Model(), closed)
      ensures found == (c in old(collection))
    {
      ghost var s := Model();
      var i := Find(collection, c);
      found := i < |collection|;
      if found {
        EraseAt(collection, i);
        collection := collection[..i] + collection[i + 1..];
        if channels[c].release == Idle {
          BeginRelease(c);
        }
      }
      RemoveCore(room, s, c, closed);
    }

    /** RemoveAcceptedChannel of the listener `l`. */
    method RemoveAcceptedClient(l: Id, c: Id, ghost closed: set<Id>) returns (found: bool)
      requires Core(Model(), closed) && l in channels && c in channels
      modifies `channels, `collection, `queue, `ticket
      ensures Model() == RemoveAccepted(room, old(Model()), l, c)
      ensures Core(Model(), closed) && Shrunk(old(Model()), Model())
      ensures found == (c in old(channels)[l].accepted)
    {
      ghost var s := Model();
      var i := Find(channels[l].accepted, c);
      found := i < |channels[l].accepted|;
      if found {
        EraseAt(channels[l].accepted, i);
        var _ := Remove(c, closed);
        var a := channels[l].accepted;
        channels := channels[l := channels[l].(accepted := a[..i] + a[i + 1..])];
      }
      RemoveAcceptedCore(room, s, l, c, closed);
      RemoveAcceptedShrinks(room, s, l, c);
    }

    method MarkClosed(c: Id)
      requires Inv(Model()) && Enabled(Model(), ClosedStep(c))
      modifies `channels
      ensures Model() == old(Model()).(
        channels := old(channels)[c := old(channels)[c].(release := Closed, callbackPending := false)])
      ensures Core(Model(), {c})
    {
      MarkClosedCore(Model(), c);
      channels := channels[c := channels[c].(release := Closed, callbackPending := false)];
    }

    /** OnTcpCloseEvent: the channel is closed, and its listener forgets it. */
    method OnTcpCloseEvent(c: Id)
      requires Inv(Model()) && Enabled(Model(), ClosedStep(c))
      modifies `channels, `collection, `queue, `ticket
      ensures Model() == OnClosed(room, old(Model()), c) && Inv(Model())
    {
      ghost var s := Model();
      var owner := channels[c].acceptedBy;
      MarkClosed(c);
      if owner.Some? {
        var _ := RemoveAcceptedClient(owner.value, c, {c});
      }
      ClosedKeeps(room, s, c);
    }

    /** OnTcpListenEvent up to the user's callback; refused when the backlog or the manager is full. */
    method BeginAcceptClient(l: Id, c: Id) returns (ok: bool)
      requires Inv(Model()) && Enabled(Model(), BeginAcceptStep(l, c))
      modifies `channels, `collection, `accepting
      ensures Model() == BeginAccept(old(Model()), l, c) && Inv(Model())
      ensures collection == old(collection) + if ok then [c] else []
      ensures ok == (c in channels) && (ok ==> channels[c].acceptedBy == Some(l) && accepting == Some(Accept(l, c)))
      ensures ok == (old(|channels[l].accepted| < channels[l].backlog) && old(|collection|) < nbMax)
    {
      BeginAcceptKeeps(Model(), l, c);
      ok := |channels[l].accepted| < channels[l].backlog && |collection| < nbMax;
      if ok {
        channels := channels[c := Fresh(0, Some(l))];
        collection := collection + [c];
        accepting := Some(Accept(l, c));
      }
    }

    /** AddAcceptedChannel behind the user's callback, whatever was done in between: it finds room. */
    method EndAcceptClient() returns (ok: bool)
      requires Inv(Model()) && Enabled(Model(), EndAcceptStep)
      modifies `channels, `accepting
      ensures Model() == EndAccept(old(Model())) && Inv(Model())
      ensures ok
      ensures var Accept(l, c) := old(accepting).value;
        l in channels && channels[l].accepted == old(channels)[l].accepted + [c]
    {
      EndAcceptKeeps(Model());
      var Accept(l, c) := accepting.value;
      ok := |channels[l].accepted| < channels[l].backlog;
      if ok {
        channels := channels[l := channels[l].(accepted := channels[l].accepted + [c])];
      }
      accepting := None;
    }

    /** OnTcpListenEvent with a callback that touches no channel: the new client is managed and listed,
        or the accept is refused and nothing changes. */
    method OnTcpListenEvent(l: Id, c: Id) returns (ok: bool)
      requires Inv(Model()) && Enabled(Model(), BeginAcceptStep(l, c))
      modifies `channels, `collection, `accepting
      ensures Inv(Model())
      ensures ok == (old(|channels[l].accepted| < channels[l].backlog) && old(|collection|) < nbMax)
      ensures ok ==> Model() == EndAccept(BeginAccept(old(Model()), l, c))
      ensures !ok ==> Model() == old(Model())
    {
      ok := BeginAcceptClient(l, c);
      if ok {
        var added := EndAcceptClient();
      }
    }

    /** CloseListenerChannelAndItsAcceptedChannel: refused for a channel that does not listen. The
        loop always ends and nothing of the listener stays managed. */
    method CloseListenerAndClients(l: Id) returns (ok: bool)
      requires Inv(Model()) && l in channels
      modifies `channels, `collection, `queue, `ticket
      ensures ok == (old(channels)[l].backlog != 0)
      ensures !ok ==> Model() == old(Model())
      ensures Inv(Model()) && l in channels
      ensures ok ==> channels[l].accepted == [] && Released(Model(), l)
      ensures ok ==> forall c :: c in old(channels)[l].accepted ==> Released(Model(), c)
      ensures ok ==> AcceptedKnown(old(Model()), l) && Model() == CloseListener(room, old(Model()), l)
    {
      ok := channels[l].backlog != 0;
      if !ok {
        return;
      }
      ghost var s := Model();
      InvKnowsAccepted(s, l);
      ListenerClosesAll(room, s, l);
      while channels[l].accepted != []
        invariant Inv(Model()) && l in channels && AcceptedKnown(Model(), l)
        invariant RemoveAllAccepted(room, Model(), l) == RemoveAllAccepted(room, s, l)
        decreases |channels[l].accepted|
      {
        InvKnowsAccepted(RemoveAccepted(room, Model(), l, channels[l].accepted[0]), l) by {
          RemoveAcceptedCore(room, Model(), l, channels[l].accepted[0], {});
        }
        var _ := RemoveAcceptedClient(l, channels[l].accepted[0], {});
      }
      var _ := Remove(l, {});
    }

    /** One command of OnAsyncEvent. */
    method ExecuteNext(connected: bool, expired: bool)
      requires queue != [] && queue[0].c in channels
      modifies `channels, `queue
      ensures Model() == Execute(old(Model()), connected, expired)
    {
      var cmd := queue[0];
      queue := queue[1..];
      match cmd {
        case Disconnect(c, reuse) =>
          channels := channels[c := OnDisconnect(channels[c], reuse, connected, expired)];
        case ReleaseResource(c) =>
          channels := channels[c := OnRelease(channels[c])];
        case _ =>
      }
    }

    /** OnAsyncEvent: execute commands until the queue is empty. */
    method OnAsyncEvent(answer: nat -> (bool, bool))
      requires Inv(Model()) && !draining && accepting.None?
      modifies `channels, `queue, `draining
      ensures Inv(Model()) && !draining && queue == []
      ensures Model() == Drain(old(Model()).(draining := true), answer, 0).(draining := false)
    {
      DrainKeeps(Model(), true);
      draining := true;
      ghost var s := Model();
      var k := 0;
      while queue != []
        invariant Inv(Model()) && draining
        invariant Drain(Model(), answer, k) == Drain(s, answer, 0)
        decreases |queue|
      {
        assert queue[0] in queue;
        ExecuteKeeps(Model(), answer(k).0, answer(k).1);
        ExecuteNext(answer(k).0, answer(k).1);
        k := k + 1;
      }
      DrainKeeps(Model(), false);
      draining := false;
    }
  }
}
