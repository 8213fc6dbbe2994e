/** What every run of the release protocol keeps. */
module ReleaseSafety {
  import opened Basics
  import opened ReleaseProtocol

  // ---- Lists without duplicates ------------------------------------------------------------------

  predicate Distinct(s: seq<Id>) {
    s == [] || (s[0] !in s[1..] && Distinct(s[1..]))
  }

  lemma {:induction false} EraseDistinct(s: seq<Id>, x: Id)
    requires Distinct(s)
    ensures Distinct(Erase(s, x))
    ensures forall y :: y in Erase(s, x) <==> y in s && y != x
    ensures |Erase(s, x)| == if x in s then |s| - 1 else |s|
  {
    if s != [] {
      assert s == [s[0]] + s[1..];
      if s[0] != x {
        EraseDistinct(s[1..], x);
        assert Erase(s, x)[1..] == Erase(s[1..], x);
      }
    }
  }

  lemma {:induction false} SnocDistinct(s: seq<Id>, x: Id)
    requires Distinct(s) && x !in s
    ensures Distinct(s + [x])
  {
    if s != [] {
      SnocDistinct(s[1..], x);
      assert (s + [x])[1..] == s[1..] + [x];
    }
  }

  // ---- The invariant -------------------------------------------------------------------------------

  /** How many releases of `c` are queued. */
  function Queued(queue: seq<Command>, c: Id): nat {
    if queue == [] then 0 else Queued(queue[1..], c) + (if queue[0] == ReleaseResource(c) then 1 else 0)
  }

  lemma {:induction false} QueuedSnoc(queue: seq<Command>, cmd: Command, c: Id)
    ensures Queued(queue + [cmd], c) == Queued(queue, c) + if cmd == ReleaseResource(c) then 1 else 0
  {
    if queue == [] {
      assert (queue + [cmd])[1..] == [];
    } else {
      QueuedSnoc(queue[1..], cmd, c);
      assert (queue + [cmd])[1..] == queue[1..] + [cmd];
    }
  }

  /** The life of one channel: `managed` says whether it is in the manager's collection, `queued`
      how many releases of it are queued. A queued release and a handle that is already closing
      only meet inside a drain. */
  ghost predicate LifeOk(ch: Channel, managed: bool, queued: nat, draining: bool) {
    && queued <= ch.sent <= 1
    && match ch.release
       case Idle => managed && !ch.handleClosing && !ch.callbackPending && ch.sent == 0 && !ch.lost
       case Pending =>
         && ch.handleClosing == ch.callbackPending
         && (queued == 1 && ch.handleClosing ==> draining)
         && (queued == 1 || ch.callbackPending || ch.lost)
       case Closing => queued == 0 && ch.handleClosing && ch.callbackPending
       case Closed => queued == 0 && ch.handleClosing && !ch.callbackPending
  }

  ghost predicate Life(s: State) {
    forall c :: c in s.channels ==>
      LifeOk(s.channels[c], c in s.collection, Queued(s.queue, c), s.draining)
  }

  ghost predicate Lists(s: State) {
    && Distinct(s.collection)
    && |s.collection| <= s.nbMax
    && (forall c :: c in s.collection ==> c in s.channels)
    && (forall cmd :: cmd in s.queue ==> cmd.c in s.channels)
  }

  /** `c` may stand in the accepted list of `l`; only a channel in `closed` may already be closed. */
  ghost predicate MemberOk(chs: map<Id, Channel>, closed: set<Id>, l: Id, c: Id) {
    c in chs && chs[c].acceptedBy == Some(l) && (c in closed || chs[c].release != Closed)
  }

  ghost predicate ListenerOk(chs: map<Id, Channel>, closed: set<Id>, l: Id)
    requires l in chs
  {
    && |chs[l].accepted| <= chs[l].backlog
    && Distinct(chs[l].accepted)
    && (chs[l].acceptedBy.Some? ==> chs[l].acceptedBy.value in chs)
    && forall c :: c in chs[l].accepted ==> MemberOk(chs, closed, l, c)
  }

  ghost predicate Accepts(chs: map<Id, Channel>, closed: set<Id>) {
    forall l :: l in chs ==> ListenerOk(chs, closed, l)
  }

  ghost predicate AcceptOk(s: State) {
    s.accepting.Some? ==>
      var Accept(l, c) := s.accepting.value;
      && l in s.channels && MemberOk(s.channels, {}, l, c) && c !in s.channels[l].accepted
      && |s.channels[l].accepted| < s.channels[l].backlog
  }

  /** The invariant, except that the channels in `closed` may still be listed. */
  ghost predicate Core(s: State, closed: set<Id>) {
    Lists(s) && Life(s) && Accepts(s.channels, closed) && AcceptOk(s)
  }

  ghost predicate Inv(s: State) {
    Core(s, {})
  }

  /** No channel disappears and no release state moves back. */
  ghost predicate Forward(s: State, t: State) {
    forall c :: c in s.channels ==>
      && c in t.channels
      && s.channels[c].release.Rank() <= t.channels[c].release.Rank()
  }

  // ---- RemoveChannel -------------------------------------------------------------------------------

  /** Everything that RemoveChannel leaves alone. */
  ghost predicate RemovedFrom(s: State, t: State, c: Id)
    requires c in s.channels
  {
    && t.channels.Keys == s.channels.Keys
    && t.nbMax == s.nbMax && t.draining == s.draining && t.accepting == s.accepting
    && (forall d :: d in s.channels && d != c ==> t.channels[d] == s.channels[d])
    && t.channels[c].backlog == s.channels[c].backlog
    && t.channels[c].accepted == s.channels[c].accepted
    && t.channels[c].acceptedBy == s.channels[c].acceptedBy
    && (t.channels[c].release == Closed <==> s.channels[c].release == Closed)
    && t.channels[c].release != Idle
    && (forall y :: y in t.collection <==> y in s.collection && y != c)
    && Forward(s, t)
  }

  lemma RemoveFrame(room: nat -> bool, s: State, c: Id)
    requires Lists(s) && Life(s) && c in s.channels
    ensures RemovedFrom(s, RemoveChannel(room, s, c), c)
  {
    EraseDistinct(s.collection, c);
    assert LifeOk(s.channels[c], c in s.collection, Queued(s.queue, c), s.draining);
  }

  lemma RemoveKeepsLists(room: nat -> bool, s: State, c: Id)
    requires Lists(s) && c in s.channels
    ensures Lists(RemoveChannel(room, s, c))
  {
    EraseDistinct(s.collection, c);
  }

  lemma RemoveKeepsLife(room: nat -> bool, s: State, c: Id)
    requires Lists(s) && Life(s) && c in s.channels
    ensures Life(RemoveChannel(room, s, c))
  {
    var t := RemoveChannel(room, s, c);
    RemoveFrame(room, s, c);
    forall d | d in t.channels
      ensures LifeOk(t.channels[d], d in t.collection, Queued(t.queue, d), t.draining)
    {
      assert LifeOk(s.channels[d], d in s.collection, Queued(s.queue, d), s.draining);
      QueuedSnoc(s.queue, ReleaseResource(c), d);
    }
  }

  lemma RemovedKeepsAccepts(s: State, t: State, c: Id, closed: set<Id>)
    requires Accepts(s.channels, closed) && c in s.channels && RemovedFrom(s, t, c)
    ensures Accepts(t.channels, closed)
    ensures AcceptOk(s) ==> AcceptOk(t)
  {
    forall l | l in t.channels
      ensures ListenerOk(t.channels, closed, l)
    {
      assert ListenerOk(s.channels, closed, l);
      forall m | m in t.channels[l].accepted ensures MemberOk(t.channels, closed, l, m) {
        assert MemberOk(s.channels, closed, l, m);
      }
    }
  }

  // ---- Accepted lists --------------------------------------------------------------------------------

  /** What RemoveChannel followed by dropping `c` from the list of `l` may change. */
  ghost predicate Shrunk(s: State, t: State) {
    && t.channels.Keys == s.channels.Keys
    && t.draining == s.draining && t.accepting == s.accepting
    && (forall d :: d in s.channels ==> t.channels[d].acceptedBy == s.channels[d].acceptedBy)
    && (forall y :: y in t.collection ==> y in s.collection)
    && Forward(s, t)
  }

  ghost predicate Released(s: State, c: Id) {
    c in s.channels && c !in s.collection && s.channels[c].release != Idle
  }

  lemma UnlistKeepsLife(s: State, l: Id, c: Id)
    requires Life(s) && l in s.channels
    ensures Life(Unlist(s, l, c))
  {
    var t := Unlist(s, l, c);
    forall d | d in t.channels
      ensures LifeOk(t.channels[d], d in t.collection, Queued(t.queue, d), t.draining)
    {
      assert LifeOk(s.channels[d], d in s.collection, Queued(s.queue, d), s.draining);
    }
  }

  lemma UnlistKeepsAccepts(s: State, l: Id, c: Id, closed: set<Id>)
    requires Accepts(s.channels, closed) && l in s.channels
    ensures Accepts(Unlist(s, l, c).channels, closed)
    ensures c !in Unlist(s, l, c).channels[l].accepted
    ensures AcceptOk(s) ==> AcceptOk(Unlist(s, l, c))
  {
    var t := Unlist(s, l, c);
    assert ListenerOk(s.channels, closed, l);
    EraseDistinct(s.channels[l].accepted, c);
    forall k | k in t.channels
      ensures ListenerOk(t.channels, closed, k)
    {
      assert ListenerOk(s.channels, closed, k);
      forall m | m in t.channels[k].accepted ensures MemberOk(t.channels, closed, k, m) {
        assert MemberOk(s.channels, closed, k, m);
      }
    }
  }

  lemma RemoveCore(room: nat -> bool, s: State, c: Id, closed: set<Id>)
    requires Core(s, closed) && c in s.channels
    ensures Core(RemoveChannel(room, s, c), closed)
    ensures RemovedFrom(s, RemoveChannel(room, s, c), c)
  {
    RemoveFrame(room, s, c);
    RemoveKeepsLists(room, s, c);
    RemoveKeepsLife(room, s, c);
    RemovedKeepsAccepts(s, RemoveChannel(room, s, c), c, closed);
  }

  lemma UnlistCore(s: State, l: Id, c: Id, closed: set<Id>)
    requires Core(s, closed) && l in s.channels
    ensures Core(Unlist(s, l, c), closed)
    ensures c !in Unlist(s, l, c).channels[l].accepted
  {
    UnlistKeepsLife(s, l, c);
    UnlistKeepsAccepts(s, l, c, closed);
  }

  lemma RemoveAcceptedCore(room: nat -> bool, s: State, l: Id, c: Id, closed: set<Id>)
    requires Core(s, closed) && l in s.channels && c in s.channels
    ensures Core(RemoveAccepted(room, s, l, c), closed)
    ensures c !in RemoveAccepted(room, s, l, c).channels[l].accepted
  {
    if c in s.channels[l].accepted {
      RemoveCore(room, s, c, closed);
      UnlistCore(RemoveChannel(room, s, c), l, c, closed);
    }
  }

  lemma RemoveAcceptedShrinks(room: nat -> bool, s: State, l: Id, c: Id)
    requires Lists(s) && Life(s) && l in s.channels && c in s.channels
    ensures Shrunk(s, RemoveAccepted(room, s, l, c))
    ensures c in s.channels[l].accepted ==> Released(RemoveAccepted(room, s, l, c), c)
  {
    if c in s.channels[l].accepted {
      RemoveFrame(room, s, c);
      var t := RemoveChannel(room, s, c);
      assert Released(t, c);
      UnlistShrinks(t, l, c);
    }
  }

  lemma UnlistShrinks(s: State, l: Id, c: Id)
    requires l in s.channels
    ensures Shrunk(s, Unlist(s, l, c))
    ensures Released(s, c) ==> Released(Unlist(s, l, c), c)
  {
  }

  lemma ReleasedStays(s: State, t: State, c: Id)
    requires Released(s, c) && Shrunk(s, t)
    ensures Released(t, c)
  {
  }

  lemma {:induction false} RemoveAllAcceptedKeeps(room: nat -> bool, s: State, l: Id)
    requires Inv(s) && l in s.channels && AcceptedKnown(s, l)
    ensures var t := RemoveAllAccepted(room, s, l); Inv(t) && Shrunk(s, t) && t.channels[l].accepted == []
    decreases |s.channels[l].accepted|
  {
    var a := s.channels[l].accepted;
    if a != [] {
      RemoveAcceptedCore(room, s, l, a[0], {});
      RemoveAcceptedShrinks(room, s, l, a[0]);
      RemoveAllAcceptedKeeps(room, RemoveAccepted(room, s, l, a[0]), l);
    }
  }

  lemma {:induction false} RemoveAllAcceptedReleases(room: nat -> bool, s: State, l: Id, c: Id)
    requires Inv(s) && l in s.channels && AcceptedKnown(s, l) && c in s.channels[l].accepted
    ensures Released(RemoveAllAccepted(room, s, l), c)
    decreases |s.channels[l].accepted|
  {
    var a := s.channels[l].accepted;
    var u := RemoveAccepted(room, s, l, a[0]);
    RemoveAcceptedCore(room, s, l, a[0], {});
    RemoveAcceptedShrinks(room, s, l, a[0]);
    if c == a[0] {
      RemoveAllAcceptedKeeps(room, u, l);
      ReleasedStays(u, RemoveAllAccepted(room, u, l), c);
    } else {
      RemoveAllAcceptedReleases(room, u, l, c);
    }
  }

  lemma InvKnowsAccepted(s: State, l: Id)
    requires Inv(s) && l in s.channels
    ensures AcceptedKnown(s, l)
  {
    assert ListenerOk(s.channels, {}, l);
    forall c | c in s.channels[l].accepted ensures c in s.channels {
      assert MemberOk(s.channels, {}, l, c);
    }
  }

  lemma CloseListenerKeeps(room: nat -> bool, s: State, l: Id)
    requires Inv(s) && l in s.channels && AcceptedKnown(s, l)
    ensures var t := CloseListener(room, s, l);
      Inv(t) && Forward(s, t) && t.channels[l].accepted == [] && Released(t, l)
  {
    RemoveAllAcceptedKeeps(room, s, l);
    RemoveCore(room, RemoveAllAccepted(room, s, l), l, {});
  }

  lemma CloseListenerReleases(room: nat -> bool, s: State, l: Id, c: Id)
    requires Inv(s) && l in s.channels && AcceptedKnown(s, l) && c in s.channels[l].accepted
    ensures Released(CloseListener(room, s, l), c)
  {
    RemoveAllAcceptedKeeps(room, s, l);
    RemoveAllAcceptedReleases(room, s, l, c);
    RemoveFrame(room, RemoveAllAccepted(room, s, l), l);
  }

  /** Closing a listener always ends, with its accepted list empty and with the listener and every
      client it had out of the manager and on the way to be released, also those that somebody had
      already removed. */
  lemma ListenerClosesAll(room: nat -> bool, s: State, l: Id)
    requires Inv(s) && l in s.channels
    ensures AcceptedKnown(s, l)
    ensures var t := CloseListener(room, s, l);
      && t.channels[l].accepted == []
      && Released(t, l)
      && forall c :: c in s.channels[l].accepted ==> Released(t, c)
  {
    InvKnowsAccepted(s, l);
    CloseListenerKeeps(room, s, l);
    forall c | c in s.channels[l].accepted ensures Released(CloseListener(room, s, l), c) {
      CloseListenerReleases(room, s, l, c);
    }
  }

  // ---- Drains ---------------------------------------------------------------------------------------

  /** Only the release state and the two handle flags of `c` differ, and a closed channel is no
      longer an accepted one. */
  ghost predicate Aged(s: State, t: State, c: Id)
    requires c in s.channels
  {
    && t.channels.Keys == s.channels.Keys && t.accepting == s.accepting
    && (forall d :: d in s.channels && d != c ==> t.channels[d] == s.channels[d])
    && t.channels[c].backlog == s.channels[c].backlog
    && t.channels[c].accepted == s.channels[c].accepted
    && t.channels[c].acceptedBy == s.channels[c].acceptedBy
  }

  lemma AgedKeepsAccepts(s: State, t: State, c: Id, closed: set<Id>)
    requires Accepts(s.channels, {}) && c in s.channels && Aged(s, t, c)
    requires c in closed || t.channels[c].release != Closed || s.channels[c].release == Closed
    ensures Accepts(t.channels, closed)
    ensures AcceptOk(s) && (t.channels[c].release != Closed || s.channels[c].release == Closed) ==> AcceptOk(t)
  {
    forall l | l in t.channels
      ensures ListenerOk(t.channels, closed, l)
    {
      assert ListenerOk(s.channels, {}, l);
      forall m | m in t.channels[l].accepted ensures MemberOk(t.channels, closed, l, m) {
        assert MemberOk(s.channels, {}, l, m);
      }
    }
  }

  /** The release handler always finds a pending channel. */
  lemma ReleaseFindsPending(s: State)
    requires Inv(s) && s.queue != [] && s.queue[0].ReleaseResource?
    ensures s.queue[0].c in s.channels && s.channels[s.queue[0].c].release == Pending
  {
    var c := s.queue[0].c;
    assert s.queue[0] in s.queue;
    assert LifeOk(s.channels[c], c in s.collection, Queued(s.queue, c), s.draining);
    assert Queued(s.queue, c) >= 1;
  }

  lemma ExecuteKeepsLife(s: State, connected: bool, expired: bool)
    requires Inv(s) && s.draining && s.queue != [] && s.queue[0].c in s.channels
    ensures Life(Execute(s, connected, expired))
    ensures Forward(s, Execute(s, connected, expired))
    ensures Execute(s, connected, expired).channels[s.queue[0].c].release == Closed
        ==> s.channels[s.queue[0].c].release == Closed
  {
    var t := Execute(s, connected, expired);
    var c := s.queue[0].c;
    if s.queue[0].ReleaseResource? {
      ReleaseFindsPending(s);
    }
    assert LifeOk(s.channels[c], c in s.collection, Queued(s.queue, c), s.draining);
    forall d | d in t.channels
      ensures LifeOk(t.channels[d], d in t.collection, Queued(t.queue, d), t.draining)
    {
      assert LifeOk(s.channels[d], d in s.collection, Queued(s.queue, d), s.draining);
    }
  }

  lemma ExecuteKeeps(s: State, connected: bool, expired: bool)
    requires Inv(s) && s.draining && s.queue != [] && s.queue[0].c in s.channels
    ensures var t := Execute(s, connected, expired); Inv(t) && Forward(s, t)
  {
    var t := Execute(s, connected, expired);
    ExecuteKeepsLife(s, connected, expired);
    AgedKeepsAccepts(s, t, s.queue[0].c, {});
    assert forall cmd :: cmd in t.queue ==> cmd in s.queue;
  }

  lemma DrainKeeps(s: State, draining: bool)
    requires Inv(s) && (!draining ==> s.queue == [])
    ensures Inv(s.(draining := draining)) && Forward(s, s.(draining := draining))
  {
    var t := s.(draining := draining);
    forall d | d in t.channels
      ensures LifeOk(t.channels[d], d in t.collection, Queued(t.queue, d), t.draining)
    {
      assert LifeOk(s.channels[d], d in s.collection, Queued(s.queue, d), s.draining);
    }
  }

  /** The head of the queue makes the loop close the handle of its channel: a release always does, a
      disconnect only for a connected channel, in time and without reuse. */
  predicate ClosesHandle(cmd: Command, connected: bool, expired: bool) {
    match cmd
    case ReleaseResource(_) => true
    case Disconnect(_, reuse) => connected && !expired && !reuse
    case _ => false
  }

  /** In every run, what executing a command does to a channel: a handle that was not closing closes if
      and only if the command is for this channel and asks for it, and every other command leaves the
      channel as it was. */
  lemma ExecuteClosesIff(
      room: nat -> bool, nbMax: nat, states: seq<State>, steps: seq<Step>, i: nat, c: Id)
    requires IsRun(room, nbMax, states, steps) && i < |steps| && steps[i].ExecuteStep? && c in states[i].channels
    ensures var cmd := states[i].queue[0];
      var closes := cmd.c == c && ClosesHandle(cmd, steps[i].connected, steps[i].expired);
      && c in states[i + 1].channels
      && (!states[i].channels[c].handleClosing ==> (states[i + 1].channels[c].handleClosing <==> closes))
      && (!closes ==> states[i + 1].channels[c] == states[i].channels[c])
      && (closes && cmd.Disconnect? && !states[i].channels[c].handleClosing ==>
            states[i + 1].channels[c].release == Pending && states[i + 1].channels[c].callbackPending)
      && (closes && cmd.ReleaseResource? ==>
            states[i + 1].channels[c].release == Closing && states[i + 1].channels[c].callbackPending)
  {
    RunKeeps(room, nbMax, states, steps, i);
    StepKeeps(room, states[i], steps[i]);
    ExecutedIs(states[i], steps[i].connected, steps[i].expired, c);
  }

  lemma ExecutedIs(s: State, connected: bool, expired: bool, c: Id)
    requires Inv(s) && s.draining && s.queue != [] && s.queue[0].c in s.channels && c in s.channels
    ensures var cmd, t := s.queue[0], Execute(s, connected, expired);
      var closes := cmd.c == c && ClosesHandle(cmd, connected, expired);
      && (!s.channels[c].handleClosing ==> (t.channels[c].handleClosing <==> closes))
      && (!closes ==> t.channels[c] == s.channels[c])
      && (closes && cmd.Disconnect? && !s.channels[c].handleClosing ==>
            t.channels[c].release == Pending && t.channels[c].callbackPending)
      && (closes && cmd.ReleaseResource? ==> t.channels[c].release == Closing && t.channels[c].callbackPending)
  {
    assert LifeOk(s.channels[c], c in s.collection, Queued(s.queue, c), s.draining);
    if s.queue[0] == ReleaseResource(c) {
      ReleaseFindsPending(s);
    }
  }

  // ---- The close callback ---------------------------------------------------------------------------

  lemma MarkClosedCore(s: State, c: Id)
    requires Inv(s) && c in s.channels && s.channels[c].callbackPending && !s.draining && s.accepting.None?
    ensures var t := s.(channels := s.channels[c := s.channels[c].(release := Closed, callbackPending := false)]);
      Core(t, {c}) && Forward(s, t)
  {
    var t := s.(channels := s.channels[c := s.channels[c].(release := Closed, callbackPending := false)]);
    assert LifeOk(s.channels[c], c in s.collection, Queued(s.queue, c), s.draining);
    forall d | d in t.channels
      ensures LifeOk(t.channels[d], d in t.collection, Queued(t.queue, d), t.draining)
    {
      assert LifeOk(s.channels[d], d in s.collection, Queued(s.queue, d), s.draining);
    }
    AgedKeepsAccepts(s, t, c, {c});
  }

  /** A channel can only be listed by the listener that accepted it. */
  lemma UnlistedIsClean(s: State, c: Id)
    requires Accepts(s.channels, {c}) && c in s.channels
    requires s.channels[c].acceptedBy.Some? && s.channels[c].acceptedBy.value in s.channels
          ==> c !in s.channels[s.channels[c].acceptedBy.value].accepted
    ensures Accepts(s.channels, {})
  {
    forall l | l in s.channels ensures ListenerOk(s.channels, {}, l) {
      assert ListenerOk(s.channels, {c}, l);
      forall m | m in s.channels[l].accepted ensures MemberOk(s.channels, {}, l, m) {
        assert MemberOk(s.channels, {c}, l, m);
      }
    }
  }

  /** A closed channel is listed by no listener. */
  lemma ClosedIsUnlisted(s: State, c: Id)
    requires Accepts(s.channels, {}) && c in s.channels && s.channels[c].release == Closed
    ensures forall l :: l in s.channels ==> c !in s.channels[l].accepted
  {
    forall l | l in s.channels ensures c !in s.channels[l].accepted {
      assert ListenerOk(s.channels, {}, l);
      assert c in s.channels[l].accepted ==> MemberOk(s.channels, {}, l, c);
    }
  }

  lemma ClosedKeeps(room: nat -> bool, s: State, c: Id)
    requires Inv(s) && Enabled(s, ClosedStep(c))
    ensures var t := OnClosed(room, s, c); Inv(t) && Forward(s, t)
  {
    var u := s.(channels := s.channels[c := s.channels[c].(release := Closed, callbackPending := false)]);
    MarkClosedCore(s, c);
    if s.channels[c].acceptedBy.Some? {
      var l := s.channels[c].acceptedBy.value;
      RemoveAcceptedCore(room, u, l, c, {c});
      RemoveAcceptedShrinks(room, u, l, c);
      UnlistedIsClean(RemoveAccepted(room, u, l, c), c);
    } else {
      UnlistedIsClean(u, c);
    }
  }

  /** After its close callback a channel is closed, for good, and no listener lists it. */
  lemma ClosedEnds(room: nat -> bool, s: State, c: Id)
    requires Inv(s) && Enabled(s, ClosedStep(c))
    ensures var t := OnClosed(room, s, c);
      && c in t.channels && t.channels[c].release == Closed && !t.channels[c].callbackPending
      && forall l :: l in t.channels ==> c !in t.channels[l].accepted
  {
    ClosedKeeps(room, s, c);
    ClosedIsUnlisted(OnClosed(room, s, c), c);
  }

  // ---- New channels and commands ----------------------------------------------------------------------

  lemma {:induction false} UnknownIsNotQueued(queue: seq<Command>, c: Id)
    requires forall cmd :: cmd in queue ==> cmd.c != c
    ensures Queued(queue, c) == 0
  {
    if queue != [] {
      assert queue[0] in queue;
      UnknownIsNotQueued(queue[1..], c);
    }
  }

  lemma AddKeepsAccepts(chs: map<Id, Channel>, c: Id, backlog: nat, owner: Option<Id>)
    requires Accepts(chs, {}) && c !in chs && (owner.Some? ==> owner.value in chs)
    ensures Accepts(chs[c := Fresh(backlog, owner)], {})
  {
    var more := chs[c := Fresh(backlog, owner)];
    forall l | l in more ensures ListenerOk(more, {}, l) {
      if l in chs {
        assert ListenerOk(chs, {}, l);
        forall m | m in more[l].accepted ensures MemberOk(more, {}, l, m) {
          assert MemberOk(chs, {}, l, m);
        }
      }
    }
  }

  lemma AddKeepsLife(s: State, c: Id, backlog: nat, owner: Option<Id>)
    requires Lists(s) && Life(s) && c !in s.channels
    ensures Life(AddChannel(s, c, backlog, owner))
  {
    var t := AddChannel(s, c, backlog, owner);
    UnknownIsNotQueued(s.queue, c);
    forall d | d in t.channels
      ensures LifeOk(t.channels[d], d in t.collection, Queued(t.queue, d), t.draining)
    {
      if d != c {
        assert LifeOk(s.channels[d], d in s.collection, Queued(s.queue, d), s.draining);
      }
    }
  }

  lemma AddKeeps(s: State, c: Id, backlog: nat, owner: Option<Id>)
    requires Inv(s) && c !in s.channels && (owner.Some? ==> owner.value in s.channels)
    ensures var t := AddChannel(s, c, backlog, owner); Inv(t) && Forward(s, t)
  {
    SnocDistinct(s.collection, c);
    AddKeepsLife(s, c, backlog, owner);
    AddKeepsAccepts(s.channels, c, backlog, owner);
  }

  lemma SendKeeps(room: nat -> bool, s: State, cmd: Command)
    requires Inv(s) && cmd.c in s.channels && !cmd.ReleaseResource?
    ensures var t := Send(room, s, cmd); Inv(t) && Forward(s, t)
  {
    var t := Send(room, s, cmd);
    forall d | d in t.channels
      ensures LifeOk(t.channels[d], d in t.collection, Queued(t.queue, d), t.draining)
    {
      assert LifeOk(s.channels[d], d in s.collection, Queued(s.queue, d), s.draining);
      QueuedSnoc(s.queue, cmd, d);
    }
  }

  lemma BeginAcceptKeeps(s: State, l: Id, c: Id)
    requires Inv(s) && Enabled(s, BeginAcceptStep(l, c))
    ensures var t := BeginAccept(s, l, c); Inv(t) && Forward(s, t)
  {
    if |s.channels[l].accepted| < s.channels[l].backlog && |s.collection| < s.nbMax {
      AddKeeps(s, c, 0, Some(l));
      var u := AddChannel(s, c, 0, Some(l));
      assert c !in s.channels[l].accepted by {
        assert ListenerOk(s.channels, {}, l);
        assert c in s.channels[l].accepted ==> MemberOk(s.channels, {}, l, c);
      }
      SetAccepting(u, Accept(l, c));
    }
  }

  lemma SetAccepting(s: State, a: Accept)
    requires Inv(s) && AcceptOk(s.(accepting := Some(a)))
    ensures Inv(s.(accepting := Some(a)))
  {
    var t := s.(accepting := Some(a));
    forall d | d in t.channels
      ensures LifeOk(t.channels[d], d in t.collection, Queued(t.queue, d), t.draining)
    {
      assert LifeOk(s.channels[d], d in s.collection, Queued(s.queue, d), s.draining);
    }
  }

  lemma EnlistAccepts(chs: map<Id, Channel>, l: Id, c: Id)
    requires Accepts(chs, {}) && l in chs && MemberOk(chs, {}, l, c)
    requires c !in chs[l].accepted && |chs[l].accepted| < chs[l].backlog
    ensures Accepts(chs[l := chs[l].(accepted := chs[l].accepted + [c])], {})
  {
    var more := chs[l := chs[l].(accepted := chs[l].accepted + [c])];
    assert ListenerOk(chs, {}, l);
    SnocDistinct(chs[l].accepted, c);
    forall k | k in more ensures ListenerOk(more, {}, k) {
      assert ListenerOk(chs, {}, k);
      forall m | m in more[k].accepted ensures MemberOk(more, {}, k, m) {
        assert MemberOk(chs, {}, k, m);
      }
    }
  }

  lemma EndAcceptKeeps(s: State)
    requires Inv(s) && Enabled(s, EndAcceptStep)
    ensures var t := EndAccept(s); Inv(t) && Forward(s, t)
  {
    var t := EndAccept(s);
    EnlistAccepts(s.channels, s.accepting.value.listener, s.accepting.value.client);
    forall d | d in t.channels
      ensures LifeOk(t.channels[d], d in t.collection, Queued(t.queue, d), t.draining)
    {
      assert LifeOk(s.channels[d], d in s.collection, Queued(s.queue, d), s.draining);
    }
  }

  // ---- Every run --------------------------------------------------------------------------------------

  lemma StepKeeps(room: nat -> bool, s: State, step: Step)
    requires Inv(s) && Enabled(s, step)
    ensures Inv(Apply(room, s, step)) && Forward(s, Apply(room, s, step))
  {
    match step
    case AddStep(c, backlog) => AddKeeps(s, c, backlog, None);
    case RemoveStep(c) => RemoveCore(room, s, c, {});
    case SendStep(cmd) => SendKeeps(room, s, cmd);
    case BeginDrainStep => DrainKeeps(s, true);
    case ExecuteStep(connected, expired) => ExecuteKeeps(s, connected, expired);
    case EndDrainStep => DrainKeeps(s, false);
    case ClosedStep(c) => ClosedKeeps(room, s, c);
    case BeginAcceptStep(l, c) => BeginAcceptKeeps(s, l, c);
    case EndAcceptStep => EndAcceptKeeps(s);
    case DropAcceptedStep(c) =>
      RemoveAcceptedCore(room, s, s.channels[c].acceptedBy.value, c, {});
      RemoveAcceptedShrinks(room, s, s.channels[c].acceptedBy.value, c);
    case CloseListenerStep(l) => CloseListenerKeeps(room, s, l);
  }

  lemma InitKeeps(nbMax: nat)
    ensures Inv(Init(nbMax))
  {
  }

  lemma {:induction false} RunKeeps(room: nat -> bool, nbMax: nat, states: seq<State>, steps: seq<Step>, i: nat)
    requires IsRun(room, nbMax, states, steps) && i < |states|
    ensures Inv(states[i])
  {
    if i == 0 {
      InitKeeps(nbMax);
    } else {
      RunKeeps(room, nbMax, states, steps, i - 1);
      StepKeeps(room, states[i - 1], steps[i - 1]);
    }
  }

  lemma RunStepForward(room: nat -> bool, nbMax: nat, states: seq<State>, steps: seq<Step>, i: nat)
    requires IsRun(room, nbMax, states, steps) && i < |steps|
    ensures Forward(states[i], states[i + 1])
  {
    RunKeeps(room, nbMax, states, steps, i);
    StepKeeps(room, states[i], steps[i]);
  }

  lemma ForwardTrans(s: State, t: State, u: State)
    requires Forward(s, t) && Forward(t, u)
    ensures Forward(s, u)
  {
  }

  /** In every run, between any two moments, no release state moves back. */
  lemma {:induction false} ReleaseOnlyMovesForward(
      room: nat -> bool, nbMax: nat, states: seq<State>, steps: seq<Step>, i: nat, j: nat)
    requires IsRun(room, nbMax, states, steps) && i <= j < |states|
    ensures Forward(states[i], states[j])
    decreases j
  {
    if i < j {
      ReleaseOnlyMovesForward(room, nbMax, states, steps, i, j - 1);
      RunStepForward(room, nbMax, states, steps, j - 1);
      ForwardTrans(states[i], states[j - 1], states[j]);
    }
  }

  /** Removing an idle, managed channel queues its release behind everything else, unless the queue
      refuses it, and only then is the release lost. */
  lemma RemoveQueuesRelease(
      room: nat -> bool, nbMax: nat, states: seq<State>, steps: seq<Step>, i: nat, c: Id)
    requires IsRun(room, nbMax, states, steps) && i < |steps| && steps[i] == RemoveStep(c)
    requires states[i].channels[c].release == Idle
    ensures var s, t := states[i], states[i + 1];
      && c in t.channels && t.channels[c].release == Pending && c !in t.collection
      && t.queue == s.queue + (if room(s.ticket + 1) then [ReleaseResource(c)] else [])
      && t.channels[c].lost == !room(s.ticket + 1)
  {
    RunKeeps(room, nbMax, states, steps, i);
    var s := states[i];
    assert LifeOk(s.channels[c], c in s.collection, Queued(s.queue, c), s.draining);
    RemoveCore(room, s, c, {});
  }

  /** In every run a channel is added exactly when the manager has room, idle and with the backlog it was
      given; a client is accepted with no backlog, under its listener. */
  lemma AddedAsGiven(
      room: nat -> bool, nbMax: nat, states: seq<State>, steps: seq<Step>, i: nat)
    requires IsRun(room, nbMax, states, steps) && i < |steps|
    ensures steps[i].AddStep? ==> var s, t, c := states[i], states[i + 1], steps[i].id;
      && (c in t.channels <==> |s.collection| < nbMax)
      && t.collection == s.collection + (if |s.collection| < nbMax then [c] else [])
      && (c in t.channels ==> t.channels[c].release == Idle && t.channels[c].backlog == steps[i].backlog)
      && (c in t.channels ==> t.channels[c].accepted == [] && t.channels[c].acceptedBy == None)
    ensures steps[i].BeginAcceptStep? ==> var s, t, l, c := states[i], states[i + 1], steps[i].listener, steps[i].id;
      && (c in t.channels <==> |s.channels[l].accepted| < s.channels[l].backlog && |s.collection| < nbMax)
      && (c in t.channels ==> t.channels[c].release == Idle && t.channels[c].backlog == 0)
      && (c in t.channels ==> t.channels[c].acceptedBy == Some(l) && t.collection == s.collection + [c])
  {
    RunLimit(room, nbMax, states, steps, i);
  }

  lemma {:induction false} RunLimit(room: nat -> bool, nbMax: nat, states: seq<State>, steps: seq<Step>, i: nat)
    requires IsRun(room, nbMax, states, steps) && i < |states|
    ensures states[i].nbMax == nbMax
  {
    if i > 0 {
      RunLimit(room, nbMax, states, steps, i - 1);
      RunKeeps(room, nbMax, states, steps, i - 1);
      StepLimit(room, states[i - 1], steps[i - 1]);
    }
  }

  lemma StepLimit(room: nat -> bool, s: State, step: Step)
    requires Inv(s) && Enabled(s, step)
    ensures Apply(room, s, step).nbMax == s.nbMax
  {
    match step
    case RemoveStep(c) => RemoveLimit(room, s, c);
    case ClosedStep(c) =>
      if s.channels[c].acceptedBy.Some? {
        var t := s.(channels := s.channels[c := s.channels[c].(release := Closed, callbackPending := false)]);
        RemoveAcceptedLimit(room, t, s.channels[c].acceptedBy.value, c);
      }
    case DropAcceptedStep(c) => RemoveAcceptedLimit(room, s, s.channels[c].acceptedBy.value, c);
    case CloseListenerStep(l) =>
      RemoveAllLimit(room, s, l);
      RemoveLimit(room, RemoveAllAccepted(room, s, l), l);
    case _ =>
  }

  lemma RemoveLimit(room: nat -> bool, s: State, c: Id)
    requires c in s.channels
    ensures RemoveChannel(room, s, c).nbMax == s.nbMax
  {
  }

  lemma RemoveAcceptedLimit(room: nat -> bool, s: State, l: Id, c: Id)
    requires l in s.channels && c in s.channels
    ensures RemoveAccepted(room, s, l, c).nbMax == s.nbMax
  {
    RemoveLimit(room, s, c);
  }

  lemma {:induction false} RemoveAllLimit(room: nat -> bool, s: State, l: Id)
    requires l in s.channels && AcceptedKnown(s, l)
    ensures RemoveAllAccepted(room, s, l).nbMax == s.nbMax
    decreases |s.channels[l].accepted|
  {
    var a := s.channels[l].accepted;
    if a != [] {
      RemoveAcceptedLimit(room, s, l, a[0]);
      RemoveAllLimit(room, RemoveAccepted(room, s, l, a[0]), l);
    }
  }

  /** In every run the release handler only ever runs on a pending channel, whatever was queued
      before the release. */
  lemma HandlerFindsPending(room: nat -> bool, nbMax: nat, states: seq<State>, steps: seq<Step>, i: nat)
    requires IsRun(room, nbMax, states, steps) && i < |steps|
    requires steps[i].ExecuteStep? && states[i].queue[0].ReleaseResource?
    ensures states[i].channels[states[i].queue[0].c].release == Pending
  {
    RunKeeps(room, nbMax, states, steps, i);
    ReleaseFindsPending(states[i]);
  }

  /** What any client of the manager can rely on at any moment: at most one release was ever queued
      per channel, an idle channel is still managed, nothing exceeds its limit, and a listed client
      is managed or already on its way out, but never closed. */
  lemma AlwaysAccountedFor(
      room: nat -> bool, nbMax: nat, states: seq<State>, steps: seq<Step>, i: nat, c: Id)
    requires IsRun(room, nbMax, states, steps) && i < |states| && c in states[i].channels
    ensures var s := states[i]; var ch := s.channels[c];
      && ch.sent <= 1 && Queued(s.queue, c) <= 1
      && (ch.release == Idle ==> c in s.collection)
      && |s.collection| <= s.nbMax && |ch.accepted| <= ch.backlog
      && forall m :: m in ch.accepted ==>
           m in s.channels && s.channels[m].release != Closed && (m in s.collection || s.channels[m].release != Idle)
  {
    RunKeeps(room, nbMax, states, steps, i);
    var s := states[i];
    assert LifeOk(s.channels[c], c in s.collection, Queued(s.queue, c), s.draining);
    assert ListenerOk(s.channels, {}, c);
    forall m | m in s.channels[c].accepted
      ensures m in s.channels && s.channels[m].release != Closed
      ensures m in s.collection || s.channels[m].release != Idle
    {
      assert MemberOk(s.channels, {}, c, m);
      assert LifeOk(s.channels[m], m in s.collection, Queued(s.queue, m), s.draining);
    }
  }

  /** The second half of an accept always finds room in the listener's list: whatever other threads
      did since the first half, the list can only have become shorter. */
  lemma AcceptAlwaysSucceeds(room: nat -> bool, nbMax: nat, states: seq<State>, steps: seq<Step>, i: nat)
    requires IsRun(room, nbMax, states, steps) && i < |steps| && steps[i].EndAcceptStep?
    ensures var Accept(l, c) := states[i].accepting.value;
      states[i + 1].channels[l].accepted == states[i].channels[l].accepted + [c]
  {
    RunKeeps(room, nbMax, states, steps, i);
  }

  /** When the loop has nothing left to do, no channel is stuck half-way: each is idle or closed,
      unless the queue refused its release. */
  lemma NothingStuck(room: nat -> bool, nbMax: nat, states: seq<State>, steps: seq<Step>, i: nat, c: Id)
    requires IsRun(room, nbMax, states, steps) && i < |states| && c in states[i].channels
    requires states[i].queue == [] && !states[i].channels[c].callbackPending
    ensures var ch := states[i].channels[c]; ch.release == Idle || ch.release == Closed || ch.lost
  {
    RunKeeps(room, nbMax, states, steps, i);
    var s := states[i];
    assert LifeOk(s.channels[c], c in s.collection, Queued(s.queue, c), s.draining);
  }

  /** A moment inside a drain: the disconnect of channel 0 has been executed, its handle is closing,
      and the release that was queued behind it comes next. */
  const MID_DRAIN := State(
    1, map[0 := Channel(Pending, true, true, 0, [], None, 1, false)], [], [ReleaseResource(0)], 2, true, None)

  lemma MidDrainIsReachable(room: nat -> bool) returns (states: seq<State>, steps: seq<Step>)
    requires room(1) && room(2)
    ensures IsRun(room, 1, states, steps) && states[|steps|] == MID_DRAIN
  {
    var added := State(1, map[0 := Fresh(0, None)], [0], [], 0, false, None);
    var sent := added.(queue := [Disconnect(0, false)], ticket := 1);
    var removed := State(
      1, map[0 := Channel(Pending, false, false, 0, [], None, 1, false)], [],
      [Disconnect(0, false), ReleaseResource(0)], 2, false, None);
    states := [Init(1), added, sent, removed, removed.(draining := true), MID_DRAIN];
    steps := [AddStep(0, 0), SendStep(Disconnect(0, false)), RemoveStep(0), BeginDrainStep, ExecuteStep(true, false)];
    assert Apply(room, Init(1), steps[0]) == added;
    assert Apply(room, added, steps[1]) == sent;
    assert Apply(room, sent, steps[2]) == removed;
    assert Apply(room, removed.(draining := true), steps[4]) == MID_DRAIN;
  }

  /** The granularity matters. In that reachable moment the close callback is disabled; if it could
      fire all the same, the release handler would find a closed channel and move it back. */
  lemma EarlyCallbackMovesBack(room: nat -> bool)
    ensures !Enabled(MID_DRAIN, ClosedStep(0)) && Enabled(MID_DRAIN.(draining := false), ClosedStep(0))
    ensures var early := OnClosed(room, MID_DRAIN, 0);
      && early.channels[0].release == Closed
      && early.queue == [ReleaseResource(0)]
      && Execute(early, true, false).channels[0].release == Closing
  {
    var early := OnClosed(room, MID_DRAIN, 0);
    assert early.channels == map[0 := Channel(Closed, true, false, 0, [], None, 1, false)];
  }

  /** SendStep leaves out the release command, which only RemoveChannel sends. A client that queued one
      itself would let the handler find an idle channel, and close it while it is still managed. */
  lemma OutsideReleaseFindsIdle(room: nat -> bool, s: State, c: Id)
    requires Inv(s) && c in s.channels && s.channels[c].release == Idle && s.queue == [] && room(s.ticket + 1)
    ensures var t := Send(room, s, ReleaseResource(c));
      && t.queue == [ReleaseResource(c)] && t.channels[c].release == Idle
      && Execute(t, true, false).channels[c].release == Closing && c in Execute(t, true, false).collection
  {
    assert LifeOk(s.channels[c], c in s.collection, Queued(s.queue, c), s.draining);
  }
}
