/** The timeout of an asynchronous connect: the engine lowers the caller's timeout by one timer period
    so that it is the first to signal CONNECT_TIMEOUT. Times are in milliseconds; the program only
    sees them on a 32-bit tick counter that goes round. */
module ConnectDeadline {
  import opened Basics

  const TIMER_GRANULARITY := 100
  const MIN_TIMEOUT := 2 * TIMER_GRANULARITY

  /** Bof_GetMsTickCount */
  function Clock(now: nat): nat {
    now % U32_RANGE
  }

  /** Bof_ElapsedMsTime: the distance on the counter. */
  function Elapsed(clock: nat, now: nat): nat
    requires clock < U32_RANGE
  {
    (Clock(now) + U32_RANGE - clock) % U32_RANGE
  }

  /** The counter going round does not matter while less than a full turn has passed. */
  lemma ElapsedIs(start: nat, now: nat)
    requires start <= now < start + U32_RANGE
    ensures Elapsed(Clock(start), now) == now - start
  {
  }

  datatype SocketState = Disconnected | Connecting | ConnectTimeout

  datatype Connection = Connection(state: SocketState, clock: nat, timeout: nat)

  /** SendAsyncConnectCmd refuses a timeout below two timer periods. */
  predicate Accepted(timeout: nat) {
    MIN_TIMEOUT <= timeout < U32_RANGE
  }

  /** OnAsyncConnect at time `now`. The subtraction is the one of the program, on 32 bits. */
  function OnConnect(clock: nat, timeout: nat, now: nat): Connection
    requires clock < U32_RANGE && timeout < U32_RANGE
  {
    var margin := (timeout + U32_RANGE - TIMER_GRANULARITY) % U32_RANGE;
    Connection(if Elapsed(clock, now) >= timeout then ConnectTimeout else Connecting, clock, margin)
  }

  /** OnTimerEvent at time `now`. */
  function OnTimer(c: Connection, now: nat): Connection
    requires c.clock < U32_RANGE
  {
    if c.state == Connecting && Elapsed(c.clock, now) >= c.timeout then c.(state := ConnectTimeout) else c
  }

  /** A tick signals a connect in progress exactly when its time is up, and changes nothing else: not the
      start, not the timeout, and nothing at all on a channel that is not connecting. */
  lemma TickSignalsIff(c: Connection, start: nat, now: nat)
    requires c.clock == Clock(start) && start <= now < start + U32_RANGE
    ensures OnTimer(c, now) ==
      if c.state == Connecting && now >= start + c.timeout then Connection(ConnectTimeout, c.clock, c.timeout) else c
  {
    ElapsedIs(start, now);
  }

  /** When a connect that never completes is signalled, given the timer ticks after it was dequeued. */
  function Signalled(c: Connection, ticks: seq<nat>): Option<nat>
    requires c.clock < U32_RANGE
    decreases ticks
  {
    if ticks == [] then None
    else if OnTimer(c, ticks[0]).state == ConnectTimeout then Some(ticks[0])
    else Signalled(OnTimer(c, ticks[0]), ticks[1..])
  }

  /** Ticks that follow one at time `previous`, at most one period apart, not before `from`. */
  ghost predicate Regular(previous: nat, from: nat, ticks: seq<nat>)
    decreases ticks
  {
    ticks == [] ||
    (&& from <= ticks[0] && previous <= ticks[0] <= previous + TIMER_GRANULARITY
     && Regular(ticks[0], from, ticks[1..]))
  }

  /** Timeouts from 200 ms on are accepted, and for those the margin of 100 ms never underflows. */
  lemma MarginIsLower(clock: nat, timeout: nat, now: nat)
    requires clock < U32_RANGE && timeout < U32_RANGE
    ensures Accepted(timeout) <==> timeout >= 200
    ensures Accepted(timeout) ==> OnConnect(clock, timeout, now).timeout == timeout - 100 >= 100
  {
  }

  /** A connect in progress is signalled by the first tick in its last period. */
  lemma {:induction false} FirstTickSignals(start: nat, timeout: nat, previous: nat, from: nat, ticks: seq<nat>)
    requires Accepted(timeout) && start <= from
    requires previous < start + timeout - TIMER_GRANULARITY
    requires Regular(previous, from, ticks)
    requires ticks != [] && ticks[|ticks| - 1] >= start + timeout - TIMER_GRANULARITY
    ensures var r := Signalled(Connection(Connecting, Clock(start), timeout - TIMER_GRANULARITY), ticks);
      r.Some? && start + timeout - TIMER_GRANULARITY <= r.value < start + timeout
    decreases ticks
  {
    var t := ticks[0];
    ElapsedIs(start, t);
    if t < start + timeout - TIMER_GRANULARITY {
      FirstTickSignals(start, timeout, t, from, ticks[1..]);
    }
  }

  /** The engine is first: whatever regular ticks follow, a connect that was dequeued at `now` and
      stays in progress is signalled strictly before the caller's own deadline. */
  ghost predicate EngineIsFirst(start: nat, timeout: nat, previous: nat, now: nat)
    requires timeout < U32_RANGE
  {
    forall ticks: seq<nat> ::
      Regular(previous, now, ticks) && ticks != [] && ticks[|ticks| - 1] >= start + timeout - TIMER_GRANULARITY ==>
        var r := Signalled(OnConnect(Clock(start), timeout, now), ticks);
        r.Some? && r.value < start + timeout
  }

  /** That is so exactly when the last tick before the dequeue came before the margin began. The tick
      that falls on the margin itself and runs just ahead of the dequeue is the one that spoils it:
      the next one may come no earlier than the caller's deadline. */
  lemma EngineIsFirstIff(start: nat, timeout: nat, previous: nat, now: nat)
    requires Accepted(timeout) && start <= now && previous <= now <= previous + TIMER_GRANULARITY
    requires now < start + timeout
    ensures EngineIsFirst(start, timeout, previous, now) <==> previous < start + timeout - TIMER_GRANULARITY
  {
    MarginIsLower(Clock(start), timeout, now);
    ElapsedIs(start, now);
    var c := OnConnect(Clock(start), timeout, now);
    if previous < start + timeout - TIMER_GRANULARITY {
      forall ticks: seq<nat> |
        Regular(previous, now, ticks) && ticks != [] && ticks[|ticks| - 1] >= start + timeout - TIMER_GRANULARITY
        ensures var r := Signalled(c, ticks); r.Some? && r.value < start + timeout
      {
        FirstTickSignals(start, timeout, previous, now, ticks);
      }
    } else {
      var ticks := [previous + TIMER_GRANULARITY];
      assert Regular(previous, now, ticks);
      LateTickSignals(start, timeout, ticks[0]);
    }
  }

  lemma LateTickSignals(start: nat, timeout: nat, t: nat)
    requires Accepted(timeout) && start + timeout <= t < start + timeout + TIMER_GRANULARITY
    ensures var r := Signalled(Connection(Connecting, Clock(start), timeout - TIMER_GRANULARITY), [t]);
      !(r.Some? && r.value < start + timeout)
  {
  }

  /** The failing moment: the command is dequeued at the start of the margin, just behind a tick. */
  lemma TickOnMarginSpoils(start: nat, timeout: nat)
    requires Accepted(timeout)
    ensures var margin := start + timeout - TIMER_GRANULARITY; !EngineIsFirst(start, timeout, margin, margin)
  {
    var margin := start + timeout - TIMER_GRANULARITY;
    EngineIsFirstIff(start, timeout, margin, margin);
  }

  /** In terms of the dequeue alone: before the margin is early enough, whenever the last tick was. */
  lemma DequeuedInTime(start: nat, timeout: nat, previous: nat, now: nat)
    requires Accepted(timeout) && start <= now && previous <= now <= previous + TIMER_GRANULARITY
    requires now < start + timeout - TIMER_GRANULARITY
    ensures EngineIsFirst(start, timeout, previous, now)
  {
    EngineIsFirstIff(start, timeout, previous, now);
  }

  class ConnectTimer {
    var state: SocketState
    var clock: nat
    var timeout: nat

    ghost function Model(): Connection
      reads this
    {
      Connection(state, clock, timeout)
    }

    constructor ()
      ensures Model() == Connection(Disconnected, 0, 0)
    {
      state, clock, timeout := Disconnected, 0, 0;
    }

    method OnAsyncConnect(startClock: nat, wanted: nat, now: nat)
      requires startClock < U32_RANGE && wanted < U32_RANGE
      modifies this
      ensures Model() == OnConnect(startClock, wanted, now)
    {
      clock := startClock;
      timeout := (wanted + U32_RANGE - TIMER_GRANULARITY) % U32_RANGE;
      if Elapsed(startClock, now) >= wanted {
        state := ConnectTimeout;
      } else {
        state := Connecting;
      }
    }

    method OnTimerEvent(now: nat)
      requires clock < U32_RANGE
      modifies `state
      ensures Model() == OnTimer(old(Model()), now)
    {
      if state == Connecting {
        if Elapsed(clock, now) >= timeout {
          state := ConnectTimeout;
        }
      }
    }

    /** The timer ticks of a connect that never completes, until one of them signals the timeout. */
    method TickUntilSignalled(ticks: seq<nat>) returns (signalled: Option<nat>)
      requires state == Connecting && clock < U32_RANGE
      modifies `state
      ensures signalled == Signalled(old(Model()), ticks)
      ensures state == if signalled.Some? then ConnectTimeout else Connecting
    {
      assert ticks[0..] == ticks;
      for i := 0 to |ticks|
        invariant state == Connecting && Model() == old(Model())
        invariant Signalled(Model(), ticks[i..]) == Signalled(old(Model()), ticks)
      {
        assert ticks[i..][0] == ticks[i] && ticks[i..][1..] == ticks[i + 1..];
        OnTimerEvent(ticks[i]);
        if state == ConnectTimeout {
          return Some(ticks[i]);
        }
      }
      assert ticks[|ticks|..] == [];
      signalled := None;
    }

    /** A connect that is dequeued at `now`, behind a tick at `previous`, and never completes. With a
        dequeue past the caller's deadline it is signalled at once; otherwise, if the last tick came
        before the margin, it is signalled within the margin and strictly before that deadline. */
    method ConnectInVain(start: nat, wanted: nat, now: nat, ghost previous: nat, ticks: seq<nat>)
      returns (signalled: Option<nat>)
      requires Accepted(wanted) && start <= now < start + U32_RANGE && Regular(previous, now, ticks)
      modifies this
      ensures state == ConnectTimeout <==> signalled.Some?
      ensures now >= start + wanted ==> signalled == Some(now)
      ensures now < start + wanted && previous < start + wanted - TIMER_GRANULARITY
           && ticks != [] && ticks[|ticks| - 1] >= start + wanted - TIMER_GRANULARITY
        ==> signalled.Some? && start + wanted - TIMER_GRANULARITY <= signalled.value < start + wanted
    {
      ElapsedIs(start, now);
      MarginIsLower(Clock(start), wanted, now);
      OnAsyncConnect(Clock(start), wanted, now);
      if state == ConnectTimeout {
        return Some(now);
      }
      signalled := TickUntilSignalled(ticks);
      if previous < start + wanted - TIMER_GRANULARITY
        && ticks != [] && ticks[|ticks| - 1] >= start + wanted - TIMER_GRANULARITY
      {
        FirstTickSignals(start, wanted, previous, now, ticks);
      }
    }
  }
}
