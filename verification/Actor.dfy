/** The actor: a client numbers its commands and sends them down a pipe, a worker answers them one
    by one up another pipe, and a counter says how many answers wait. */
module Actor {
  import opened Basics
  import opened Decimal
  import opened Strings

  // ---- Messages -----------------------------------------------------------------------------------

  const SEPARATOR := ';'

  /** A command or a reply with its ticket behind the separator. */
  function Compose(text: string, ticket: nat): string {
    text + [SEPARATOR] + Print(ticket)
  }

  /** strrchr: the last position of the separator, or the length of the text. */
  function LastSeparator(s: string): (i: nat)
    ensures i <= |s|
    ensures i < |s| ==> s[i] == SEPARATOR && SEPARATOR !in s[i + 1..]
    ensures i == |s| ==> SEPARATOR !in s
  {
    if s == [] then 0
    else
      var i := LastSeparator(s[1..]);
      if i < |s| - 1 then assert s[i + 2..] == s[1..][i + 1..]; i + 1
      else if s[0] == SEPARATOR then 0
      else assert s == [s[0]] + s[1..]; |s|
  }

  lemma {:induction false} LastSeparatorIs(s: string, i: nat)
    requires i < |s| && s[i] == SEPARATOR && SEPARATOR !in s[i + 1..]
    ensures LastSeparator(s) == i
  {
    if i > 0 {
      assert s[1..][i..] == s[i + 1..];
      LastSeparatorIs(s[1..], i - 1);
    }
  }

  predicate IsBlank(c: char) {
    c == ' ' || '\t' <= c <= '\r'
  }

  /** std::atoi, stored in an unsigned 32-bit number: blanks, a sign, and the digits behind them. */
  function Atoi(s: string): nat {
    if s != [] && IsBlank(s[0]) then Atoi(s[1..])
    else if s != [] && s[0] == '-' then (U32_RANGE - Read(DigitRun(s[1..])) % U32_RANGE) % U32_RANGE
    else if s != [] && s[0] == '+' then Read(DigitRun(s[1..]))
    else Read(DigitRun(s))
  }

  /** Text and ticket of a message; a message without a separator has ticket 0. */
  function Parse(msg: string): (string, nat) {
    var i := LastSeparator(msg);
    if i < |msg| then (msg[..i], Atoi(msg[i + 1..])) else (msg, 0)
  }

  lemma AtoiPrint(n: nat)
    ensures Atoi(Print(n)) == n
  {
    var digits := Print(n);
    assert IsDigit(digits[0]);
    DigitRunOf(digits, []);
    assert digits + [] == digits;
    ReadPrint(n);
  }

  lemma AtoiSkips(s: string, blank: char)
    requires blank == ' ' || blank == '\t' || blank == '\n' || blank == '\r'
    ensures Atoi([blank] + s) == Atoi(s)
  {
    assert ([blank] + s)[1..] == s;
  }

  lemma ReadBack(n: nat)
    ensures DigitRun(Print(n)) == Print(n) && Read(Print(n)) == n
  {
    var digits := Print(n);
    DigitRunOf(digits, []);
    assert digits + [] == digits;
    ReadPrint(n);
  }

  lemma AtoiPlus(n: nat)
    ensures Atoi(['+'] + Print(n)) == n
  {
    ReadBack(n);
    var s := ['+'] + Print(n);
    assert s[0] == '+' && s[1..] == Print(n);
  }

  /** A negative number goes round. */
  lemma AtoiMinus(n: nat)
    requires n < U32_RANGE
    ensures Atoi(['-'] + Print(n)) == if n == 0 then 0 else U32_RANGE - n
  {
    ReadBack(n);
    var s := ['-'] + Print(n);
    assert s[0] == '-' && s[1..] == Print(n);
  }

  /** The text may hold separators of its own: the ticket is what stands behind the last one. */
  lemma ParseCompose(text: string, ticket: nat)
    ensures Parse(Compose(text, ticket)) == (text, ticket)
  {
    var msg, digits := Compose(text, ticket), Print(ticket);
    assert msg[|text|] == SEPARATOR && msg[|text| + 1..] == digits && msg[..|text|] == text;
    LastSeparatorIs(msg, |text|);
    AtoiPrint(ticket);
  }

  /** What goes through a pipe: the message as a C string. */
  function Wire(m: (string, nat)): string {
    CString(Compose(m.0, m.1))
  }

  /** What the other side makes of it. */
  function Arrives(m: (string, nat)): (string, nat) {
    Parse(Wire(m))
  }

  lemma NulIsInText(m: (string, nat))
    ensures '\0' in Compose(m.0, m.1) <==> '\0' in m.0
    ensures '\0' !in m.0 ==> Wire(m) == Compose(m.0, m.1)
    ensures '\0' in m.0 ==> |Wire(m)| < |m.0| && m.0[..|Wire(m)|] == Wire(m) && m.0[|Wire(m)|] == '\0'
  {
    var msg := Compose(m.0, m.1);
    if '\0' in m.0 {
      var p :| 0 <= p < |m.0| && m.0[p] == '\0';
      assert msg[p] == '\0';
      CStringEndsAtNul(msg);
    } else {
      CStringWithout(msg);
    }
  }

  /** The wording, for one message. */
  lemma WireExample()
    ensures Wire(("go", 12)) == "go;12"
  {
    NulIsInText(("go", 12));
    assert Print(12) == "12" by { assert Print(1) == "1"; }
  }

  /** Text and ticket arrive as they were sent exactly when the text holds no NUL. */
  lemma ArrivesIff(m: (string, nat))
    ensures Arrives(m) == m <==> '\0' !in m.0
  {
    NulIsInText(m);
    if '\0' !in m.0 {
      ParseCompose(m.0, m.1);
    }
  }

  /** The failing input: the ticket behind a NUL never arrives. */
  lemma NulDropsTicket(ticket: nat)
    ensures Arrives(("a\0b", ticket)) == ("a", 0)
  {
    var text := "a\0b";
    NulIsInText((text, ticket));
    var wire := Wire((text, ticket));
    assert |wire| == 1 && wire == "a" by {
      assert text[0] == 'a' && text[2] == 'b';
    }
    assert LastSeparator(wire) == 1;
  }

  const TERM := "$TERM"

  /** The texts that arrive as the command that ends the worker. */
  predicate EndsWorker(text: string) {
    |text| >= 6 && text[..5] == TERM && text[5] == '\0'
  }

  /** A command of a client is taken for the one that ends the worker exactly when its text starts with
      that command and a NUL. */
  lemma TermIff(m: (string, nat))
    ensures Wire(m) == TERM <==> EndsWorker(m.0)
  {
    NulIsInText(m);
    if EndsWorker(m.0) {
      var rest := m.0[6..] + [SEPARATOR] + Print(m.1);
      assert Compose(m.0, m.1) == TERM + ['\0'] + rest;
      CStringOf(TERM, rest);
    } else if '\0' !in m.0 {
      assert Wire(m)[|m.0|] == SEPARATOR;
    }
  }

  // ---- The two sides and their pipes -----------------------------------------------------------------

  /** What the protocol is about: the actor function, where work(k, cmd) is what it answers to the k-th
      command; how a message goes through a pipe and is taken apart; and which message ends the worker.
      The invariant below holds whatever they are. */
  datatype World = World(
    work: (nat, string) -> string,
    wire: ((string, nat)) -> string,
    parse: string -> (string, nat),
    term: string -> bool)

  /** The world of the program. */
  function Real(work: (nat, string) -> string): World {
    World(work, (m: (string, nat)) => Wire(m), (msg: string) => Parse(msg), (msg: string) => msg == TERM)
  }

  function Through(w: World, m: (string, nat)): (string, nat) {
    w.parse(w.wire(m))
  }

  /** std::atoi reads tickets below this one. */
  const TICKET_LIMIT := 0x8000_0000

  /** Where the worker stands: blocked in its receive, behind it, behind the setting of its running
      flag, behind the send of the reply, behind the reset of the flag and in front of the counter, or
      at its end. */
  datatype Phase = Waiting | Received(msg: string) | Running(msg: string) | Replied | Cleared | Ended(msg: string)

  /** The pipes, the atomics, and the history: commands sent with success, replies handed to the
      client, and waits of the client that ended without a message. */
  datatype State = State(
    ticket: nat,
    toActor: seq<string>,
    fromActor: seq<string>,
    phase: Phase,
    running: bool,
    pending: nat,
    sent: seq<(string, nat)>,
    read: seq<(string, nat)>,
    interrupts: nat)

  const INIT := State(0, [], [], Waiting, false, 0, [], [], 0)

  /** SendCommandToActor; a send that fails still uses up a ticket. */
  function Send(w: World, s: State, cmd: string, ok: bool): State {
    var t := s.ticket + 1;
    if ok then s.(ticket := t, toActor := s.toActor + [w.wire((cmd, t))], sent := s.sent + [(cmd, t)])
    else s.(ticket := t)
  }

  /** WaitForReplyFromActor: the counter goes down whether a message came or not. */
  function Wait(w: World, s: State): State
    requires s.fromActor != []
  {
    s.(fromActor := s.fromActor[1..], read := s.read + [w.parse(s.fromActor[0])],
       pending := (s.pending + U32_RANGE - 1) % U32_RANGE)
  }

  function InterruptedWait(s: State): State {
    s.(interrupts := s.interrupts + 1, pending := (s.pending + U32_RANGE - 1) % U32_RANGE)
  }

  /** The worker's loop, in its atomic parts. */
  function Receive(s: State): State
    requires s.toActor != []
  {
    s.(toActor := s.toActor[1..], phase := Received(s.toActor[0]))
  }

  function SetFlag(s: State): State
    requires s.phase.Received?
  {
    s.(phase := Running(s.phase.msg), running := true)
  }

  function Reply(s: State, w: World): State
    requires s.phase.Running?
  {
    var (cmd, t) := w.parse(s.phase.msg);
    var k := |s.read| + |s.fromActor|;
    s.(fromActor := s.fromActor + [w.wire((w.work(k, cmd), t))], phase := Replied)
  }

  function Clear(s: State): State {
    s.(running := false, phase := Cleared)
  }

  function Count(s: State): State {
    s.(pending := (s.pending + 1) % U32_RANGE, phase := Waiting)
  }

  /** The command that ends the worker resets the flag, and is neither answered nor counted. */
  function End(s: State): State
    requires s.phase.Running?
  {
    s.(running := false, phase := Ended(s.phase.msg))
  }

  datatype Step =
    | SendStep(cmd: string, ok: bool)
    | WaitStep
    | InterruptStep
    | ReceiveStep
    | FlagStep
    | ReplyStep
    | ClearStep
    | CountStep
    | EndStep

  predicate Enabled(w: World, s: State, step: Step) {
    match step
    case SendStep(_, _) => s.ticket + 1 < TICKET_LIMIT
    case WaitStep => s.fromActor != []
    case InterruptStep => true
    case ReceiveStep => s.phase.Waiting? && s.toActor != []
    case FlagStep => s.phase.Received?
    case ReplyStep => s.phase.Running? && !w.term(s.phase.msg)
    case ClearStep => s.phase.Replied?
    case CountStep => s.phase.Cleared?
    case EndStep => s.phase.Running? && w.term(s.phase.msg)
  }

  function Apply(w: World, s: State, step: Step): State
    requires Enabled(w, s, step)
  {
    match step
    case SendStep(cmd, ok) => Send(w, s, cmd, ok)
    case WaitStep => Wait(w, s)
    case InterruptStep => InterruptedWait(s)
    case ReceiveStep => Receive(s)
    case FlagStep => SetFlag(s)
    case ReplyStep => Reply(s, w)
    case ClearStep => Clear(s)
    case CountStep => Count(s)
    case EndStep => End(s)
  }

  predicate IsRun(w: World, states: seq<State>, steps: seq<Step>) {
    && |states| == |steps| + 1 && states[0] == INIT
    && forall i {:trigger steps[i]} :: 0 <= i < |steps| ==>
         Enabled(w, states[i], steps[i]) && states[i + 1] == Apply(w, states[i], steps[i])
  }

  // ---- What every run keeps ----------------------------------------------------------------------------

  /** The commands whose reply was sent, and those taken from the pipe. */
  function Served(s: State): nat {
    |s.read| + |s.fromActor|
  }

  predicate HoldsCommand(phase: Phase) {
    phase.Received? || phase.Running? || phase.Ended?
  }

  function Taken(s: State): nat {
    Served(s) + if HoldsCommand(s.phase) then 1 else 0
  }

  /** Is a reply sent that the counter does not know of yet? */
  function Late(s: State): nat {
    if s.phase.Replied? || s.phase.Cleared? then 1 else 0
  }

  /** The reply to the command number `k`: the answer to what arrived of it, under the ticket that
      arrived with it. */
  function Answer(w: World, s: State, k: nat): (string, nat)
    requires k < |s.sent|
  {
    var (cmd, t) := Through(w, s.sent[k]);
    (w.work(k, cmd), t)
  }

  ghost predicate ReadAt(w: World, s: State, k: nat) {
    k < |s.read| && k < |s.sent| && s.read[k] == Through(w, Answer(w, s, k))
  }

  ghost predicate UnreadAt(w: World, s: State, k: nat) {
    && k < |s.fromActor| && |s.read| + k < |s.sent|
    && s.fromActor[k] == w.wire(Answer(w, s, |s.read| + k))
  }

  ghost predicate QueuedAt(w: World, s: State, k: nat) {
    k < |s.toActor| && Taken(s) + k < |s.sent| && s.toActor[k] == w.wire(s.sent[Taken(s) + k])
  }

  ghost predicate RunningOk(w: World, s: State) {
    HoldsCommand(s.phase) ==> Served(s) < |s.sent| && s.phase.msg == w.wire(s.sent[Served(s)])
  }

  /** Each command sent with success is in exactly one place, and all places keep the order. */
  ghost predicate Conserved(w: World, s: State) {
    && |s.sent| == Taken(s) + |s.toActor|
    && (forall k: nat :: k < |s.read| ==> ReadAt(w, s, k))
    && (forall k: nat :: k < |s.fromActor| ==> UnreadAt(w, s, k))
    && RunningOk(w, s)
    && (forall k: nat :: k < |s.toActor| ==> QueuedAt(w, s, k))
  }

  ghost predicate Numbered(s: State) {
    && (forall j, k :: 0 <= j < k < |s.sent| ==> s.sent[j].1 < s.sent[k].1)
    && (forall k :: 0 <= k < |s.sent| ==> s.sent[k].1 <= s.ticket)
    && |s.sent| <= s.ticket < TICKET_LIMIT
  }

  ghost predicate Counted(w: World, s: State) {
    && s.running == (s.phase.Running? || s.phase.Replied?)
    && s.pending == (|s.fromActor| - Late(s) - s.interrupts) % U32_RANGE
    && (s.phase.Ended? ==> w.term(s.phase.msg))
  }

  /** The worker got past the commands it answered. */
  ghost predicate Survived(w: World, s: State) {
    forall k :: 0 <= k < Served(s) && k < |s.sent| ==> !w.term(w.wire(s.sent[k]))
  }

  ghost predicate Inv(w: World, s: State) {
    Conserved(w, s) && Numbered(s) && Counted(w, s) && Survived(w, s)
  }

  lemma CountsModulo(a: int)
    ensures ((a % U32_RANGE) + U32_RANGE - 1) % U32_RANGE == (a - 1) % U32_RANGE
    ensures ((a % U32_RANGE) + 1) % U32_RANGE == (a + 1) % U32_RANGE
  {
  }

  lemma SendNumbers(w: World, s: State, cmd: string, ok: bool)
    requires Numbered(s) && s.ticket + 1 < TICKET_LIMIT
    ensures Numbered(Send(w, s, cmd, ok))
  {
  }

  lemma SendQueues(w: World, s: State, t: State, m: (string, nat))
    requires Conserved(w, s) && t.read == s.read && t.fromActor == s.fromActor && t.phase == s.phase
    requires t.toActor == s.toActor + [w.wire(m)] && t.sent == s.sent + [m]
    ensures Conserved(w, t)
  {
    forall k: nat | k < |t.read| ensures ReadAt(w, t, k) { assert ReadAt(w, s, k); }
    forall k: nat | k < |t.fromActor| ensures UnreadAt(w, t, k) { assert UnreadAt(w, s, k); }
    forall k: nat | k < |t.toActor| ensures QueuedAt(w, t, k) {
      if k < |s.toActor| {
        assert QueuedAt(w, s, k);
      }
    }
  }

  lemma SendKeeps(w: World, s: State, cmd: string, ok: bool)
    requires Inv(w, s) && s.ticket + 1 < TICKET_LIMIT
    ensures Inv(w, Send(w, s, cmd, ok))
  {
    SendNumbers(w, s, cmd, ok);
    if ok {
      SendQueues(w, s, Send(w, s, cmd, ok), (cmd, s.ticket + 1));
    } else {
      PipesUntouched(w, s, Send(w, s, cmd, ok));
    }
  }

  /** The client reads back the answer to the oldest command that has no read reply. */
  lemma WaitReads(w: World, s: State)
    requires Conserved(w, s) && s.fromActor != []
    ensures |s.read| < |s.sent| && Wait(w, s).read == s.read + [Through(w, Answer(w, s, |s.read|))]
  {
    assert UnreadAt(w, s, 0);
  }

  lemma ReadMoves(w: World, s: State, t: State)
    requires Conserved(w, s) && s.fromActor != [] && |s.read| < |s.sent|
    requires t.toActor == s.toActor && t.sent == s.sent && t.phase == s.phase
    requires t.fromActor == s.fromActor[1..] && t.read == s.read + [Through(w, Answer(w, s, |s.read|))]
    ensures Conserved(w, t)
  {
    forall k: nat | k < |t.read| ensures ReadAt(w, t, k) {
      if k < |s.read| {
        assert ReadAt(w, s, k);
      }
    }
    forall k: nat | k < |t.fromActor| ensures UnreadAt(w, t, k) { assert UnreadAt(w, s, k + 1); }
    forall k: nat | k < |t.toActor| ensures QueuedAt(w, t, k) { assert QueuedAt(w, s, k); }
  }

  lemma WaitKeeps(w: World, s: State)
    requires Inv(w, s) && s.fromActor != []
    ensures Inv(w, Wait(w, s))
  {
    WaitReads(w, s);
    ReadMoves(w, s, Wait(w, s));
    CountsModulo(|s.fromActor| - Late(s) - s.interrupts);
  }

  lemma ReceiveKeeps(w: World, s: State)
    requires Inv(w, s) && Enabled(w, s, ReceiveStep)
    ensures Inv(w, Receive(s))
  {
    var t := Receive(s);
    assert QueuedAt(w, s, 0);
    forall k: nat | k < |t.read| ensures ReadAt(w, t, k) { assert ReadAt(w, s, k); }
    forall k: nat | k < |t.fromActor| ensures UnreadAt(w, t, k) { assert UnreadAt(w, s, k); }
    forall k: nat | k < |t.toActor| ensures QueuedAt(w, t, k) { assert QueuedAt(w, s, k + 1); }
  }

  lemma ReplyMoves(w: World, s: State, t: State)
    requires Conserved(w, s) && s.phase.Running?
    requires t.toActor == s.toActor && t.sent == s.sent && t.read == s.read && !HoldsCommand(t.phase)
    requires t.fromActor == s.fromActor + [w.wire(Answer(w, s, Served(s)))]
    ensures Conserved(w, t)
  {
    forall k: nat | k < |t.read| ensures ReadAt(w, t, k) { assert ReadAt(w, s, k); }
    forall k: nat | k < |t.fromActor| ensures UnreadAt(w, t, k) {
      if k < |s.fromActor| {
        assert UnreadAt(w, s, k);
      }
    }
    forall k: nat | k < |t.toActor| ensures QueuedAt(w, t, k) { assert QueuedAt(w, s, k); }
  }

  lemma ReplyKeeps(w: World, s: State)
    requires Inv(w, s) && Enabled(w, s, ReplyStep)
    ensures Inv(w, Reply(s, w))
  {
    ReplyMoves(w, s, Reply(s, w));
  }

  /** A step that leaves the pipes and the history alone. */
  lemma PipesUntouched(w: World, s: State, t: State)
    requires Conserved(w, s)
    requires t.toActor == s.toActor && t.fromActor == s.fromActor && t.read == s.read && t.sent == s.sent
    requires HoldsCommand(s.phase) <==> HoldsCommand(t.phase)
    requires HoldsCommand(s.phase) ==> s.phase.msg == t.phase.msg
    ensures Conserved(w, t)
  {
    forall k: nat | k < |t.read| ensures ReadAt(w, t, k) { assert ReadAt(w, s, k); }
    forall k: nat | k < |t.fromActor| ensures UnreadAt(w, t, k) { assert UnreadAt(w, s, k); }
    forall k: nat | k < |t.toActor| ensures QueuedAt(w, t, k) { assert QueuedAt(w, s, k); }
  }

  lemma InterruptKeeps(w: World, s: State)
    requires Inv(w, s)
    ensures Inv(w, InterruptedWait(s))
  {
    CountsModulo(|s.fromActor| - Late(s) - s.interrupts);
    PipesUntouched(w, s, InterruptedWait(s));
  }

  lemma FlagKeeps(w: World, s: State)
    requires Inv(w, s) && s.phase.Received?
    ensures Inv(w, SetFlag(s))
  {
    PipesUntouched(w, s, SetFlag(s));
  }

  lemma EndKeeps(w: World, s: State)
    requires Inv(w, s) && Enabled(w, s, EndStep)
    ensures Inv(w, End(s))
  {
    PipesUntouched(w, s, End(s));
  }

  lemma ClearKeeps(w: World, s: State)
    requires Inv(w, s) && s.phase.Replied?
    ensures Inv(w, Clear(s))
  {
    PipesUntouched(w, s, Clear(s));
  }

  lemma CountKeeps(w: World, s: State)
    requires Inv(w, s) && s.phase.Cleared?
    ensures Inv(w, Count(s))
  {
    CountsModulo(|s.fromActor| - Late(s) - s.interrupts);
    PipesUntouched(w, s, Count(s));
  }

  lemma StepKeeps(w: World, s: State, step: Step)
    requires Inv(w, s) && Enabled(w, s, step)
    ensures Inv(w, Apply(w, s, step))
  {
    match step
    case SendStep(cmd, ok) => SendKeeps(w, s, cmd, ok);
    case WaitStep => WaitKeeps(w, s);
    case InterruptStep => InterruptKeeps(w, s);
    case ReceiveStep => ReceiveKeeps(w, s);
    case FlagStep => FlagKeeps(w, s);
    case ReplyStep => ReplyKeeps(w, s);
    case ClearStep => ClearKeeps(w, s);
    case CountStep => CountKeeps(w, s);
    case EndStep => EndKeeps(w, s);
  }

  lemma FinishKeeps(w: World, s: State)
    requires Inv(w, s) && s.phase.Replied?
    ensures Inv(w, Count(Clear(s)))
  {
    ClearKeeps(w, s);
    CountKeeps(w, Clear(s));
  }

  lemma {:induction false} RunKeeps(w: World, states: seq<State>, steps: seq<Step>, i: nat)
    requires IsRun(w, states, steps) && i < |states|
    ensures Inv(w, states[i])
  {
    if i > 0 {
      RunKeeps(w, states, steps, i - 1);
      StepKeeps(w, states[i - 1], steps[i - 1]);
    }
  }

  /** Neither the command number `k` nor the answer to it holds a NUL. */
  ghost predicate CleanAt(work: (nat, string) -> string, s: State, k: nat)
    requires k < |s.sent|
  {
    '\0' !in s.sent[k].0 && '\0' !in work(k, s.sent[k].0)
  }

  lemma CleanAnswer(work: (nat, string) -> string, s: State, k: nat)
    requires k < |s.sent| && '\0' !in s.sent[k].0
    ensures Answer(Real(work), s, k) == (work(k, s.sent[k].0), s.sent[k].1)
    ensures Arrives(Answer(Real(work), s, k)) == (work(k, s.sent[k].0), s.sent[k].1) <==> CleanAt(work, s, k)
  {
    ArrivesIff(s.sent[k]);
    ArrivesIff(Answer(Real(work), s, k));
  }

  /** In every run, whatever sends fail and whatever waits are interrupted: the k-th reply handed to the
      client is what arrives of the answer to what arrived of the k-th command. The worker saw the
      command as it was sent and the client reads the whole answer under the command's ticket if and
      only if neither holds a NUL, and the tickets of such commands increase strictly. */
  lemma RepliesInOrder(work: (nat, string) -> string, states: seq<State>, steps: seq<Step>, i: nat, k: nat)
    requires IsRun(Real(work), states, steps) && i < |states| && k < |states[i].read|
    ensures var s := states[i];
      && |s.read| <= |s.sent| && s.read[k] == Arrives(Answer(Real(work), s, k))
      && (CleanAt(work, s, k) <==>
           Arrives(s.sent[k]) == s.sent[k] && s.read[k] == (work(k, s.sent[k].0), s.sent[k].1))
      && forall j :: 0 <= j < k && CleanAt(work, s, j) && CleanAt(work, s, k) ==> s.read[j].1 < s.read[k].1
  {
    RunKeeps(Real(work), states, steps, i);
    var s := states[i];
    assert ReadAt(Real(work), s, k);
    ArrivesIff(s.sent[k]);
    if '\0' !in s.sent[k].0 {
      CleanAnswer(work, s, k);
    }
    forall j | 0 <= j < k && CleanAt(work, s, j) && CleanAt(work, s, k) ensures s.read[j].1 < s.read[k].1 {
      assert ReadAt(Real(work), s, j);
      CleanAnswer(work, s, j);
    }
  }

  /** In every run the worker ends on a command that starts with $TERM and a NUL and on no other, and no
      such command is ever answered. */
  lemma WorkerEndsIff(work: (nat, string) -> string, states: seq<State>, steps: seq<Step>, i: nat, k: nat)
    requires IsRun(Real(work), states, steps) && i < |states| && k < |states[i].sent|
    ensures var s := states[i];
      && (EndsWorker(s.sent[k].0) ==> k >= Served(s))
      && (s.phase.Running? && k == Served(s) ==> (Enabled(Real(work), s, EndStep) <==> EndsWorker(s.sent[k].0)))
      && (s.phase.Ended? && k == Served(s) ==> EndsWorker(s.sent[k].0))
  {
    RunKeeps(Real(work), states, steps, i);
    TermIff(states[i].sent[k]);
  }

  /** Where the command number `k` of those sent with success is. */
  datatype Place = Fetched | Unread(index: nat) | InHand | Queued(index: nat)

  /** The place holds that command, or its answer, under its ticket. */
  ghost predicate Holds(work: (nat, string) -> string, s: State, k: nat, place: Place)
    requires k < |s.sent|
  {
    match place
    case Fetched => k < |s.read| && s.read[k] == Arrives(Answer(Real(work), s, k))
    case Unread(n) => n < |s.fromActor| && s.fromActor[n] == Wire(Answer(Real(work), s, k))
    case InHand => HoldsCommand(s.phase) && s.phase.msg == Wire(s.sent[k])
    case Queued(n) => n < |s.toActor| && s.toActor[n] == Wire(s.sent[k])
  }

  function PlaceOf(s: State, k: nat): Place {
    if k < |s.read| then Fetched
    else if k < Served(s) then Unread(k - |s.read|)
    else if k < Taken(s) then InHand
    else Queued(k - Taken(s))
  }

  ghost predicate Clean(work: (nat, string) -> string, s: State) {
    forall k :: 0 <= k < |s.sent| ==> CleanAt(work, s, k)
  }

  lemma HeldTicket(work: (nat, string) -> string, s: State, j: nat, k: nat, place: Place)
    requires Numbered(s) && Clean(work, s) && !place.Fetched? && j < |s.sent| && k < |s.sent|
    requires Holds(work, s, j, place) && Holds(work, s, k, place)
    ensures j == k
  {
    assert CleanAt(work, s, j) && CleanAt(work, s, k);
    CleanAnswer(work, s, j);
    CleanAnswer(work, s, k);
    ArrivesIff(s.sent[j]);
    ArrivesIff(s.sent[k]);
    assert s.sent[j].1 == s.sent[k].1;
  }

  lemma PlaceHolds(work: (nat, string) -> string, s: State, k: nat)
    requires Conserved(Real(work), s) && k < |s.sent|
    ensures Holds(work, s, k, PlaceOf(s, k))
  {
    if k < |s.read| {
      assert ReadAt(Real(work), s, k);
    } else if k < Served(s) {
      assert UnreadAt(Real(work), s, k - |s.read|);
    } else if k >= Taken(s) {
      assert QueuedAt(Real(work), s, k - Taken(s));
    }
  }

  /** The command that a place of a well-kept state must be about. */
  function Holder(s: State, place: Place): nat {
    match place
    case Unread(n) => |s.read| + n
    case Queued(n) => Taken(s) + n
    case _ => Served(s)
  }

  lemma OtherPlaces(work: (nat, string) -> string, s: State, k: nat, place: Place)
    requires Conserved(Real(work), s) && Numbered(s) && Clean(work, s) && k < |s.sent| && Holds(work, s, k, place)
    ensures place == PlaceOf(s, k)
  {
    if !place.Fetched? {
      PlaceHolds(work, s, Holder(s, place));
      HeldTicket(work, s, Holder(s, place), k, place);
    }
  }

  /** In every run each command sent with success is queued, in the worker's hand, replied and unread,
      or read, in the place where its number says, and nothing else is in the pipes. As long as no text
      holds a NUL, no other place holds anything that could be taken for it. */
  lemma NothingLost(work: (nat, string) -> string, states: seq<State>, steps: seq<Step>, i: nat, k: nat, place: Place)
    requires IsRun(Real(work), states, steps) && i < |states| && k < |states[i].sent|
    ensures var s := states[i];
      && Holds(work, s, k, PlaceOf(s, k))
      && (Clean(work, s) ==> (Holds(work, s, k, place) <==> place == PlaceOf(s, k)))
      && |s.sent| == |s.read| + |s.fromActor| + (if HoldsCommand(s.phase) then 1 else 0) + |s.toActor|
  {
    RunKeeps(Real(work), states, steps, i);
    var s := states[i];
    PlaceHolds(work, s, k);
    if Clean(work, s) && Holds(work, s, k, place) {
      OtherPlaces(work, s, k, place);
    }
  }

  lemma CounterMod(unread: nat, missing: nat)
    requires unread < U32_RANGE
    ensures (unread - missing) % U32_RANGE == unread <==> missing % U32_RANGE == 0
  {
    var m := missing % U32_RANGE;
    assert (unread - missing) % U32_RANGE == (unread - m) % U32_RANGE;
    if m > unread {
      assert (unread - m) % U32_RANGE == unread - m + U32_RANGE;
    }
  }

  /** In every run the counter is the number of unread replies exactly when the reply that it does not
      know of yet and the interrupted waits cancel out on 32 bits. */
  lemma CounterIsExactIff(work: (nat, string) -> string, states: seq<State>, steps: seq<Step>, i: nat)
    requires IsRun(Real(work), states, steps) && i < |states|
    ensures var s := states[i];
      s.pending == |s.fromActor| <==> (Late(s) + s.interrupts) % U32_RANGE == 0
  {
    RunKeeps(Real(work), states, steps, i);
    CounterMod(|states[i].fromActor|, Late(states[i]) + states[i].interrupts);
  }

  /** While the actor reports that no command is running and no wait was interrupted, the counter is
      exact if and only if the worker is not between the reset of that flag and the bump. */
  lemma IdleCounterIsExactIff(work: (nat, string) -> string, states: seq<State>, steps: seq<Step>, i: nat)
    requires IsRun(Real(work), states, steps) && i < |states|
    requires !states[i].running && states[i].interrupts == 0
    ensures states[i].pending == |states[i].fromActor| <==> !states[i].phase.Cleared?
  {
    RunKeeps(Real(work), states, steps, i);
    CounterIsExactIff(work, states, steps, i);
  }

  /** IsReplyPending tells the truth, with no interrupted wait, exactly when the worker is not behind a
      reply that it has not counted, or at least two replies are unread: one uncounted reply is taken
      for none, and none beside an uncounted one for some. */
  lemma ReplyPendingIff(work: (nat, string) -> string, states: seq<State>, steps: seq<Step>, i: nat)
    requires IsRun(Real(work), states, steps) && i < |states| && states[i].interrupts == 0
    ensures var s := states[i];
      (s.pending != 0 <==> s.fromActor != []) <==>
        (!(s.phase.Replied? || s.phase.Cleared?) || |s.fromActor| >= 2)
  {
    RunKeeps(Real(work), states, steps, i);
    var s := states[i];
    if |s.fromActor| < Late(s) {
      assert (|s.fromActor| - Late(s)) % U32_RANGE == U32_RANGE - 1;
    }
  }

  lemma ExtendRun(work: (nat, string) -> string, states: seq<State>, steps: seq<Step>, step: Step)
    requires IsRun(Real(work), states, steps) && Enabled(Real(work), states[|steps|], step)
    ensures IsRun(Real(work), states + [Apply(Real(work), states[|steps|], step)], steps + [step])
  {
  }

  /** Such a moment exists: the worker looks idle, no reply waits, and the counter has gone round
      below zero, because the client read the reply before it was counted. */
  lemma CounterGoesBelowZero(work: (nat, string) -> string, cmd: string) returns (states: seq<State>, steps: seq<Step>)
    requires !EndsWorker(cmd)
    ensures IsRun(Real(work), states, steps)
    ensures var s := states[|steps|];
      !s.running && s.fromActor == [] && s.toActor == [] && s.interrupts == 0 && s.pending == U32_RANGE - 1
  {
    states, steps := [INIT], [];
    TermIff((cmd, 1));
    var todo := [SendStep(cmd, true), ReceiveStep, FlagStep, ReplyStep, WaitStep, ClearStep];
    for i := 0 to 6
      invariant |steps| == i && IsRun(Real(work), states, steps)
      invariant var s := states[i];
        && s.ticket == (if i == 0 then 0 else 1) && s.interrupts == 0
        && s.toActor == (if i == 1 then [Wire((cmd, 1))] else []) && |s.fromActor| == (if i == 4 then 1 else 0)
        && (i <= 1 ==> s.phase.Waiting?)
        && (i == 2 ==> s.phase == Received(Wire((cmd, 1)))) && (i == 3 ==> s.phase == Running(Wire((cmd, 1))))
        && (i == 4 || i == 5 ==> s.phase.Replied?) && (i == 6 ==> s.phase.Cleared?)
    {
      ExtendRun(work, states, steps, todo[i]);
      states, steps := states + [Apply(Real(work), states[i], todo[i])], steps + [todo[i]];
    }
    RunKeeps(Real(work), states, steps, 6);
  }

  // ---- The implementation --------------------------------------------------------------------------------

  class ActorImplementation {
    const work: (nat, string) -> string
    var ticket: nat
    var toActor: seq<string>
    var fromActor: seq<string>
    var running: bool
    var pending: nat
    ghost var phase: Phase
    ghost var sent: seq<(string, nat)>
    var read: seq<(string, nat)>
    ghost var interrupts: nat

    ghost function Model(): State
      reads this
    {
      State(ticket, toActor, fromActor, phase, running, pending, sent, read, interrupts)
    }

    constructor (work: (nat, string) -> string)
      ensures this.work == work && Model() == INIT && Inv(Real(work), Model())
    {
      this.work := work;
      ticket, toActor, fromActor, running, pending := 0, [], [], false, 0;
      phase, sent, read, interrupts := Waiting, [], [], 0;
    }

    /** SendCommandToActor; `ok` is what the pipe says to the send. */
    method SendCommandToActor(cmd: string, ok: bool) returns (t: nat)
      requires Inv(Real(work), Model()) && ticket + 1 < TICKET_LIMIT
      modifies this
      ensures Model() == Send(Real(work), old(Model()), cmd, ok) && Inv(Real(work), Model())
      ensures ok ==> t == ticket && t !in (set m | m in old(sent) :: m.1)
      ensures ticket == old(ticket) + 1 && sent == old(sent) + if ok then [(cmd, ticket)] else []
      ensures |toActor| == |old(toActor)| + if ok then 1 else 0
      ensures old(toActor) <= toActor
    {
      SendKeeps(Real(work), Model(), cmd, ok);
      ticket := ticket + 1;
      t := ticket;
      if ok {
        toActor := toActor + [Wire((cmd, t))];
        sent := sent + [(cmd, t)];
      }
    }

    /** A wait that a reply ends: it is what arrives of the answer to the oldest command without a read
        reply. */
    method TakeReply() returns (reply: string, t: nat)
      requires Inv(Real(work), Model()) && fromActor != []
      modifies this
      ensures Model() == Wait(Real(work), old(Model())) && Inv(Real(work), Model())
      ensures |old(read)| < |sent| && (reply, t) == Arrives(Answer(Real(work), Model(), |old(read)|))
    {
      ghost var s := Model();
      WaitReads(Real(work), s);
      WaitKeeps(Real(work), s);
      assert Wait(Real(work), s).read[|s.read|] == Arrives(Answer(Real(work), s, |s.read|));
      var msg := fromActor[0];
      fromActor := fromActor[1..];
      var parsed := Parse(msg);
      reply, t := parsed.0, parsed.1;
      read := read + [parsed];
      pending := (pending + U32_RANGE - 1) % U32_RANGE;
    }

    /** A wait that is interrupted: the counter goes down all the same. */
    method GiveUp()
      requires Inv(Real(work), Model())
      modifies `pending, `interrupts
      ensures Model() == InterruptedWait(old(Model())) && Inv(Real(work), Model())
    {
      InterruptKeeps(Real(work), Model());
      interrupts := interrupts + 1;
      pending := (pending + U32_RANGE - 1) % U32_RANGE;
    }

    /** WaitForReplyFromActor. An interrupted wait gives an empty text and leaves the caller's ticket as
        it was. */
    method WaitForReplyFromActor(interrupted: bool, ticketBefore: nat) returns (reply: string, t: nat)
      requires Inv(Real(work), Model()) && (interrupted || fromActor != [])
      modifies this
      ensures Inv(Real(work), Model()) && sent == old(sent) && pending == (old(pending) + U32_RANGE - 1) % U32_RANGE
      ensures interrupted ==> reply == "" && t == ticketBefore && read == old(read) && fromActor == old(fromActor)
      ensures !interrupted ==> |old(read)| < |sent| && (reply, t) == Arrives(Answer(Real(work), Model(), |old(read)|))
      ensures !interrupted && CleanAt(work, Model(), |old(read)|) ==>
        (reply, t) == (work(|old(read)|, sent[|old(read)|].0), sent[|old(read)|].1)
      ensures !interrupted ==> read == old(read) + [(reply, t)] && fromActor == old(fromActor)[1..]
    {
      if interrupted {
        GiveUp();
        reply, t := "", ticketBefore;
      } else {
        ghost var s := Model();
        WaitReads(Real(work), s);
        reply, t := TakeReply();
        if '\0' !in s.sent[|s.read|].0 {
          CleanAnswer(work, Model(), |s.read|);
        }
      }
    }

    /** The receive, and the setting of the flag behind it. */
    method TakeCommand() returns (msg: string)
      requires Inv(Real(work), Model()) && phase.Waiting? && toActor != []
      modifies this
      ensures Model() == SetFlag(Receive(old(Model()))) && Inv(Real(work), Model()) && phase == Running(msg)
    {
      ReceiveKeeps(Real(work), Model());
      msg := toActor[0];
      toActor, phase := toActor[1..], Received(msg);
      FlagKeeps(Real(work), Model());
      running, phase := true, Running(msg);
    }

    method SendReply(msg: string)
      requires Inv(Real(work), Model()) && phase == Running(msg) && msg != TERM
      modifies this
      ensures Model() == Reply(old(Model()), Real(work)) && Inv(Real(work), Model())
    {
      ReplyKeeps(Real(work), Model());
      var parsed := Parse(msg);
      var answer := work(|read| + |fromActor|, parsed.0);
      fromActor, phase := fromActor + [Wire((answer, parsed.1))], Replied;
    }

    /** The running flag is reset first, the counter bumped second. */
    method FinishCommand()
      requires Inv(Real(work), Model()) && phase == Replied
      modifies this
      ensures Model() == Count(Clear(old(Model()))) && Inv(Real(work), Model())
    {
      ghost var s := Model();
      running, phase := false, Cleared;
      pending, phase := (pending + 1) % U32_RANGE, Waiting;
      assert Model() == Count(Clear(s));
      FinishKeeps(Real(work), s);
    }

    /** The end of the worker: the flag is reset, nothing is sent and nothing counted. */
    method FinishWorker(ghost msg: string)
      requires Inv(Real(work), Model()) && phase == Running(msg) && msg == TERM
      modifies `running, `phase
      ensures Model() == End(old(Model())) && Inv(Real(work), Model())
    {
      EndKeeps(Real(work), Model());
      running, phase := false, Ended(msg);
    }

    /** One round of the worker's loop; `finish` tells whether it was the last. */
    method ServeOne() returns (finish: bool)
      requires Inv(Real(work), Model()) && phase.Waiting? && toActor != []
      modifies this
      ensures Inv(Real(work), Model()) && finish == (old(toActor)[0] == TERM)
      ensures var held := SetFlag(Receive(old(Model())));
        Model() == if finish then End(held) else Count(Clear(Reply(held, Real(work))))
    {
      var msg := TakeCommand();
      finish := msg == TERM;
      if finish {
        FinishWorker(msg);
      } else {
        SendReply(msg);
        FinishCommand();
      }
    }

    lemma WaitingSurvived()
      requires Inv(Real(work), Model()) && phase.Waiting? && toActor == []
      ensures |fromActor| == |sent| - |read|
      ensures forall k :: 0 <= k < |sent| ==> !EndsWorker(sent[k].0)
    {
      forall k | 0 <= k < |sent| ensures !EndsWorker(sent[k].0) {
        assert !Real(work).term(Real(work).wire(sent[k]));
        TermIff(sent[k]);
      }
    }

    lemma EndedOnTerm()
      requires Inv(Real(work), Model()) && phase.Ended?
      ensures var served := |read| + |fromActor|; served < |sent| && EndsWorker(sent[served].0)
    {
      TermIff(sent[|read| + |fromActor|]);
    }

    /** OnProcessing, until it blocks in its receive or ends: the commands in front of the first one that
        starts with $TERM and a NUL are answered, in order, and counted; without such a command all
        are. */
    method OnProcessing() returns (finish: bool)
      requires Inv(Real(work), Model()) && phase.Waiting?
      modifies this
      ensures Inv(Real(work), Model()) && sent == old(sent) && read == old(read)
      ensures !finish ==> phase.Waiting? && toActor == [] && |fromActor| == |sent| - |read|
      ensures !finish ==> forall k :: 0 <= k < |sent| ==> !EndsWorker(sent[k].0)
      ensures finish ==> var served := |read| + |fromActor|; served < |sent| && EndsWorker(sent[served].0)
      ensures forall k: nat :: k < |fromActor| ==> UnreadAt(Real(work), Model(), k)
      ensures interrupts == 0 ==> pending == |fromActor|
    {
      finish := false;
      while !finish && toActor != []
        invariant Inv(Real(work), Model()) && sent == old(sent) && read == old(read)
        invariant if finish then phase.Ended? else phase.Waiting?
        decreases |toActor|, !finish
      {
        finish := ServeOne();
      }
      if finish {
        EndedOnTerm();
      } else {
        WaitingSurvived();
      }
    }
  }

  /** The failing input on the actor itself: a client sends "a" and then "a", a NUL and "b". The second
      reply is the answer to "a" under ticket 0, so the tickets do not even increase. */
  method SecondTicketIsLost(work: (nat, string) -> string) returns (first: nat, second: nat)
    requires '\0' !in work(0, "a") && '\0' !in work(1, "a")
    ensures first == 1 && second == 0
  {
    var actor := new ActorImplementation(work);
    var _ := actor.SendCommandToActor("a", true);
    var _ := actor.SendCommandToActor("a\0b", true);
    assert actor.sent == [("a", 1), ("a\0b", 2)];
    var finish := actor.OnProcessing();
    assert !finish;
    assert |actor.fromActor| == 2;
    var reply;
    reply, first := actor.WaitForReplyFromActor(false, 0);
    reply, second := actor.WaitForReplyFromActor(false, 0);
    NulDropsTicket(2);
    ArrivesIff((work(1, "a"), 0));
  }
}
