/**
 * The reconnecting TCP client as a state machine. System calls and the clock
 * are inputs of each step.
 */
module TcpProtocol {
  import opened Modular

  const INITIAL_DELAY: nat := 1000
  const MAX_DELAY: nat := 30000
  const MAX_RETRIES: nat := 10
  const SEND_BUFFER: nat := 65536

  // ---------------------------------------------------------------------
  // Backoff
  // ---------------------------------------------------------------------

  function Pow2(n: nat): (r: nat)
    ensures r > 0
  {
    if n == 0 then 1 else 2 * Pow2(n - 1)
  }

  function Min(a: int, b: int): int {
    if a <= b then a else b
  }

  /** The value a 32-bit signed integer holds. */
  function AsInt32(v: int): int {
    var m := v % 0x1_0000_0000;
    if m < 0x8000_0000 then m else m - 0x1_0000_0000
  }

  /** The shift may overflow; a result that is not positive counts as too large. */
  function BackoffDelay(retries: nat, base: nat, max: nat): int {
    if retries == 0 then base
    else
      var delay := AsInt32(base * Pow2(retries));
      if delay > max || delay <= 0 then max else delay
  }

  lemma Pow2Small()
    ensures Pow2(1) == 2 && Pow2(2) == 4 && Pow2(3) == 8 && Pow2(4) == 16 && Pow2(5) == 32
    ensures Pow2(6) == 64 && Pow2(7) == 128 && Pow2(8) == 256 && Pow2(9) == 512 && Pow2(10) == 1024
  {
    assert Pow2(2) == 4 && Pow2(4) == 16 && Pow2(6) == 64 && Pow2(8) == 256;
  }

  /** Within the retry limit the delay is the doubled base, capped: the shift does not overflow. */
  lemma BackoffDoubles(retries: nat)
    requires retries <= MAX_RETRIES
    ensures BackoffDelay(retries, INITIAL_DELAY, MAX_DELAY) == Min(INITIAL_DELAY * Pow2(retries), MAX_DELAY)
  {
    Pow2Small();
    Pow2Grows(retries, MAX_RETRIES);
    NoOverflow(INITIAL_DELAY * Pow2(retries));
  }

  lemma NoOverflow(v: int)
    requires 0 <= v < 0x8000_0000
    ensures AsInt32(v) == v
  {
  }

  lemma {:induction false} Pow2Grows(a: nat, b: nat)
    requires a <= b
    ensures Pow2(a) <= Pow2(b)
    decreases b
  {
    if a < b {
      Pow2Grows(a, b - 1);
    }
  }

  // ---------------------------------------------------------------------
  // State and inputs
  // ---------------------------------------------------------------------

  /** The client; `created`, `closed`, `attempts` and `failures` only record the run's history. */
  datatype Client = Client(sockFd: int, connected: bool, retries: nat, delay: int, last: nat, auto: bool,
                           sent: nat, lost: nat, connects: nat, reconnects: nat,
                           created: nat, closed: nat, attempts: nat, failures: seq<nat>)

  datatype ConnectReply = AtOnce | InProgress | Refused

  /** What the system calls of one connection attempt answer. */
  datatype Net = Net(socket: int, nonblocking: bool, addressOk: bool, connect: ConnectReply,
                     select: int, optionOk: bool, soError: int)

  /** What one `send` on the socket answers. */
  datatype Reply = Took(n: nat) | Interrupted | ConnectionLost | WouldBlock(writable: bool) | OtherError

  function Init(auto: bool): Client {
    Client(-1, false, 0, INITIAL_DELAY, 0, auto, 0, 0, 0, 0, 0, 0, 0, [])
  }

  // ---------------------------------------------------------------------
  // Connecting
  // ---------------------------------------------------------------------

  predicate Establishes(net: Net) {
    && net.socket >= 0 && net.nonblocking && net.addressOk
    && (net.connect == AtOnce || (net.connect == InProgress && net.select > 0 && net.optionOk && net.soError == 0))
  }

  function TryConnect(c: Client, net: Net): Client {
    var c := c.(attempts := c.attempts + 1);
    if net.socket < 0 then c.(sockFd := net.socket)
    else if Establishes(net) then c.(sockFd := net.socket, connected := true, created := c.created + 1)
    else c.(sockFd := -1, created := c.created + 1, closed := c.closed + 1)
  }

  function Connect(c: Client, net: Net): Client {
    if c.connected then c
    else
      var c := TryConnect(c, net);
      if !c.connected then c
      else c.(connects := c.connects + 1, retries := 0, delay := INITIAL_DELAY, failures := [])
  }

  function Disconnect(c: Client): Client {
    if c.sockFd >= 0 then c.(closed := c.closed + 1, sockFd := -1, connected := false)
    else c.(connected := false)
  }

  /** Too soon after the last attempt. */
  predicate MustWait(c: Client, now: nat) {
    c.last > 0 && WrapSub(now, c.last) < c.delay
  }

  /** The books after a reconnect attempt at `now`. */
  function Settle(c: Client, now: nat): Client {
    if c.connected then c.(reconnects := c.reconnects + 1, retries := 0, delay := INITIAL_DELAY)
    else
      c.(retries := c.retries + 1, delay := BackoffDelay(c.retries + 1, INITIAL_DELAY, MAX_DELAY),
         failures := c.failures + [now])
  }

  function Reconnect(c: Client, now: nat, net: Net): Client {
    if !c.auto || MustWait(c, now) then c
    else if c.retries >= MAX_RETRIES then c.(last := now)
    else Settle(Connect(Disconnect(c.(last := now)), net), now)
  }

  function Recover(c: Client, now: nat, net: Net): Client {
    if c.auto then Reconnect(c, now, net) else c
  }

  /** The connection probe: a peer that is gone makes the client disconnected, its descriptor still open. */
  function Poll(c: Client, alive: bool): Client {
    if c.connected && c.sockFd >= 0 && !alive then c.(connected := false) else c
  }

  // ---------------------------------------------------------------------
  // Sending
  // ---------------------------------------------------------------------

  /** How the send loop ends: everything taken, the connection lost, or given up. */
  datatype LoopEnd = Complete | Broken(taken: nat) | GaveUp(taken: nat)

  /** The replies make the loop return. */
  predicate Finishes(replies: seq<Reply>, len: nat, taken: nat)
    decreases |replies|
  {
    taken >= len ||
    (replies != [] &&
     match replies[0]
     case Took(n) => taken + n <= len && Finishes(replies[1..], len, taken + n)
     case Interrupted => Finishes(replies[1..], len, taken)
     case ConnectionLost => true
     case WouldBlock(writable) => !writable || Finishes(replies[1..], len, taken)
     case OtherError => true)
  }

  function SendLoop(replies: seq<Reply>, len: nat, taken: nat): (r: LoopEnd)
    requires Finishes(replies, len, taken)
    ensures taken <= len && !r.Complete? ==> taken <= r.taken < len
    decreases |replies|
  {
    if taken >= len then Complete
    else
      match replies[0]
      case Took(n) => SendLoop(replies[1..], len, taken + n)
      case Interrupted => SendLoop(replies[1..], len, taken)
      case ConnectionLost => Broken(taken)
      case WouldBlock(writable) => if writable then SendLoop(replies[1..], len, taken) else GaveUp(taken)
      case OtherError => GaveUp(taken)
  }

  /**
   * One call of send for a body of `body` octets whose request is `len`
   * octets. `now` and `net` serve a reconnect before the loop, `now2` and
   * `net2` one after it.
   */
  datatype Call = Call(body: int, len: int, now: nat, net: Net, replies: seq<Reply>, now2: nat, net2: Net)

  predicate ValidCall(x: Call) {
    x.len > 0 ==> Finishes(x.replies, x.len, 0)
  }

  /** The client when the request is about to be built: reconnected if it was not connected. */
  function BeforeSend(c: Client, x: Call): Client {
    if c.connected then c else Recover(c, x.now, x.net)
  }

  /** The counters and the connection as the send loop leaves them. */
  function Counted(c: Client, x: Call, end: LoopEnd): Client
    requires x.len >= 0 && (end.Broken? ==> end.taken <= x.len)
  {
    match end
    case Complete => c.(sent := c.sent + x.len)
    case Broken(taken) => c.(connected := false, lost := c.lost + (x.len - taken))
    case GaveUp(_) => c
  }

  /** A lost connection is followed by an attempt to get it back. */
  function AfterLoop(c: Client, x: Call, end: LoopEnd): Client
    requires x.len >= 0 && (end.Broken? ==> end.taken <= x.len)
  {
    if end.Broken? then Recover(Counted(c, x, end), x.now2, x.net2) else Counted(c, x, end)
  }

  /** The request was put to the socket: there is a body, a connection, and room to format it. */
  predicate Reaches(c: Client, x: Call) {
    x.body > 0 && BeforeSend(c, x).connected && 0 < x.len < SEND_BUFFER
  }

  function Send(c: Client, x: Call): Client
    requires ValidCall(x)
  {
    if x.body <= 0 then c
    else if !Reaches(c, x) then BeforeSend(c, x)
    else AfterLoop(BeforeSend(c, x), x, SendLoop(x.replies, x.len, 0))
  }

  /** What the call returns. */
  function SendResult(c: Client, x: Call): int
    requires ValidCall(x)
  {
    if !Reaches(c, x) then -1
    else
      match SendLoop(x.replies, x.len, 0)
      case Complete => x.len
      case Broken(_) => -1
      case GaveUp(taken) => if taken > 0 then taken else -1
  }

  // ---------------------------------------------------------------------
  // Runs
  // ---------------------------------------------------------------------

  datatype Step =
    | DoConnect(net: Net)
    | DoDisconnect
    | DoReconnect(now: nat, net: Net)
    | DoPoll(alive: bool)
    | DoSend(call: Call)

  predicate ValidStep(step: Step) {
    step.DoSend? ==> ValidCall(step.call)
  }

  function Apply(c: Client, step: Step): Client
    requires ValidStep(step)
  {
    match step
    case DoConnect(net) => Connect(c, net)
    case DoDisconnect => Disconnect(c)
    case DoReconnect(now, net) => Reconnect(c, now, net)
    case DoPoll(alive) => Poll(c, alive)
    case DoSend(call) => Send(c, call)
  }

  predicate ValidSteps(steps: seq<Step>) {
    forall i | 0 <= i < |steps| :: ValidStep(steps[i])
  }

  function Exec(c: Client, steps: seq<Step>): Client
    requires ValidSteps(steps)
  {
    if steps == [] then c else Apply(Exec(c, steps[..|steps| - 1]), steps[|steps| - 1])
  }

  // ---------------------------------------------------------------------
  // Descriptors and backoff, in every state
  // ---------------------------------------------------------------------

  function Held(c: Client): int {
    if c.sockFd >= 0 then 1 else 0
  }

  /** Open descriptors the client no longer knows. */
  function Leaked(c: Client): int {
    c.created - c.closed - Held(c)
  }

  ghost predicate Inv(c: Client) {
    && (c.connected ==> c.sockFd >= 0 && c.retries == 0)
    && c.retries == |c.failures| <= MAX_RETRIES
    && c.delay == BackoffDelay(c.retries, INITIAL_DELAY, MAX_DELAY)
  }

  /** A connect call about to overwrite an open descriptor. */
  predicate Overwrites(c: Client, step: Step) {
    step.DoConnect? && !c.connected && c.sockFd >= 0
  }

  /** A connect call leaks one descriptor when it overwrites an open one, and none otherwise. */
  lemma ConnectLeaksIff(c: Client, net: Net)
    ensures Leaked(Connect(c, net)) == Leaked(c) <==> c.connected || c.sockFd < 0
    ensures !c.connected && c.sockFd >= 0 ==> Leaked(Connect(c, net)) == Leaked(c) + 1
  {
  }

  /** Connected, the peer gone, and connected again: the first descriptor is lost. */
  lemma LeakIsReachable(a: Net, b: Net)
    requires Establishes(a) && Establishes(b)
    ensures var c := Exec(Init(true), [DoConnect(a), DoPoll(false), DoConnect(b)]);
            c.connected && c.created - c.closed == 2 && Held(c) == 1 && Leaked(c) == 1
  {
    var steps := [DoConnect(a), DoPoll(false), DoConnect(b)];
    assert steps[..2][..1] == [DoConnect(a)] && steps[..2] == [DoConnect(a), DoPoll(false)];
    assert Exec(Init(true), [DoConnect(a)]) == Connect(Init(true), a);
    assert Exec(Init(true), steps[..2]) == Poll(Connect(Init(true), a), false);
  }

  /** After an attempt at a client without a descriptor the books are right. */
  lemma AttemptKeepsInv(c: Client, now: nat, net: Net)
    requires Inv(c) && !c.connected && c.sockFd < 0 && c.retries < MAX_RETRIES
    ensures Inv(Settle(Connect(c, net), now)) && Leaked(Settle(Connect(c, net), now)) == Leaked(c)
  {
    var c' := Connect(c, net);
    assert c'.connected <==> Establishes(net);
  }

  lemma ReconnectKeepsInv(c: Client, now: nat, net: Net)
    requires Inv(c)
    ensures Inv(Reconnect(c, now, net)) && Leaked(Reconnect(c, now, net)) == Leaked(c)
  {
    if c.auto && !MustWait(c, now) && c.retries < MAX_RETRIES {
      AttemptKeepsInv(Disconnect(c.(last := now)), now, net);
    }
  }

  lemma StepKeepsInv(c: Client, step: Step)
    requires Inv(c) && ValidStep(step)
    ensures Inv(Apply(c, step))
    ensures Leaked(Apply(c, step)) == Leaked(c) + if Overwrites(c, step) then 1 else 0
  {
    match step
    case DoConnect(net) => ConnectLeaksIff(c, net);
    case DoDisconnect =>
    case DoReconnect(now, net) => ReconnectKeepsInv(c, now, net);
    case DoPoll(_) =>
    case DoSend(x) => SendKeepsInv(c, x);
  }

  lemma CountedKeepsInv(c: Client, x: Call, end: LoopEnd)
    requires Inv(c) && x.len >= 0 && (end.Broken? ==> end.taken <= x.len)
    ensures Inv(Counted(c, x, end)) && Leaked(Counted(c, x, end)) == Leaked(c)
  {
  }

  lemma RecoverKeepsInv(c: Client, now: nat, net: Net)
    requires Inv(c)
    ensures Inv(Recover(c, now, net)) && Leaked(Recover(c, now, net)) == Leaked(c)
  {
    ReconnectKeepsInv(c, now, net);
  }

  lemma SendKeepsInv(c: Client, x: Call)
    requires Inv(c) && ValidCall(x)
    ensures Inv(Send(c, x)) && Leaked(Send(c, x)) == Leaked(c)
  {
    RecoverKeepsInv(c, x.now, x.net);
    if Reaches(c, x) {
      var c1, end := BeforeSend(c, x), SendLoop(x.replies, x.len, 0);
      CountedKeepsInv(c1, x, end);
      RecoverKeepsInv(Counted(c1, x, end), x.now2, x.net2);
    }
  }

  /** The connect calls of the run made while disconnected but holding a descriptor. */
  function Overwritten(c: Client, steps: seq<Step>): nat
    requires ValidSteps(steps)
  {
    if steps == [] then 0
    else
      var n := |steps| - 1;
      Overwritten(c, steps[..n]) + if Overwrites(Exec(c, steps[..n]), steps[n]) then 1 else 0
  }

  lemma {:induction false} RunKeepsInv(c: Client, steps: seq<Step>)
    requires Inv(c) && ValidSteps(steps)
    ensures Inv(Exec(c, steps)) && Leaked(Exec(c, steps)) == Leaked(c) + Overwritten(c, steps)
    decreases |steps|
  {
    if steps != [] {
      RunKeepsInv(c, steps[..|steps| - 1]);
      StepKeepsInv(Exec(c, steps[..|steps| - 1]), steps[|steps| - 1]);
    }
  }

  /**
   * A connected client has a descriptor, the open descriptors are the one held
   * and the leaked ones, the delay is the capped doubling of the retries, and
   * cleaning up leaves exactly the leaked ones open.
   */
  ghost predicate Owns(c: Client, leaked: nat) {
    && (c.connected ==> c.sockFd >= 0)
    && c.created - c.closed == Held(c) + leaked
    && c.retries <= MAX_RETRIES
    && c.delay == Min(INITIAL_DELAY * Pow2(c.retries), MAX_DELAY)
    && Disconnect(c).created - Disconnect(c).closed == leaked
  }

  lemma NewIsSound(auto: bool)
    ensures Inv(Init(auto)) && Leaked(Init(auto)) == 0
  {
  }

  lemma RunOwns(start: Client, steps: seq<Step>, c: Client, leaked: nat)
    requires Inv(start) && Leaked(start) == 0 && ValidSteps(steps)
    requires c == Exec(start, steps) && leaked == Overwritten(start, steps)
    ensures Owns(c, leaked)
  {
    RunKeepsInv(start, steps);
    BackoffDoubles(c.retries);
  }

  /**
   * In every run of connects, disconnects, reconnects, polls and sends the
   * client owns its descriptor, and has leaked one for each connect that
   * overwrote one.
   */
  lemma EveryRunOwnsItsSocket(auto: bool, steps: seq<Step>, c: Client, leaked: nat)
    requires ValidSteps(steps) && c == Exec(Init(auto), steps) && leaked == Overwritten(Init(auto), steps)
    ensures Owns(c, leaked)
  {
    NewIsSound(auto);
    RunOwns(Init(auto), steps, c, leaked);
  }

  /** The run has no connect call: only disconnects, reconnects, polls and sends. */
  predicate NoConnect(steps: seq<Step>) {
    forall i | 0 <= i < |steps| :: !steps[i].DoConnect?
  }

  /** A run shaped like the probe's, with a connect at its start only, leaks nothing. */
  lemma {:induction false} OneConnectLeaksNothing(auto: bool, net: Net, steps: seq<Step>)
    requires ValidSteps(steps) && NoConnect(steps)
    ensures Overwritten(Init(auto), [DoConnect(net)] + steps) == 0
    decreases |steps|
  {
    var all := [DoConnect(net)] + steps;
    if steps == [] {
      assert all[..0] == [];
    } else {
      var n := |steps| - 1;
      OneConnectLeaksNothing(auto, net, steps[..n]);
      assert all[..n + 1] == [DoConnect(net)] + steps[..n];
    }
  }

  // ---------------------------------------------------------------------
  // Exhaustion
  // ---------------------------------------------------------------------

  ghost predicate Exhausted(c: Client) {
    !c.connected && c.retries == MAX_RETRIES
  }

  lemma {:induction false} ExhaustedForGood(c: Client, steps: seq<Step>)
    requires Exhausted(c) && ValidSteps(steps) && NoConnect(steps)
    ensures Exhausted(Exec(c, steps)) && Exec(c, steps).attempts == c.attempts
    decreases |steps|
  {
    if steps != [] {
      var n := |steps| - 1;
      ExhaustedForGood(c, steps[..n]);
      assert !steps[n].DoConnect?;
    }
  }

  /** A client that has failed ten times in a row makes no further attempt of its own. */
  lemma TenFailuresAreFinal(auto: bool, steps: seq<Step>, more: seq<Step>)
    requires ValidSteps(steps) && ValidSteps(more) && NoConnect(more)
    requires |Exec(Init(auto), steps).failures| == MAX_RETRIES
    ensures var c := Exec(Init(auto), steps);
            !Exec(c, more).connected && Exec(c, more).attempts == c.attempts
  {
    RunKeepsInv(Init(auto), steps);
    ExhaustedForGood(Exec(Init(auto), steps), more);
  }

  // ---------------------------------------------------------------------
  // Spacing of failed attempts
  // ---------------------------------------------------------------------

  /** The clock after a step that began at `clock`. */
  function Later(step: Step, clock: nat): nat {
    match step
    case DoReconnect(now, _) => now
    case DoSend(x) => x.now2
    case _ => clock
  }

  function Clock(steps: seq<Step>): nat {
    if steps == [] then 0 else Later(steps[|steps| - 1], Clock(steps[..|steps| - 1]))
  }

  /** The step's clock readings are not zero and do not go back behind `clock`. */
  predicate Onward(step: Step, clock: nat) {
    match step
    case DoReconnect(now, _) => 0 < now && clock <= now
    case DoSend(x) => 0 < x.now && clock <= x.now <= x.now2
    case _ => true
  }

  /** The run's clock never goes back. */
  predicate Clocked(steps: seq<Step>)
    decreases |steps|
  {
    steps == [] ||
    (Clocked(steps[..|steps| - 1]) && Onward(steps[|steps| - 1], Clock(steps[..|steps| - 1])))
  }

  /** Failure `i` came at least the `i`-th delay after the one before it. */
  ghost predicate Spaced(failures: seq<nat>) {
    forall i, j | 0 <= i && j == i + 1 < |failures| ::
      failures[j] - failures[i] >= BackoffDelay(j, INITIAL_DELAY, MAX_DELAY)
  }

  ghost predicate Timed(c: Client, clock: nat) {
    && Inv(c)
    && c.last <= clock
    && Spaced(c.failures)
    && (c.failures != [] ==> 0 < c.failures[|c.failures| - 1] <= c.last)
  }

  /** A reconnect waits, gives up, succeeds, or records a failure it was allowed to attempt. */
  lemma ReconnectOutcomes(c: Client, now: nat, net: Net)
    ensures var c' := Reconnect(c, now, net);
            || c' == c
            || c' == c.(last := now)
            || (c'.failures == [] && c'.last == now)
            || (c'.failures == c.failures + [now] && c'.last == now && !MustWait(c, now))
  {
  }

  lemma ReconnectTimed(c: Client, now: nat, net: Net)
    requires Timed(c, now) && now > 0
    ensures Timed(Reconnect(c, now, net), now)
  {
    ReconnectKeepsInv(c, now, net);
    ReconnectOutcomes(c, now, net);
    if !MustWait(c, now) {
      SpacedSnoc(c, now);
    }
  }

  lemma SpacedSnoc(c: Client, now: nat)
    requires Timed(c, now) && !MustWait(c, now)
    ensures Spaced(c.failures + [now])
  {
  }

  lemma CountedTimed(c: Client, x: Call, end: LoopEnd, clock: nat)
    requires Timed(c, clock) && x.len >= 0 && (end.Broken? ==> end.taken <= x.len)
    ensures Timed(Counted(c, x, end), clock)
  {
    CountedKeepsInv(c, x, end);
  }

  lemma RecoverTimed(c: Client, now: nat, net: Net)
    requires Timed(c, now) && now > 0
    ensures Timed(Recover(c, now, net), now)
  {
    ReconnectTimed(c, now, net);
  }

  lemma SendTimed(c: Client, x: Call)
    requires Timed(c, x.now) && ValidCall(x) && 0 < x.now <= x.now2
    ensures Timed(Send(c, x), x.now2)
  {
    RecoverTimed(c, x.now, x.net);
    if Reaches(c, x) {
      var c1, end := BeforeSend(c, x), SendLoop(x.replies, x.len, 0);
      CountedTimed(c1, x, end, x.now2);
      RecoverTimed(Counted(c1, x, end), x.now2, x.net2);
    }
  }

  lemma StepTimed(c: Client, step: Step, clock: nat)
    requires Timed(c, clock) && ValidStep(step) && Onward(step, clock)
    ensures Timed(Apply(c, step), Later(step, clock))
  {
    match step
    case DoConnect(_) =>
    case DoDisconnect =>
    case DoReconnect(now, net) => ReconnectTimed(c, now, net);
    case DoPoll(_) =>
    case DoSend(x) => SendTimed(c, x);
  }

  lemma {:induction false} RunTimed(c: Client, steps: seq<Step>)
    requires Timed(c, 0) && ValidSteps(steps) && Clocked(steps)
    ensures Timed(Exec(c, steps), Clock(steps))
    decreases |steps|
  {
    if steps != [] {
      var n := |steps| - 1;
      RunTimed(c, steps[..n]);
      StepTimed(Exec(c, steps[..n]), steps[n], Clock(steps[..n]));
    }
  }

  /** The delays after the first to the `k`-th failure, added up. */
  function TotalDelay(k: nat): nat {
    if k == 0 then 0 else TotalDelay(k - 1) + Min(INITIAL_DELAY * Pow2(k), MAX_DELAY)
  }

  lemma {:induction false} SpanOf(failures: seq<nat>, k: nat)
    requires Spaced(failures) && k < |failures| <= MAX_RETRIES
    ensures failures[k] - failures[0] >= TotalDelay(k)
  {
    if k > 0 {
      SpanOf(failures, k - 1);
      BackoffDoubles(k);
      assert failures[k] - failures[k - 1] >= BackoffDelay(k, INITIAL_DELAY, MAX_DELAY);
    }
  }

  /**
   * In every run under a clock that never goes back and is not zero, the
   * first k + 1 failures in a row since the last connection span at least the
   * first k delays.
   */
  lemma FailuresAreSpread(auto: bool, steps: seq<Step>, k: nat)
    requires ValidSteps(steps) && Clocked(steps)
    requires k < |Exec(Init(auto), steps).failures|
    ensures var failures := Exec(Init(auto), steps).failures;
            failures[k] - failures[0] >= TotalDelay(k)
  {
    RunTimed(Init(auto), steps);
    SpanOf(Exec(Init(auto), steps).failures, k);
  }

  /**
   * After an attempt that failed at `now`, another one is held back exactly
   * until the doubled delay is over, if `now` is not zero.
   */
  lemma HeldBackIff(c: Client, now: nat, net: Net, later: nat)
    requires Inv(c) && c.auto && !MustWait(c, now) && c.retries < MAX_RETRIES && !Establishes(net) && now <= later
    ensures MustWait(Reconnect(c, now, net), later) <==>
            now > 0 && later < now + Min(INITIAL_DELAY * Pow2(c.retries + 1), MAX_DELAY)
  {
    var c' := Reconnect(c, now, net);
    assert c'.last == now && c'.delay == BackoffDelay(c.retries + 1, INITIAL_DELAY, MAX_DELAY);
    BackoffDoubles(c.retries + 1);
  }

  /** A reading of zero is taken for no attempt at all: the next attempt need not wait. */
  lemma ClockZeroIsNotRemembered(c: Client, net: Net, net2: Net)
    requires Inv(c) && c.auto && c.last == 0 && c.retries + 2 <= MAX_RETRIES
    requires !Establishes(net) && !Establishes(net2)
    ensures Reconnect(Reconnect(c, 0, net), 0, net2).failures == c.failures + [0, 0]
  {
    var c1 := Reconnect(c, 0, net);
    assert c.failures + [0] + [0] == c.failures + [0, 0];
  }

  // ---------------------------------------------------------------------
  // The byte counters
  // ---------------------------------------------------------------------

  /** A reply that ends the send loop. */
  predicate Stops(r: Reply) {
    r == ConnectionLost || r == OtherError || r == WouldBlock(false)
  }

  /** The first reply that would end the loop, or the number of replies. */
  function FirstStop(replies: seq<Reply>): (k: nat)
    ensures k <= |replies| && (k < |replies| ==> Stops(replies[k]))
    ensures forall i | 0 <= i < k :: !Stops(replies[i])
  {
    if replies == [] || Stops(replies[0]) then 0 else 1 + FirstStop(replies[1..])
  }

  /** The octets the socket takes in these replies. */
  function Octets(replies: seq<Reply>): nat {
    if replies == [] then 0 else (if replies[0].Took? then replies[0].n else 0) + Octets(replies[1..])
  }

  /** The octets taken before the first reply that would end the loop. */
  function Accepted(replies: seq<Reply>): nat {
    Octets(replies[..FirstStop(replies)])
  }

  /** The octets of a request that neither counter will show. */
  function Missing(replies: seq<Reply>, len: nat): nat {
    var k := FirstStop(replies);
    if Accepted(replies) >= len then 0
    else if k < |replies| && replies[k] == ConnectionLost then Accepted(replies)
    else len
  }

  /** The socket takes everything, or loses the connection before it takes anything. */
  ghost predicate AllOrNothing(replies: seq<Reply>, len: nat) {
    || Accepted(replies) >= len
    || exists k | 0 <= k < |replies| ::
         replies[k] == ConnectionLost &&
         forall i | 0 <= i < k :: replies[i] in {Interrupted, WouldBlock(true), Took(0)}
  }

  lemma AcceptedStep(replies: seq<Reply>)
    requires replies != [] && !Stops(replies[0])
    ensures FirstStop(replies) == 1 + FirstStop(replies[1..])
    ensures Accepted(replies) == (if replies[0].Took? then replies[0].n else 0) + Accepted(replies[1..])
  {
    var k := FirstStop(replies[1..]);
    assert replies[..k + 1][1..] == replies[1..][..k];
  }

  /** The loop's end, read off the replies. */
  lemma {:induction false} LoopEnds(replies: seq<Reply>, len: nat, taken: nat)
    requires Finishes(replies, len, taken) && taken <= len
    ensures var k, all, end := FirstStop(replies), taken + Accepted(replies), SendLoop(replies, len, taken);
            && (all >= len <==> end == Complete)
            && (all < len ==> k < |replies| &&
                              end == if replies[k] == ConnectionLost then Broken(all) else GaveUp(all))
    decreases |replies|
  {
    if taken < len && !Stops(replies[0]) {
      AcceptedStep(replies);
      LoopEnds(replies[1..], len, taken + if replies[0].Took? then replies[0].n else 0);
    }
  }

  lemma {:induction false} NoOctetsIff(replies: seq<Reply>)
    requires forall i | 0 <= i < |replies| :: !Stops(replies[i])
    ensures Octets(replies) == 0 <==>
            forall i | 0 <= i < |replies| :: replies[i] in {Interrupted, WouldBlock(true), Took(0)}
    decreases |replies|
  {
    if replies != [] {
      NoOctetsIff(replies[1..]);
      assert forall i | 0 < i < |replies| :: replies[i] == replies[1..][i - 1];
    }
  }

  lemma MissingZeroIff(replies: seq<Reply>, len: nat)
    requires len > 0
    ensures Missing(replies, len) <= len
    ensures Missing(replies, len) == 0 <==> AllOrNothing(replies, len)
  {
    var k := FirstStop(replies);
    NoOctetsIff(replies[..k]);
    if Accepted(replies) < len && AllOrNothing(replies, len) {
      var j :| 0 <= j < |replies| && replies[j] == ConnectionLost &&
               forall i | 0 <= i < j :: replies[i] in {Interrupted, WouldBlock(true), Took(0)};
      assert j == k;
      assert forall i | 0 <= i < k :: replies[..k][i] == replies[i];
    }
    if Missing(replies, len) == 0 && Accepted(replies) < len {
      assert forall i | 0 <= i < k :: replies[..k][i] == replies[i];
      assert replies[k] == ConnectionLost;
    }
  }

  lemma RecoverKeepsCounters(c: Client, now: nat, net: Net)
    ensures Recover(c, now, net).sent == c.sent && Recover(c, now, net).lost == c.lost
  {
  }

  /**
   * A request put to the socket is accounted for in `sent` and `lost` but for
   * its missing octets; there are none exactly when the socket takes it all or
   * loses the connection before it takes anything.
   */
  lemma CountersExactIff(c: Client, x: Call)
    requires ValidCall(x) && Reaches(c, x)
    ensures Send(c, x).sent + Send(c, x).lost + Missing(x.replies, x.len) == c.sent + c.lost + x.len
    ensures Missing(x.replies, x.len) <= x.len
    ensures Missing(x.replies, x.len) == 0 <==> AllOrNothing(x.replies, x.len)
  {
    LoopEnds(x.replies, x.len, 0);
    MissingZeroIff(x.replies, x.len);
    RecoverKeepsCounters(c, x.now, x.net);
    RecoverKeepsCounters(Counted(BeforeSend(c, x), x, SendLoop(x.replies, x.len, 0)), x.now2, x.net2);
  }

  /** What a request adds to `sent`: all of it, once the socket has taken all of it. */
  function SentBy(replies: seq<Reply>, len: nat): nat {
    if Accepted(replies) >= len then len else 0
  }

  /** The connection is lost before the socket has taken the whole request. */
  predicate Breaks(replies: seq<Reply>, len: nat) {
    var k := FirstStop(replies);
    Accepted(replies) < len && k < |replies| && replies[k] == ConnectionLost
  }

  /** What it adds to `lost`: the octets not taken when the connection is lost. */
  function LostBy(replies: seq<Reply>, len: nat): nat {
    if Breaks(replies, len) then len - Accepted(replies) else 0
  }

  /** A request put to the socket moves each counter by what the replies say. */
  lemma CountersByReplies(c: Client, x: Call)
    requires ValidCall(x) && Reaches(c, x)
    ensures Send(c, x).sent == c.sent + SentBy(x.replies, x.len)
    ensures Send(c, x).lost == c.lost + LostBy(x.replies, x.len)
  {
    LoopEnds(x.replies, x.len, 0);
    RecoverKeepsCounters(c, x.now, x.net);
    RecoverKeepsCounters(Counted(BeforeSend(c, x), x, SendLoop(x.replies, x.len, 0)), x.now2, x.net2);
  }

  /** The call puts its request to the socket. */
  predicate Sends(c: Client, step: Step) {
    step.DoSend? && Reaches(c, step.call)
  }

  /** The octets of all requests put to the socket. */
  function Requested(c: Client, steps: seq<Step>): nat
    requires ValidSteps(steps)
  {
    if steps == [] then 0
    else
      var n := |steps| - 1;
      Requested(c, steps[..n]) + if Sends(Exec(c, steps[..n]), steps[n]) then steps[n].call.len else 0
  }

  /** The octets missing from the counters. */
  function Unaccounted(c: Client, steps: seq<Step>): nat
    requires ValidSteps(steps)
  {
    if steps == [] then 0
    else
      var n := |steps| - 1;
      Unaccounted(c, steps[..n]) +
      if Sends(Exec(c, steps[..n]), steps[n]) then Missing(steps[n].call.replies, steps[n].call.len) else 0
  }

  /** The request of step `i`, if it is put to the socket, is taken whole or lost whole. */
  ghost predicate WholeAt(c: Client, steps: seq<Step>, i: nat)
    requires ValidSteps(steps) && i < |steps|
  {
    Sends(Exec(c, steps[..i]), steps[i]) ==> AllOrNothing(steps[i].call.replies, steps[i].call.len)
  }

  ghost predicate AllWhole(c: Client, steps: seq<Step>)
    requires ValidSteps(steps)
  {
    forall i | 0 <= i < |steps| :: WholeAt(c, steps, i)
  }

  lemma QuietStep(c: Client, step: Step)
    requires ValidStep(step) && !Sends(c, step)
    ensures Apply(c, step).sent == c.sent && Apply(c, step).lost == c.lost
  {
    if step.DoSend? {
      RecoverKeepsCounters(c, step.call.now, step.call.net);
    }
  }

  lemma StepCounters(c: Client, step: Step)
    requires ValidStep(step)
    ensures Apply(c, step).sent + Apply(c, step).lost +
            (if Sends(c, step) then Missing(step.call.replies, step.call.len) else 0) ==
            c.sent + c.lost + if Sends(c, step) then step.call.len else 0
    ensures Sends(c, step) ==>
              (Missing(step.call.replies, step.call.len) == 0 <==> AllOrNothing(step.call.replies, step.call.len))
  {
    if Sends(c, step) {
      CountersExactIff(c, step.call);
    } else {
      QuietStep(c, step);
    }
  }

  lemma SameWholeAt(c: Client, steps: seq<Step>, n: nat, i: nat)
    requires ValidSteps(steps) && i < n <= |steps|
    ensures WholeAt(c, steps[..n], i) <==> WholeAt(c, steps, i)
  {
    assert steps[..n][..i] == steps[..i];
  }

  /** The octets of all requests the socket took whole. */
  function AllSent(c: Client, steps: seq<Step>): nat
    requires ValidSteps(steps)
  {
    if steps == [] then 0
    else
      var n := |steps| - 1;
      AllSent(c, steps[..n]) +
      if Sends(Exec(c, steps[..n]), steps[n]) then SentBy(steps[n].call.replies, steps[n].call.len) else 0
  }

  /** The octets left over by all requests during which the connection was lost. */
  function AllLost(c: Client, steps: seq<Step>): nat
    requires ValidSteps(steps)
  {
    if steps == [] then 0
    else
      var n := |steps| - 1;
      AllLost(c, steps[..n]) +
      if Sends(Exec(c, steps[..n]), steps[n]) then LostBy(steps[n].call.replies, steps[n].call.len) else 0
  }

  /** In every run each counter is the sum of what the replies to its requests say. */
  lemma {:induction false} RunCountersByReplies(c: Client, steps: seq<Step>)
    requires ValidSteps(steps)
    ensures Exec(c, steps).sent == c.sent + AllSent(c, steps) && Exec(c, steps).lost == c.lost + AllLost(c, steps)
    decreases |steps|
  {
    if steps != [] {
      var n := |steps| - 1;
      RunCountersByReplies(c, steps[..n]);
      var mid := Exec(c, steps[..n]);
      if Sends(mid, steps[n]) {
        CountersByReplies(mid, steps[n].call);
      } else {
        QuietStep(mid, steps[n]);
      }
    }
  }

  // ---------------------------------------------------------------------
  // What each operation does, read off its inputs
  // ---------------------------------------------------------------------

  /** An attempt succeeds exactly when every system call on its way does. */
  lemma AttemptSucceedsIff(c: Client, net: Net)
    requires !c.connected
    ensures var c' := Connect(c, net);
            && c'.attempts == c.attempts + 1
            && (c'.connected <==>
                  && net.socket >= 0 && net.nonblocking && net.addressOk && net.connect != Refused
                  && (net.connect == InProgress ==> net.select > 0 && net.optionOk && net.soError == 0))
            && (c'.connected ==> c'.sockFd == net.socket && c'.connects == c.connects + 1)
            && (!c'.connected ==> c'.sockFd < 0 && c'.connects == c.connects)
            && c'.created == c.created + (if net.socket >= 0 then 1 else 0)
            && c'.closed == c.closed + (if net.socket >= 0 && !c'.connected then 1 else 0)
  {
  }

  /** What a reconnect does, case by case. */
  lemma ReconnectDoes(c: Client, now: nat, net: Net)
    requires Inv(c)
    ensures var c' := Reconnect(c, now, net);
            if !c.auto || MustWait(c, now) then c' == c
            else if c.retries == MAX_RETRIES then c' == c.(last := now)
            else
              && c'.last == now && c'.attempts == c.attempts + 1
              && (c'.connected <==> Establishes(net))
              && (c'.connected ==> && c'.retries == 0 && c'.failures == []
                                   && c'.connects == c.connects + 1 && c'.reconnects == c.reconnects + 1)
              && (!c'.connected ==> && c'.retries == c.retries + 1 && c'.failures == c.failures + [now]
                                    && c'.connects == c.connects && c'.reconnects == c.reconnects)
  {
    if c.auto && !MustWait(c, now) && c.retries < MAX_RETRIES {
      var c1 := Disconnect(c.(last := now));
      assert !c1.connected && c1.retries == c.retries && c1.failures == c.failures;
      assert Connect(c1, net).connected <==> Establishes(net);
    }
  }

  /** Disconnecting gives up descriptor and connection; a probe only gives up a connection whose peer is gone. */
  lemma DisconnectAndPollDo(c: Client, alive: bool)
    requires Inv(c)
    ensures !Disconnect(c).connected && Disconnect(c).sockFd < 0 && Disconnect(c).closed == c.closed + Held(c)
    ensures Poll(c, alive) == c.(connected := c.connected && alive)
  {
  }

  /** A connected client's send, read off the length and the replies. */
  lemma SendDoes(c: Client, x: Call)
    requires Inv(c) && c.connected && ValidCall(x)
    ensures var taken := Accepted(x.replies);
            SendResult(c, x) ==
            if x.body <= 0 || x.len <= 0 || x.len >= 65536 then -1
            else if taken >= x.len then x.len
            else if Breaks(x.replies, x.len) || taken == 0 then -1
            else taken
    ensures x.body <= 0 || x.len <= 0 || x.len >= 65536 ==> Send(c, x) == c
    ensures x.body > 0 && 0 < x.len < 65536 && !Breaks(x.replies, x.len) ==>
              Send(c, x) == c.(sent := c.sent + SentBy(x.replies, x.len))
    ensures x.body > 0 && 0 < x.len < 65536 && Breaks(x.replies, x.len) ==>
              Send(c, x) ==
              Recover(c.(connected := false, lost := c.lost + (x.len - Accepted(x.replies))), x.now2, x.net2)
  {
    if 0 < x.len < 65536 {
      LoopEnds(x.replies, x.len, 0);
    }
  }

  /** A disconnected client's send tries to reconnect once, if that is on, and goes on only if it worked. */
  lemma SendReconnectsFirst(c: Client, x: Call)
    requires !c.connected && ValidCall(x)
    ensures x.body <= 0 ==> Send(c, x) == c && SendResult(c, x) == -1
    ensures x.body > 0 && !c.auto ==> Send(c, x) == c && SendResult(c, x) == -1
    ensures x.body > 0 && c.auto ==>
              var c' := Reconnect(c, x.now, x.net);
              if c'.connected then Send(c, x) == Send(c', x) && SendResult(c, x) == SendResult(c', x)
              else Send(c, x) == c' && SendResult(c, x) == -1
  {
  }

  lemma AllWholeSnoc(c: Client, steps: seq<Step>)
    requires ValidSteps(steps) && steps != []
    ensures var n := |steps| - 1; AllWhole(c, steps) <==> AllWhole(c, steps[..n]) && WholeAt(c, steps, n)
  {
    var n := |steps| - 1;
    forall i | 0 <= i < n
      ensures WholeAt(c, steps[..n], i) <==> WholeAt(c, steps, i)
    {
      SameWholeAt(c, steps, n, i);
    }
  }

  /** In every run the counters and the missing octets together are the octets requested. */
  lemma {:induction false} RunCounters(c: Client, steps: seq<Step>)
    requires ValidSteps(steps)
    ensures Exec(c, steps).sent + Exec(c, steps).lost + Unaccounted(c, steps) == c.sent + c.lost + Requested(c, steps)
    decreases |steps|
  {
    if steps != [] {
      var n := |steps| - 1;
      RunCounters(c, steps[..n]);
      StepCounters(Exec(c, steps[..n]), steps[n]);
    }
  }

  /** None are missing exactly when every request put to the socket is taken whole or lost whole. */
  lemma {:induction false} RunCountersExactIff(c: Client, steps: seq<Step>)
    requires ValidSteps(steps)
    ensures Exec(c, steps).sent + Exec(c, steps).lost == c.sent + c.lost + Requested(c, steps) <==> AllWhole(c, steps)
    ensures Unaccounted(c, steps) == 0 <==> AllWhole(c, steps)
    decreases |steps|
  {
    RunCounters(c, steps);
    if steps != [] {
      var n := |steps| - 1;
      RunCountersExactIff(c, steps[..n]);
      StepCounters(Exec(c, steps[..n]), steps[n]);
      AllWholeSnoc(c, steps);
    }
  }

  /** Four octets of ten are taken before an error: four is returned, and neither counter moves. */
  lemma PartialSendIsNotCounted(c: Client, x: Call)
    requires c.connected && x.body > 0 && x.len == 10 && x.replies == [Took(4), OtherError]
    ensures ValidCall(x) && Send(c, x) == c && SendResult(c, x) == 4 && Missing(x.replies, 10) == 10
  {
    assert x.replies[1..] == [OtherError];
    AcceptedStep(x.replies);
    LoopEnds(x.replies, 10, 0);
  }
}
