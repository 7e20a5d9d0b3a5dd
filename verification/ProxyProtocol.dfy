/**
  The proxy RPC: callers, the connection pool and its semaphore, the writer and reader tasks of each
  connection, and the device, as one interleaving system.

  Replies carry no request id. Only `Request.id` and `State.log` are history: no guard reads them. They
  exist so that "the answer to that same request" can be stated at all.
*/
module ProxyProtocol {
  import opened Bytes
  import opened ProxyLimits

  type CallerId = nat
  type ConnId = nat

  /** Slots in the `write_tx` and `resp_tx` channels. */
  const CHANNEL_SLOTS: nat := 64

  datatype Request = Request(id: CallerId, op: byte, args: seq<byte>)

  /** One request the device served, and the reply frame it wrote for it. */
  datatype Exchange = Exchange(request: Request, body: seq<byte>)

  /** `Broken`: the loop has been left but this end of the channel is not dropped yet. */
  datatype Task = Running | Broken | Exited

  datatype Conn = Conn(
    closed: bool, poisoned: bool, locked: bool,
    writer: Task, reader: Task,
    writeQ: seq<Request>, toDevice: seq<Request>,
    toHost: seq<seq<byte>>, respQ: seq<seq<byte>>)
  {
    predicate Flagged() { closed || poisoned }

    predicate Quiet() { writeQ == [] && toDevice == [] && toHost == [] && respQ == [] }

    /** With at most one message in flight, the heads of the queues are all there is. */
    predicate Carries(k: CallerId) {
      (writeQ != [] && writeQ[0].id == k) || (toDevice != [] && toDevice[0].id == k)
    }
  }

  const FreshConn := Conn(false, false, false, Running, Running, [], [], [], [])

  /** What a call comes back with. */
  datatype Outcome =
    | Data(data: seq<byte>)
    | Failed(status: byte, text: seq<byte>)
    | EmptyFrame
    | TooLarge | ConnClosed | TimedOut | NotSent | Busy | DialFailed
  {
    /** Taken from a reply frame. */
    predicate Replied() { Data? || Failed? || EmptyFrame? }
  }

  /** Where one call stands. A call acquires a connection, makes at most one request and releases it. */
  datatype Phase =
    | WaitPermit
    | PopReady                              // permit held, at the top of the acquire loop
    | Dialing(retry: bool)                  // opening a connection; retry: a dead one was popped
    | Holding(conn: ConnId)                 // acquire returned
    | PastCheck(conn: ConnId)               // closed/poisoned read as clear, wants req_lock
    | Locked(conn: ConnId)                  // req_lock held, frame not queued
    | Awaiting(conn: ConnId)                // frame queued, waiting for one reply
    | TimingOut(conn: ConnId)               // poisoned set, closed not yet
    | Releasing(conn: ConnId, out: Outcome) // request returned
    | Pushing(conn: ConnId, out: Outcome)   // release saw clear flags, wants the pool lock
    | Finishing(out: Outcome)               // connection given up, permit still held
    | Done(out: Outcome)
    | Cancelled
  {
    predicate HasConn() { Holding? || PastCheck? || Locked? || Awaiting? || TimingOut? || Releasing? || Pushing? }

    predicate HasPermit() { HasConn() || PopReady? || Dialing? || Finishing? }

    /** Between the pop and the push: this call owns one slot of the pool. */
    predicate Borrows() { HasConn() || Dialing? }

    predicate HoldsLock() { Locked? || Awaiting? || TimingOut? }

    predicate BeforeSend() { WaitPermit? || PopReady? || Dialing? || Holding? || PastCheck? || Locked? }

    predicate HasOutcome() { Releasing? || Pushing? || Finishing? || Done? }

    predicate GotReply() { HasOutcome() && out.Replied() }
  }

  datatype Caller = Caller(op: byte, args: seq<byte>, phase: Phase)

  datatype State = State(
    maxConns: nat, pool: seq<ConnId>, permits: nat, conns: seq<Conn>,
    callers: map<CallerId, Caller>, log: map<CallerId, Exchange>)

  ghost predicate Init(s: State) {
    && s.pool == seq(s.maxConns, i => i)
    && s.permits == s.maxConns
    && s.conns == seq(s.maxConns, i => FreshConn)
    && s.callers == map[]
    && s.log == map[]
  }

  /** `Status::from_u8`: unknown codes read as NotSupported. */
  function StatusCode(b: byte): byte {
    if b <= 0x0A then b else 0x0B
  }

  /** How `request` turns a reply frame into its result. */
  function Interpret(body: seq<byte>): Outcome {
    if body == [] then EmptyFrame
    else if body[0] == 0 then Data(body[1..])
    else Failed(StatusCode(body[0]), body[1..])
  }

  // ----- Steps

  /** Steps of `acquire`, `release` and of dropping a call. */
  datatype PoolStep =
    | Begin(op: byte, args: seq<byte>)
    | GetPermit | PermitTimeout
    | Pop | DialOk | DialErr
    | ReleaseCheck | ReleasePush | DropPermit
    | Cancel

  /** Steps of `request` on the connection the call holds. */
  datatype RequestStep =
    | SkipRequest | Check | Lock | Send | SendFail | Receive | ReceiveNone | Poison | PoisonClose

  /** Steps of a connection's writer task, its reader task, and the device behind it. */
  datatype ConnStep =
    | Write
    | WriterBreak(delivered: bool) | WriterFlag | WriterExit
    | Answer(body: seq<byte>)
    | ReadFrame
    | ReaderStop | ReaderExit

  datatype Step =
    | ByPool(k: CallerId, ps: PoolStep)
    | ByRequest(k: CallerId, rs: RequestStep)
    | ByConn(c: ConnId, ns: ConnStep)

  predicate ConnEnabled(x: Conn, ns: ConnStep) {
    match ns
    case Write => x.writer.Running? && x.writeQ != []
    case WriterBreak(_) => x.writer.Running?
    case WriterFlag => x.writer.Broken?
    case WriterExit => x.writer.Broken? && x.closed
    case Answer(_) => x.toDevice != []
    case ReadFrame =>
      x.reader.Running? && x.toHost != [] && |x.toHost[0]| <= MAX_RESPONSE_FRAME && |x.respQ| < CHANNEL_SLOTS
    case ReaderStop => x.reader.Running?
    case ReaderExit => x.reader.Broken?
  }

  function ConnApply(x: Conn, ns: ConnStep): Conn
    requires ConnEnabled(x, ns)
  {
    match ns
    case Write => x.(writeQ := x.writeQ[1..], toDevice := x.toDevice + [x.writeQ[0]])
    case WriterBreak(delivered) =>
      // a failed write or flush: the frame in hand may or may not have reached the device
      if x.writeQ == [] then x.(writer := Broken)
      else if delivered then x.(writer := Broken, writeQ := x.writeQ[1..], toDevice := x.toDevice + [x.writeQ[0]])
      else x.(writer := Broken, writeQ := x.writeQ[1..])
    case WriterFlag => x.(closed := true)
    case WriterExit => x.(writer := Exited)
    case Answer(body) => x.(toDevice := x.toDevice[1..], toHost := x.toHost + [body])
    case ReadFrame => x.(toHost := x.toHost[1..], respQ := x.respQ + [x.toHost[0]])
    case ReaderStop => x.(reader := Broken, closed := true)
    case ReaderExit => x.(reader := Exited)
  }

  predicate RequestEnabled(x: Conn, p: Phase, rs: RequestStep) {
    match rs
    case SkipRequest => p.Holding?
    case Check => p.Holding?
    case Lock => p.PastCheck? && !x.locked
    case Send => p.Locked? && !x.writer.Exited? && |x.writeQ| < CHANNEL_SLOTS
    case SendFail => p.Locked? && x.writer.Exited?
    case Receive => p.Awaiting? && x.respQ != []
    case ReceiveNone => p.Awaiting? && x.respQ == [] && x.reader.Exited?
    case Poison => p.Locked? || p.Awaiting?
    case PoisonClose => p.TimingOut?
  }

  /** The connection and the phase of call `k` after one step of its request. */
  function RequestApply(x: Conn, k: CallerId, me: Caller, rs: RequestStep): (r: (Conn, Phase))
    requires RequestEnabled(x, me.phase, rs)
  {
    var c := me.phase.conn;
    match rs
    case SkipRequest => (x, Releasing(c, NotSent))
    case Check =>
      if x.Flagged() then (x, Releasing(c, ConnClosed))
      else if |me.args| > MAX_REQUEST then (x, Releasing(c, TooLarge))
      else (x, PastCheck(c))
    case Lock => (x.(locked := true), Locked(c))
    case Send => (x.(writeQ := x.writeQ + [Request(k, me.op, me.args)]), Awaiting(c))
    case SendFail => (x.(locked := false), Releasing(c, ConnClosed))
    case Receive => (x.(respQ := x.respQ[1..], locked := false), Releasing(c, Interpret(x.respQ[0])))
    case ReceiveNone => (x.(locked := false), Releasing(c, ConnClosed))
    case Poison => (x.(poisoned := true), TimingOut(c))
    case PoisonClose => (x.(closed := true, locked := false), Releasing(c, TimedOut))
  }

  predicate PoolEnabled(s: State, p: Phase, ps: PoolStep) {
    match ps
    case Begin(_, _) => false
    case GetPermit => p.WaitPermit? && s.permits > 0
    case PermitTimeout => p.WaitPermit?
    case Pop => p.PopReady? && (s.pool != [] ==> s.pool[|s.pool| - 1] < |s.conns|)
    case DialOk => p.Dialing?
    case DialErr => p.Dialing?
    case ReleaseCheck => p.Releasing?
    case ReleasePush => p.Pushing?
    case DropPermit => p.Finishing?
    case Cancel => !p.Done? && !p.Cancelled?
  }

  predicate Enabled(s: State, st: Step) {
    match st
    case ByPool(k, ps) =>
      if ps.Begin? then k !in s.callers
      else k in s.callers && ConnInRange(s, k) && PoolEnabled(s, s.callers[k].phase, ps)
    case ByRequest(k, rs) =>
      k in s.callers && s.callers[k].phase.HasConn() && ConnInRange(s, k) &&
      RequestEnabled(s.conns[s.callers[k].phase.conn], s.callers[k].phase, rs)
    case ByConn(c, ns) => c < |s.conns| && ConnEnabled(s.conns[c], ns)
  }

  predicate ConnInRange(s: State, k: CallerId)
    requires k in s.callers
  {
    s.callers[k].phase.HasConn() ==> s.callers[k].phase.conn < |s.conns|
  }

  function Move(s: State, k: CallerId, p: Phase): State
    requires k in s.callers
  {
    s.(callers := s.callers[k := s.callers[k].(phase := p)])
  }

  function SetConn(s: State, c: ConnId, x: Conn): State
    requires c < |s.conns|
  {
    s.(conns := s.conns[c := x])
  }

  function PoolApply(s: State, k: CallerId, ps: PoolStep): State
    requires Enabled(s, ByPool(k, ps))
  {
    if ps.Begin? then s.(callers := s.callers[k := Caller(ps.op, ps.args, WaitPermit)]) else
    var p := s.callers[k].phase;
    match ps
    case GetPermit => Move(s.(permits := s.permits - 1), k, PopReady)
    case PermitTimeout => Move(s, k, Done(Busy))
    case Pop =>
      if s.pool == [] then Move(s, k, Dialing(false))
      else
        var c := s.pool[|s.pool| - 1];
        Move(s.(pool := s.pool[..|s.pool| - 1]), k, if s.conns[c].Flagged() then Dialing(true) else Holding(c))
    case DialOk => Move(s.(conns := s.conns + [FreshConn]), k, Holding(|s.conns|))
    case DialErr => Move(s, k, if p.retry then PopReady else Finishing(DialFailed))
    case ReleaseCheck => Move(s, k, if s.conns[p.conn].Flagged() then Finishing(p.out) else Pushing(p.conn, p.out))
    case ReleasePush =>
      Move(if |s.pool| < s.maxConns then s.(pool := s.pool + [p.conn]) else s, k, Finishing(p.out))
    case DropPermit => Move(s.(permits := s.permits + 1), k, Done(p.out))
    case Cancel =>
      // the future is dropped: permit and lock guards go with it, the connection is not returned
      var s1 := if p.HasPermit() then s.(permits := s.permits + 1) else s;
      Move(if p.HoldsLock() then SetConn(s1, p.conn, s.conns[p.conn].(locked := false)) else s1, k, Cancelled)
  }

  function Apply(s: State, st: Step): State
    requires Enabled(s, st)
  {
    match st
    case ByPool(k, ps) => PoolApply(s, k, ps)
    case ByRequest(k, rs) =>
      var c := s.callers[k].phase.conn;
      var (x, p) := RequestApply(s.conns[c], k, s.callers[k], rs);
      Move(SetConn(s, c, x), k, p)
    case ByConn(c, ns) =>
      var x := s.conns[c];
      var s' := SetConn(s, c, ConnApply(x, ns));
      if ns.Answer? then s'.(log := s.log[x.toDevice[0].id := Exchange(x.toDevice[0], ns.body)]) else s'
  }

  // ----- Invariant

  ghost function PermitHolders(callers: map<CallerId, Caller>): set<CallerId> {
    set k | k in callers && callers[k].phase.HasPermit()
  }

  ghost function Borrowers(callers: map<CallerId, Caller>): set<CallerId> {
    set k | k in callers && callers[k].phase.Borrows()
  }

  /** The semaphore counts exactly the calls that hold a permit; pooled plus borrowed slots fit the pool. */
  ghost predicate Counted(s: State) {
    && s.permits + |PermitHolders(s.callers)| == s.maxConns
    && |s.pool| + |Borrowers(s.callers)| <= s.maxConns
  }

  /** No connection is in two hands. */
  ghost predicate Exclusive(s: State) {
    && (forall i :: 0 <= i < |s.pool| ==> s.pool[i] < |s.conns|)
    && (forall i, j :: 0 <= i < j < |s.pool| ==> s.pool[i] != s.pool[j])
    && (forall k :: k in s.callers && s.callers[k].phase.HasConn() ==>
          s.callers[k].phase.conn < |s.conns| && s.callers[k].phase.conn !in s.pool)
    && (forall j, k | j in s.callers && k in s.callers && j != k &&
                      s.callers[j].phase.HasConn() && s.callers[k].phase.HasConn() ::
          s.callers[j].phase.conn != s.callers[k].phase.conn)
  }

  /** At most one message of any kind is in flight on a connection, and a task that is gone has set `closed`. */
  ghost predicate ConnOk(x: Conn) {
    && |x.writeQ| + |x.toDevice| + |x.toHost| + |x.respQ| <= 1
    && (x.writer.Exited? ==> x.closed)
    && (!x.reader.Running? ==> x.closed)
  }

  /** What the connection of call `k` looks like in each phase of the call. */
  ghost predicate HolderOk(x: Conn, k: CallerId, me: Caller, log: map<CallerId, Exchange>) {
    && x.locked == me.phase.HoldsLock()
    && match me.phase
       case Holding(_) => x.Quiet()
       case PastCheck(_) => x.Quiet()
       case Locked(_) => x.Quiet()
       case Awaiting(_) =>
         var r := Request(k, me.op, me.args);
         && (x.writeQ != [] ==> x.writeQ[0] == r)
         && (x.toDevice != [] ==> x.toDevice[0] == r)
         && (x.toHost != [] ==> k in log && log[k] == Exchange(r, x.toHost[0]))
         && (x.respQ != [] ==> k in log && log[k] == Exchange(r, x.respQ[0]))
       case TimingOut(_) => x.poisoned
       case Releasing(_, _) => x.Flagged() || x.Quiet()
       case Pushing(_, _) => x.Quiet()
       case _ => true
  }

  /** A result taken from a reply frame is the device's answer to this very request. */
  ghost predicate Answered(k: CallerId, me: Caller, out: Outcome, log: map<CallerId, Exchange>) {
    out.Replied() ==>
      k in log && log[k].request == Request(k, me.op, me.args) && out == Interpret(log[k].body)
  }

  ghost predicate InFlight(s: State, c: ConnId, k: CallerId) {
    c < |s.conns| && s.conns[c].Carries(k)
  }

  ghost predicate InStep(s: State) {
    && (forall c :: 0 <= c < |s.conns| ==> ConnOk(s.conns[c]))
    && (forall i :: 0 <= i < |s.pool| ==>
          s.pool[i] < |s.conns| && s.conns[s.pool[i]].Quiet() && !s.conns[s.pool[i]].locked)
    && (forall k :: k in s.callers && s.callers[k].phase.HasConn() && s.callers[k].phase.conn < |s.conns| ==>
          HolderOk(s.conns[s.callers[k].phase.conn], k, s.callers[k], s.log))
    && (forall k :: k in s.callers && s.callers[k].phase.HasOutcome() ==>
          Answered(k, s.callers[k], s.callers[k].phase.out, s.log))
  }

  /** A request is queued once, on one connection, and answered once. */
  ghost predicate SentOnce(s: State) {
    && (forall k :: k in s.log ==> k in s.callers && !s.callers[k].phase.BeforeSend())
    && (forall c, k {:trigger InFlight(s, c, k)} :: InFlight(s, c, k) ==>
          && k !in s.log && k in s.callers && !s.callers[k].phase.BeforeSend()
          && (s.callers[k].phase.HasConn() ==> s.callers[k].phase.conn == c))
    && (forall c, d, k {:trigger InFlight(s, c, k), InFlight(s, d, k)} ::
          InFlight(s, c, k) && InFlight(s, d, k) ==> c == d)
  }

  ghost predicate Inv(s: State) {
    Counted(s) && Exclusive(s) && InStep(s) && SentOnce(s)
  }

  lemma InitInv(s: State)
    requires Init(s)
    ensures Inv(s)
  {
  }

  // ----- A call moves

  lemma CountsAfterMove(callers: map<CallerId, Caller>, k: CallerId, me: Caller)
    ensures |PermitHolders(callers[k := me])| + (if k in callers && callers[k].phase.HasPermit() then 1 else 0)
         == |PermitHolders(callers)| + (if me.phase.HasPermit() then 1 else 0)
    ensures |Borrowers(callers[k := me])| + (if k in callers && callers[k].phase.Borrows() then 1 else 0)
         == |Borrowers(callers)| + (if me.phase.Borrows() then 1 else 0)
  {
    var callers' := callers[k := me];
    SameButOne(PermitHolders(callers), PermitHolders(callers'), k);
    SameButOne(Borrowers(callers), Borrowers(callers'), k);
  }

  lemma SameButOne<T>(a: set<T>, b: set<T>, x: T)
    requires a - {x} == b - {x}
    ensures |b| + (if x in a then 1 else 0) == |a| + (if x in b then 1 else 0)
  {
    assert |a| == |a - {x}| + (if x in a then 1 else 0);
    assert |b| == |b - {x}| + (if x in b then 1 else 0);
  }

  lemma BorrowersHoldPermits(callers: map<CallerId, Caller>)
    ensures |Borrowers(callers)| <= |PermitHolders(callers)|
    ensures forall k :: k in callers && callers[k].phase.HasPermit() && !callers[k].phase.Borrows() ==>
              |Borrowers(callers)| < |PermitHolders(callers)|
  {
    CardinalityOfSubset(Borrowers(callers), PermitHolders(callers));
    forall k | k in callers && callers[k].phase.HasPermit() && !callers[k].phase.Borrows()
      ensures |Borrowers(callers)| < |PermitHolders(callers)|
    {
      CardinalityOfSubset(Borrowers(callers) + {k}, PermitHolders(callers));
    }
  }

  lemma {:induction false} CardinalityOfSubset<T>(a: set<T>, b: set<T>)
    requires a <= b
    ensures |a| <= |b|
  {
    assert |b - a| == |b| - |a|;
  }

  lemma PoolStepCounted(s: State, k: CallerId, ps: PoolStep)
    requires Counted(s) && Enabled(s, ByPool(k, ps))
    ensures Counted(Apply(s, ByPool(k, ps)))
  {
    var s' := Apply(s, ByPool(k, ps));
    CountsAfterMove(s.callers, k, s'.callers[k]);
    BorrowersHoldPermits(s.callers);
  }

  lemma RequestStepCounted(s: State, k: CallerId, rs: RequestStep)
    requires Counted(s) && Enabled(s, ByRequest(k, rs))
    ensures Counted(Apply(s, ByRequest(k, rs)))
  {
    CountsAfterMove(s.callers, k, Apply(s, ByRequest(k, rs)).callers[k]);
  }

  /** Everything about `s'` that does not concern call `k` and connection `c` is as in `s`. */
  ghost predicate OnlyTouches(s: State, s': State, k: CallerId, c: ConnId) {
    && k in s.callers && k in s'.callers
    && s'.callers == s.callers[k := s.callers[k].(phase := s'.callers[k].phase)]
    && s'.log == s.log
    && |s.conns| <= |s'.conns|
    && (forall d :: 0 <= d < |s.conns| && d != c ==> s'.conns[d] == s.conns[d])
    && (forall d :: |s.conns| <= d < |s'.conns| && d != c ==> s'.conns[d] == FreshConn)
  }

  /** The part of a call's step that the rest of the system relies on. */
  ghost predicate GoodMove(s: State, s': State, k: CallerId, c: ConnId) {
    && OnlyTouches(s, s', k, c)
    && var p, p' := s.callers[k].phase, s'.callers[k].phase;
    && (p'.BeforeSend() ==> p.BeforeSend())
    && (p'.HasConn() ==> p'.conn == c && c < |s'.conns|)
    && (p'.HasConn() ==> if p.HasConn() then p'.conn == p.conn else p.BeforeSend())
    && (c < |s'.conns| ==> ConnOk(s'.conns[c]))
    && (c < |s'.conns| && p'.HasConn() ==> HolderOk(s'.conns[c], k, s'.callers[k], s.log))
    && (p'.HasOutcome() ==> Answered(k, s'.callers[k], p'.out, s.log))
    && (forall j :: InFlight(s', c, j) ==>
          (c < |s.conns| && InFlight(s, c, j)) || (j == k && p.BeforeSend() && !p'.BeforeSend() && p'.HasConn()))
  }

  lemma MoveKeepsSentOnce(s: State, s': State, k: CallerId, c: ConnId)
    requires Exclusive(s) && SentOnce(s) && GoodMove(s, s', k, c)
    ensures SentOnce(s')
  {
    forall d, j | InFlight(s', d, j)
      ensures InFlight(s, d, j) || (d == c && j == k && s.callers[k].phase.BeforeSend())
    {
    }
  }

  /** How a call's step may change the pool: not at all, by taking its last connection, or by giving its own back. */
  ghost predicate PoolMove(s: State, s': State, k: CallerId, c: ConnId)
    requires OnlyTouches(s, s', k, c)
  {
    var p, p' := s.callers[k].phase, s'.callers[k].phase;
    if |s'.pool| == |s.pool| then
      s'.pool == s.pool && (p'.HasConn() ==> p.HasConn() || c == |s.conns|) &&
      (if p.HasConn() then p.conn == c else c >= |s.conns|)
    else if |s'.pool| < |s.pool| then
      s'.pool == s.pool[..|s.pool| - 1] && c == s.pool[|s.pool| - 1] && !p.HasConn() &&
      c < |s.conns| && s'.conns[c] == s.conns[c]
    else
      s'.pool == s.pool + [c] && p.HasConn() && p.conn == c && !p'.HasConn() &&
      c < |s.conns| && s'.conns[c].Quiet() && !s'.conns[c].locked
  }

  lemma MoveKeepsExclusive(s: State, s': State, k: CallerId, c: ConnId)
    requires Exclusive(s) && GoodMove(s, s', k, c) && PoolMove(s, s', k, c)
    ensures Exclusive(s')
  {
  }

  lemma MoveKeepsInStep(s: State, s': State, k: CallerId, c: ConnId)
    requires Exclusive(s) && InStep(s) && GoodMove(s, s', k, c) && PoolMove(s, s', k, c) && Exclusive(s')
    ensures InStep(s')
  {
  }

  /** The connection a pool step touches; past the end of `conns` when there is none yet. */
  ghost function Touched(s: State, k: CallerId, ps: PoolStep): ConnId
    requires k in s.callers
  {
    var p := s.callers[k].phase;
    if p.HasConn() then p.conn
    else if ps.Pop? && s.pool != [] then s.pool[|s.pool| - 1]
    else |s.conns|
  }

  /** One step of a request, seen from its connection alone. */
  lemma RequestStepLocal(x: Conn, k: CallerId, me: Caller, log: map<CallerId, Exchange>, rs: RequestStep)
    requires RequestEnabled(x, me.phase, rs) && ConnOk(x) && HolderOk(x, k, me, log)
    ensures var (x', p') := RequestApply(x, k, me, rs);
      && ConnOk(x') && HolderOk(x', k, me.(phase := p'), log)
      && p'.HasConn() && p'.conn == me.phase.conn
      && (p'.BeforeSend() ==> me.phase.BeforeSend())
      && (p'.HasOutcome() ==> Answered(k, me, p'.out, log))
      && (forall j :: x'.Carries(j) ==> x.Carries(j) || (j == k && me.phase.BeforeSend() && !p'.BeforeSend()))
  {
  }

  lemma RequestStepIsGoodMove(s: State, k: CallerId, rs: RequestStep)
    requires Exclusive(s) && InStep(s) && Enabled(s, ByRequest(k, rs))
    ensures GoodMove(s, Apply(s, ByRequest(k, rs)), k, s.callers[k].phase.conn)
    ensures PoolMove(s, Apply(s, ByRequest(k, rs)), k, s.callers[k].phase.conn)
  {
    RequestStepLocal(s.conns[s.callers[k].phase.conn], k, s.callers[k], s.log, rs);
  }

  lemma PermitStepIsGoodMove(s: State, k: CallerId, ps: PoolStep)
    requires Exclusive(s) && InStep(s) && Enabled(s, ByPool(k, ps)) && (ps.GetPermit? || ps.PermitTimeout?)
    ensures GoodMove(s, Apply(s, ByPool(k, ps)), k, Touched(s, k, ps))
  {
  }

  lemma DialIsGoodMove(s: State, k: CallerId, ps: PoolStep)
    requires Exclusive(s) && InStep(s) && Enabled(s, ByPool(k, ps)) && (ps.DialOk? || ps.DialErr?)
    ensures GoodMove(s, Apply(s, ByPool(k, ps)), k, Touched(s, k, ps))
  {
  }

  lemma PopIsGoodMove(s: State, k: CallerId, ps: PoolStep)
    requires Exclusive(s) && InStep(s) && Enabled(s, ByPool(k, ps)) && ps.Pop?
    ensures GoodMove(s, Apply(s, ByPool(k, ps)), k, Touched(s, k, ps))
  {
  }

  lemma ReleaseIsGoodMove(s: State, k: CallerId, ps: PoolStep)
    requires Exclusive(s) && InStep(s) && Enabled(s, ByPool(k, ps)) && (ps.ReleaseCheck? || ps.ReleasePush?)
    ensures GoodMove(s, Apply(s, ByPool(k, ps)), k, Touched(s, k, ps))
  {
  }

  lemma DropPermitIsGoodMove(s: State, k: CallerId, ps: PoolStep)
    requires Exclusive(s) && InStep(s) && Enabled(s, ByPool(k, ps)) && ps.DropPermit?
    ensures GoodMove(s, Apply(s, ByPool(k, ps)), k, Touched(s, k, ps))
  {
  }

  lemma CancelIsGoodMove(s: State, k: CallerId, ps: PoolStep)
    requires Exclusive(s) && InStep(s) && Enabled(s, ByPool(k, ps)) && ps.Cancel?
    ensures GoodMove(s, Apply(s, ByPool(k, ps)), k, Touched(s, k, ps))
  {
  }

  lemma PoolStepIsPoolMove(s: State, k: CallerId, ps: PoolStep)
    requires Exclusive(s) && InStep(s) && !ps.Begin? && Enabled(s, ByPool(k, ps))
    requires OnlyTouches(s, Apply(s, ByPool(k, ps)), k, Touched(s, k, ps))
    ensures PoolMove(s, Apply(s, ByPool(k, ps)), k, Touched(s, k, ps))
  {
  }

  lemma BeginKeepsSentOnce(s: State, k: CallerId, ps: PoolStep)
    requires SentOnce(s) && ps.Begin? && Enabled(s, ByPool(k, ps))
    ensures SentOnce(Apply(s, ByPool(k, ps)))
  {
    var s' := Apply(s, ByPool(k, ps));
    assert forall c, j :: InFlight(s', c, j) ==> InFlight(s, c, j);
  }

  lemma BeginKeepsInv(s: State, k: CallerId, ps: PoolStep)
    requires Inv(s) && ps.Begin? && Enabled(s, ByPool(k, ps))
    ensures Inv(Apply(s, ByPool(k, ps)))
  {
    PoolStepCounted(s, k, ps);
    BeginKeepsSentOnce(s, k, ps);
  }

  lemma CallKeepsInv(s: State, k: CallerId, st: Step)
    requires Inv(s) && Enabled(s, st) && !st.ByConn? && st.k == k
    ensures Inv(Apply(s, st))
  {
    var s' := Apply(s, st);
    if st.ByRequest? {
      RequestStepCounted(s, k, st.rs);
      RequestStepIsGoodMove(s, k, st.rs);
      MoveKeepsInv(s, s', k, s.callers[k].phase.conn);
    } else if st.ps.Begin? {
      BeginKeepsInv(s, k, st.ps);
    } else {
      PoolStepCounted(s, k, st.ps);
      if st.ps.Cancel? {
        CancelIsGoodMove(s, k, st.ps);
      } else if st.ps.Pop? {
        PopIsGoodMove(s, k, st.ps);
      } else if st.ps.ReleaseCheck? || st.ps.ReleasePush? {
        ReleaseIsGoodMove(s, k, st.ps);
      } else if st.ps.DropPermit? {
        DropPermitIsGoodMove(s, k, st.ps);
      } else if st.ps.DialOk? || st.ps.DialErr? {
        DialIsGoodMove(s, k, st.ps);
      } else {
        PermitStepIsGoodMove(s, k, st.ps);
      }
      PoolStepIsPoolMove(s, k, st.ps);
      MoveKeepsInv(s, s', k, Touched(s, k, st.ps));
    }
  }

  lemma MoveKeepsInv(s: State, s': State, k: CallerId, c: ConnId)
    requires Inv(s) && Counted(s') && GoodMove(s, s', k, c) && PoolMove(s, s', k, c)
    ensures Inv(s')
  {
    MoveKeepsExclusive(s, s', k, c);
    MoveKeepsInStep(s, s', k, c);
    MoveKeepsSentOnce(s, s', k, c);
  }

  // ----- A connection moves

  /** The log after a step of connection `x`. */
  function LogAfter(x: Conn, ns: ConnStep, log: map<CallerId, Exchange>): map<CallerId, Exchange>
    requires ConnEnabled(x, ns)
  {
    if ns.Answer? then log[x.toDevice[0].id := Exchange(x.toDevice[0], ns.body)] else log
  }

  /** One step of a writer, a reader or the device, seen from the connection alone. */
  lemma ConnStepLocal(x: Conn, ns: ConnStep)
    requires ConnEnabled(x, ns) && ConnOk(x)
    ensures var x' := ConnApply(x, ns);
      && ConnOk(x') && x'.locked == x.locked && (x.Flagged() ==> x'.Flagged()) && (x.Quiet() ==> x'.Quiet())
      && (forall j :: x'.Carries(j) ==> x.Carries(j))
      && (ns.Answer? ==> x.Carries(x.toDevice[0].id) && forall j :: !x'.Carries(j))
  {
  }

  /** And seen from the call that holds it: a reply on its way is the logged answer to that call's own request. */
  lemma ConnStepForHolder(x: Conn, k: CallerId, me: Caller, log: map<CallerId, Exchange>, ns: ConnStep)
    requires ConnEnabled(x, ns) && ConnOk(x) && HolderOk(x, k, me, log)
    ensures HolderOk(ConnApply(x, ns), k, me, LogAfter(x, ns, log))
  {
  }

  lemma ConnStepKeepsSentOnce(s: State, c: ConnId, ns: ConnStep)
    requires Inv(s) && Enabled(s, ByConn(c, ns))
    ensures SentOnce(Apply(s, ByConn(c, ns)))
  {
    var x, s' := s.conns[c], Apply(s, ByConn(c, ns));
    ConnStepLocal(x, ns);
    assert forall d, j :: InFlight(s', d, j) ==> InFlight(s, d, j);
    if ns.Answer? {
      assert InFlight(s, c, x.toDevice[0].id);
    }
  }

  lemma ConnStepKeepsInStep(s: State, c: ConnId, ns: ConnStep)
    requires Inv(s) && Enabled(s, ByConn(c, ns))
    ensures InStep(Apply(s, ByConn(c, ns)))
  {
    var x, s' := s.conns[c], Apply(s, ByConn(c, ns));
    ConnStepLocal(x, ns);
    if ns.Answer? {
      assert InFlight(s, c, x.toDevice[0].id);
    }
    forall k | k in s.callers && s.callers[k].phase.HasConn()
      ensures HolderOk(s'.conns[s.callers[k].phase.conn], k, s.callers[k], s'.log)
    {
      if s.callers[k].phase.conn == c {
        ConnStepForHolder(x, k, s.callers[k], s.log, ns);
      }
    }
  }

  lemma ConnStepKeepsInv(s: State, c: ConnId, ns: ConnStep)
    requires Inv(s) && Enabled(s, ByConn(c, ns))
    ensures Inv(Apply(s, ByConn(c, ns)))
  {
    ConnStepKeepsSentOnce(s, c, ns);
    ConnStepKeepsInStep(s, c, ns);
  }

  // ----- Whole runs

  ghost predicate Next(s: State, s': State) {
    exists st :: Enabled(s, st) && s' == Apply(s, st)
  }

  /** A finite run: consecutive states are one enabled step of one party apart. */
  ghost predicate Behaviour(tr: seq<State>) {
    |tr| > 0 && forall i :: 0 <= i < |tr| - 1 ==> StepAt(tr, i)
  }

  ghost predicate StepAt(tr: seq<State>, i: nat)
    requires i + 1 < |tr|
  {
    Next(tr[i], tr[i + 1])
  }

  ghost predicate LogKept(s: State, s': State) {
    forall k :: k in s.log ==> k in s'.log && s'.log[k] == s.log[k]
  }

  lemma NextKeepsInv(s: State, s': State)
    requires Inv(s) && Next(s, s')
    ensures Inv(s')
  {
    var st :| Enabled(s, st) && s' == Apply(s, st);
    if st.ByConn? {
      ConnStepKeepsInv(s, st.c, st.ns);
    } else {
      CallKeepsInv(s, st.k, st);
    }
  }

  lemma OnlyAnswersAreLogged(s: State, st: Step)
    requires Enabled(s, st) && !(st.ByConn? && st.ns.Answer?)
    ensures Apply(s, st).log == s.log
  {
  }

  lemma NextKeepsLog(s: State, s': State)
    requires SentOnce(s) && Next(s, s')
    ensures LogKept(s, s')
  {
    var st :| Enabled(s, st) && s' == Apply(s, st);
    if st.ByConn? && st.ns.Answer? {
      assert InFlight(s, st.c, s.conns[st.c].toDevice[0].id);
    } else {
      OnlyAnswersAreLogged(s, st);
    }
  }

  lemma {:induction false} RunKeepsInv(tr: seq<State>, n: nat)
    requires Behaviour(tr) && Init(tr[0]) && n < |tr|
    ensures Inv(tr[n])
  {
    if n == 0 {
      InitInv(tr[0]);
    } else {
      RunKeepsInv(tr, n - 1);
      assert StepAt(tr, n - 1);
      NextKeepsInv(tr[n - 1], tr[n]);
    }
  }

  /**
    The main theorem. In every run, a call that came back with reply data, with an error status or with an
    "empty frame" error got the frame the device wrote for that call's own request; and every pooled connection
    is idle, with no request unanswered and no reply unread.
  */
  lemma EveryReplyIsItsOwn(tr: seq<State>, n: nat)
    requires Behaviour(tr) && Init(tr[0]) && n < |tr|
    ensures forall k :: k in tr[n].callers && tr[n].callers[k].phase.GotReply() ==>
              var me, log := tr[n].callers[k], tr[n].log;
              k in log && log[k].request == Request(k, me.op, me.args) && Reads(log[k].body, me.phase.out)
    ensures forall c :: c in tr[n].pool ==> c < |tr[n].conns| && tr[n].conns[c].Quiet()
  {
    RunKeepsInv(tr, n);
    forall k | k in tr[n].callers && tr[n].callers[k].phase.GotReply()
      ensures Reads(tr[n].log[k].body, tr[n].callers[k].phase.out)
    {
      Interpreted(tr[n].log[k].body);
    }
  }

  /**
    What a reply frame says: status 0 and the data, another status and its text, or nothing at all. Codes above 0x0A
    all read as "not supported".
  */
  ghost predicate Reads(body: seq<byte>, out: Outcome) {
    && (forall d :: out == Data(d) <==> body == [0] + d)
    && (forall st, t :: out == Failed(st, t) <==>
          body != [] && body[0] != 0 && t == body[1..] && st == if body[0] <= 0x0A then body[0] else 0x0B)
    && (out == EmptyFrame <==> body == [])
  }

  lemma Interpreted(body: seq<byte>)
    ensures Reads(body, Interpret(body))
  {
    if body != [] {
      assert body == [body[0]] + body[1..];
    }
  }

  /**
    Where each outcome comes from. A call that has its outcome in one state and had none in the state before took the
    reply that was waiting for it, or was stopped by what the outcome names.
  */
  lemma EveryOutcomeHasItsCause(tr: seq<State>, n: nat, k: CallerId)
    requires Behaviour(tr) && Init(tr[0]) && n + 1 < |tr| && k in tr[n].callers && k in tr[n + 1].callers
    requires !tr[n].callers[k].phase.HasOutcome() && tr[n + 1].callers[k].phase.HasOutcome()
    ensures Caused(tr[n], tr[n + 1], tr[n].callers[k], tr[n + 1].callers[k].phase.out)
  {
    RunKeepsInv(tr, n);
    assert StepAt(tr, n);
    StepCause(tr[n], tr[n + 1], k);
  }

  lemma StepCause(s: State, s': State, k: CallerId)
    requires InStep(s) && Next(s, s') && k in s.callers && k in s'.callers
    requires !s.callers[k].phase.HasOutcome() && s'.callers[k].phase.HasOutcome()
    ensures Caused(s, s', s.callers[k], s'.callers[k].phase.out)
  {
    var st :| Enabled(s, st) && s' == Apply(s, st);
    match st
    case ByPool(j, ps) => PoolCause(s, k, j, ps);
    case ByRequest(j, rs) => RequestCause(s, k, j, rs);
    case ByConn(c, ns) => ConnKeepsCallers(s, c, ns);
  }

  lemma ConnKeepsCallers(s: State, c: ConnId, ns: ConnStep)
    requires Enabled(s, ByConn(c, ns))
    ensures Apply(s, ByConn(c, ns)).callers == s.callers
  {
  }

  lemma PoolCause(s: State, k: CallerId, j: CallerId, ps: PoolStep)
    requires Enabled(s, ByPool(j, ps)) && k in s.callers && k in PoolApply(s, j, ps).callers
    requires var s' := PoolApply(s, j, ps); !s.callers[k].phase.HasOutcome() && s'.callers[k].phase.HasOutcome()
    ensures var s' := PoolApply(s, j, ps); Caused(s, s', s.callers[k], s'.callers[k].phase.out)
  {
    assert j == k;
  }

  ghost predicate Caused(s: State, s': State, me: Caller, out: Outcome) {
    var p := me.phase;
    if p.HasConn() then
      && p.conn < |s.conns| && p.conn < |s'.conns|
      && CausedOn(s.conns[p.conn], s'.conns[p.conn], me, out)
    else (p.WaitPermit? && out == Busy) || (p.Dialing? && !p.retry && out == DialFailed)
  }

  ghost predicate CausedOn(x: Conn, x': Conn, me: Caller, out: Outcome) {
    match me.phase
    case Holding(_) =>
      || out == NotSent
      || (out == ConnClosed && x.Flagged())
      || (out == TooLarge && !x.Flagged() && |me.args| > MAX_REQUEST)
    case Locked(_) => out == ConnClosed && x.writer.Exited?
    case Awaiting(_) => if x.respQ != [] then Reads(x.respQ[0], out) else out == ConnClosed && x.reader.Exited?
    case TimingOut(_) => out == TimedOut && x'.poisoned && x'.closed
    case _ => false
  }

  lemma RequestCause(s: State, k: CallerId, j: CallerId, rs: RequestStep)
    requires InStep(s) && Enabled(s, ByRequest(j, rs)) && k in s.callers && k in Apply(s, ByRequest(j, rs)).callers
    requires var s' := Apply(s, ByRequest(j, rs)); !s.callers[k].phase.HasOutcome() && s'.callers[k].phase.HasOutcome()
    ensures var s' := Apply(s, ByRequest(j, rs)); Caused(s, s', s.callers[k], s'.callers[k].phase.out)
  {
    var c := s.callers[k].phase.conn;
    var x := s.conns[c];
    assert HolderOk(x, k, s.callers[k], s.log);
    if rs.Receive? {
      Interpreted(x.respQ[0]);
    }
  }

  /**
    A connection neither closed nor poisoned goes back: its call moves on to the push, and the push puts it into the
    pool. A flagged one is given up.
  */
  lemma HealthyReturns(tr: seq<State>, n: nat, k: CallerId)
    requires Behaviour(tr) && Init(tr[0]) && n + 1 < |tr| && k in tr[n].callers && k in tr[n + 1].callers
    requires tr[n].callers[k].phase != tr[n + 1].callers[k].phase && !tr[n + 1].callers[k].phase.Cancelled?
    ensures Returns(tr[n], tr[n + 1], tr[n].callers[k].phase, tr[n + 1].callers[k].phase)
  {
    PoolBounds(tr, n);
    assert StepAt(tr, n);
    StepReturns(tr[n], tr[n + 1], k);
  }

  ghost predicate Returns(s: State, s': State, p: Phase, p': Phase) {
    && (p.Releasing? ==>
          p.conn < |s.conns| && p' == if s.conns[p.conn].Flagged() then Finishing(p.out) else Pushing(p.conn, p.out))
    && (p.Pushing? ==> p' == Finishing(p.out) && s'.pool == s.pool + [p.conn])
    && (p.Finishing? ==> p' == Done(p.out) && s'.permits == s.permits + 1)
  }

  lemma StepReturns(s: State, s': State, k: CallerId)
    requires Next(s, s') && k in s.callers && k in s'.callers
    requires s.callers[k].phase != s'.callers[k].phase && !s'.callers[k].phase.Cancelled?
    requires s.callers[k].phase.Pushing? ==> |s.pool| < s.maxConns
    ensures Returns(s, s', s.callers[k].phase, s'.callers[k].phase)
  {
    var st :| Enabled(s, st) && s' == Apply(s, st);
    match st
    case ByPool(j, ps) => PoolReturns(s, j, ps, k);
    case ByRequest(j, rs) => RequestReturns(s, j, rs, k);
    case ByConn(c, ns) => ConnKeepsCallers(s, c, ns);
  }

  lemma PoolReturns(s: State, j: CallerId, ps: PoolStep, k: CallerId)
    requires Enabled(s, ByPool(j, ps)) && k in s.callers && k in PoolApply(s, j, ps).callers
    requires var p' := PoolApply(s, j, ps).callers[k].phase; s.callers[k].phase != p' && !p'.Cancelled?
    requires s.callers[k].phase.Pushing? ==> |s.pool| < s.maxConns
    ensures var s' := PoolApply(s, j, ps); Returns(s, s', s.callers[k].phase, s'.callers[k].phase)
  {
    assert j == k;
  }

  lemma RequestReturns(s: State, j: CallerId, rs: RequestStep, k: CallerId)
    requires Enabled(s, ByRequest(j, rs)) && k in s.callers && k in Apply(s, ByRequest(j, rs)).callers
    requires s.callers[k].phase != Apply(s, ByRequest(j, rs)).callers[k].phase
    ensures var p := s.callers[k].phase; !p.Releasing? && !p.Pushing? && !p.Finishing?
  {
    assert j == k;
  }

  // ----- Nothing vanishes on a connection

  ghost function Replies(x: Conn): seq<seq<byte>> {
    x.respQ + x.toHost
  }

  ghost function Requests(x: Conn): seq<Request> {
    x.toDevice + x.writeQ
  }

  /** One step of its tasks or of the device: messages move on in order, a reply is added for the request it answers. */
  ghost predicate Carried(x: Conn, x': Conn, ns: ConnStep) {
    match ns
    case Answer(body) =>
      && Requests(x) != [] && Requests(x') == Requests(x)[1..] && Replies(x') == Replies(x) + [body]
    case WriterBreak(delivered) =>
      && Replies(x') == Replies(x) && !x'.writer.Running?
      && Requests(x') == if delivered || x.writeQ == [] then Requests(x) else x.toDevice + x.writeQ[1..]
    case _ => Replies(x') == Replies(x) && Requests(x') == Requests(x)
  }

  lemma ConnCarries(x: Conn, ns: ConnStep)
    requires ConnEnabled(x, ns)
    ensures Carried(x, ConnApply(x, ns), ns)
    ensures ns.Write? ==> |ConnApply(x, ns).toDevice| == |x.toDevice| + 1
    ensures ns.ReadFrame? ==> |ConnApply(x, ns).respQ| == |x.respQ| + 1
  {
    match ns
    case Write => MovesOn(x.toDevice, x.writeQ);
    case WriterBreak(_) => if x.writeQ != [] { MovesOn(x.toDevice, x.writeQ); }
    case ReadFrame => MovesOn(x.respQ, x.toHost);
    case _ =>
  }

  /** The first of `b` moves to the end of `a`. */
  lemma MovesOn<T>(a: seq<T>, b: seq<T>)
    requires b != []
    ensures (a + [b[0]]) + b[1..] == a + b
  {
  }

  /** One step of a request: it puts one message in at the back, takes one reply from the front, or neither. */
  lemma RequestCarries(x: Conn, k: CallerId, me: Caller, rs: RequestStep)
    requires RequestEnabled(x, me.phase, rs)
    ensures var x' := RequestApply(x, k, me, rs).0;
      && (Requests(x') == if rs.Send? then Requests(x) + [Request(k, me.op, me.args)] else Requests(x))
      && (if rs.Receive? then Replies(x) != [] && Replies(x') == Replies(x)[1..] else Replies(x') == Replies(x))
  {
  }

  /**
    In every run, what is on its way on a connection changes only so: a call adds its own request or takes the oldest
    reply, the device answers the oldest request, a writer that breaks loses the frame in hand.
  */
  lemma NothingVanishes(tr: seq<State>, n: nat, c: ConnId)
    requires Behaviour(tr) && n + 1 < |tr| && c < |tr[n].conns|
    ensures c < |tr[n + 1].conns| && OnItsWay(tr[n], tr[n + 1], c)
  {
    assert StepAt(tr, n);
    StepCarries(tr[n], tr[n + 1], c);
  }

  ghost predicate OnItsWay(s: State, s': State, c: ConnId)
    requires c < |s.conns| && c < |s'.conns|
  {
    var x, x' := s.conns[c], s'.conns[c];
    || (Requests(x') == Requests(x) && Replies(x') == Replies(x))
    || (exists k :: k in s.callers && Replies(x') == Replies(x) &&
          Requests(x') == Requests(x) + [Request(k, s.callers[k].op, s.callers[k].args)])
    || (Replies(x) != [] && Replies(x') == Replies(x)[1..] && Requests(x') == Requests(x))
    || (exists body :: Requests(x) != [] && Requests(x') == Requests(x)[1..] && Replies(x') == Replies(x) + [body])
    || (Replies(x') == Replies(x) && !x'.writer.Running? && x.writer.Running? && x.writeQ != [] &&
          Requests(x') == x.toDevice + x.writeQ[1..])
  }

  lemma StepCarries(s: State, s': State, c: ConnId)
    requires Next(s, s') && c < |s.conns|
    ensures c < |s'.conns| && OnItsWay(s, s', c)
  {
    var st :| Enabled(s, st) && s' == Apply(s, st);
    match st
    case ByPool(k, ps) => PoolCarries(s, k, ps, c);
    case ByRequest(k, rs) => RequestOnItsWay(s, k, rs, c);
    case ByConn(d, ns) =>
      if d == c {
        ConnCarries(s.conns[c], ns);
      }
  }

  lemma PoolCarries(s: State, k: CallerId, ps: PoolStep, c: ConnId)
    requires Enabled(s, ByPool(k, ps)) && c < |s.conns|
    ensures var s' := PoolApply(s, k, ps);
      c < |s'.conns| && Requests(s'.conns[c]) == Requests(s.conns[c]) && Replies(s'.conns[c]) == Replies(s.conns[c])
  {
  }

  lemma RequestOnItsWay(s: State, k: CallerId, rs: RequestStep, c: ConnId)
    requires Enabled(s, ByRequest(k, rs)) && c < |s.conns|
    ensures var s' := Apply(s, ByRequest(k, rs)); c < |s'.conns| && OnItsWay(s, s', c)
  {
    var me := s.callers[k];
    if me.phase.conn == c {
      RequestCarries(s.conns[c], k, me, rs);
    }
  }

  /** An outcome stands: nothing changes it but dropping the call, and a call keeps its operation and arguments. */
  lemma {:induction false} OutcomeStands(tr: seq<State>, m: nat, n: nat, k: CallerId)
    requires Behaviour(tr) && m <= n < |tr| && k in tr[m].callers
    ensures k in tr[n].callers && Stands(tr[m].callers[k], tr[n].callers[k])
  {
    if m < n {
      OutcomeStands(tr, m, n - 1, k);
      assert StepAt(tr, n - 1);
      StepKeepsOutcome(tr[n - 1], tr[n], k);
    }
  }

  /** The same call, and if it had an outcome, that outcome or none because it was dropped. */
  ghost predicate Stands(me: Caller, me': Caller) {
    && me'.op == me.op && me'.args == me.args
    && (me.phase.Cancelled? ==> me'.phase.Cancelled?)
    && (me.phase.HasOutcome() ==>
          me'.phase.Cancelled? || (me'.phase.HasOutcome() && me'.phase.out == me.phase.out))
  }

  lemma StepKeepsOutcome(s: State, s': State, k: CallerId)
    requires Next(s, s') && k in s.callers
    ensures k in s'.callers && Stands(s.callers[k], s'.callers[k])
  {
    var st :| Enabled(s, st) && s' == Apply(s, st);
    match st
    case ByPool(j, ps) => PoolKeepsOutcome(s, j, ps, k);
    case ByRequest(j, rs) => RequestKeepsOutcome(s, j, rs, k);
    case ByConn(c, ns) => ConnKeepsCallers(s, c, ns);
  }

  lemma PoolKeepsOutcome(s: State, j: CallerId, ps: PoolStep, k: CallerId)
    requires Enabled(s, ByPool(j, ps)) && k in s.callers
    ensures var s' := PoolApply(s, j, ps); k in s'.callers && Stands(s.callers[k], s'.callers[k])
  {
  }

  lemma RequestKeepsOutcome(s: State, j: CallerId, rs: RequestStep, k: CallerId)
    requires Enabled(s, ByRequest(j, rs)) && k in s.callers
    ensures var s' := Apply(s, ByRequest(j, rs)); k in s'.callers && Stands(s.callers[k], s'.callers[k])
  {
  }

  /** The device serves a request at most once: what the log says about a call is never rewritten. */
  lemma {:induction false} ServedOnce(tr: seq<State>, m: nat, n: nat)
    requires Behaviour(tr) && Init(tr[0]) && m <= n < |tr|
    ensures LogKept(tr[m], tr[n])
  {
    if m < n {
      ServedOnce(tr, m, n - 1);
      StepServesOnce(tr, n - 1);
    }
  }

  lemma StepServesOnce(tr: seq<State>, n: nat)
    requires Behaviour(tr) && Init(tr[0]) && n + 1 < |tr|
    ensures LogKept(tr[n], tr[n + 1])
  {
    RunKeepsInv(tr, n);
    assert StepAt(tr, n);
    NextKeepsLog(tr[n], tr[n + 1]);
  }

  ghost function Lent(s: State): set<CallerId> {
    set k | k in s.callers && s.callers[k].phase.HasConn()
  }

  /**
    Pooled plus lent connections never exceed `max_conns`, lent connections never exceed the permits out, so
    the length guard in `release` never turns a healthy connection away; and `req_lock` is never contended.
  */
  lemma PoolBounds(tr: seq<State>, n: nat)
    requires Behaviour(tr) && Init(tr[0]) && n < |tr|
    ensures var s := tr[n];
      && |s.pool| + |Lent(s)| <= s.maxConns
      && |Lent(s)| <= s.maxConns - s.permits
      && (forall k :: k in s.callers && s.callers[k].phase.Pushing? ==> |s.pool| < s.maxConns)
      && (forall k :: k in s.callers && s.callers[k].phase.PastCheck? ==>
            s.callers[k].phase.conn < |s.conns| && !s.conns[s.callers[k].phase.conn].locked)
  {
    RunKeepsInv(tr, n);
    var s := tr[n];
    CardinalityOfSubset(Lent(s), Borrowers(s.callers));
    BorrowersHoldPermits(s.callers);
    forall k | k in s.callers && s.callers[k].phase.Pushing?
      ensures |s.pool| < s.maxConns
    {
      assert k in Borrowers(s.callers);
    }
  }

  /** Two calls on one connection, both past the closed/poisoned check, the first waiting for its reply. */
  ghost function Sharing(x: Conn, p1: Phase, p2: Phase, log: map<CallerId, Exchange>): State {
    State(2, [], 0, [x], map[1 := Caller(3, [], p1), 2 := Caller(5, [], p2)], log)
  }

  /** `s'` can be reached from `s` by some run. */
  ghost predicate Reaches(s: State, s': State) {
    exists tr :: Behaviour(tr) && tr[0] == s && tr[|tr| - 1] == s'
  }

  lemma ReachesMore(s: State, s': State, st: Step)
    requires Reaches(s, s') && Enabled(s', st)
    ensures Reaches(s, Apply(s', st))
  {
    var tr :| Behaviour(tr) && tr[0] == s && tr[|tr| - 1] == s';
    var tr' := tr + [Apply(s', st)];
    forall i | 0 <= i < |tr'| - 1
      ensures StepAt(tr', i)
    {
      if i < |tr| - 1 {
        assert StepAt(tr, i);
      }
    }
    assert Behaviour(tr');
  }

  /** One step of the first of two sharing calls. */
  lemma FirstMoves(s: State, x: Conn, p1: Phase, p2: Phase, log: map<CallerId, Exchange>, rs: RequestStep)
    requires p1.HasConn() && p1.conn == 0 && RequestEnabled(x, p1, rs) && Reaches(s, Sharing(x, p1, p2, log))
    ensures var (x', p') := RequestApply(x, 1, Caller(3, [], p1), rs); Reaches(s, Sharing(x', p', p2, log))
  {
    var s0 := Sharing(x, p1, p2, log);
    var (x', p') := RequestApply(x, 1, Caller(3, [], p1), rs);
    ReachesMore(s, s0, ByRequest(1, rs));
    assert Apply(s0, ByRequest(1, rs)) == Sharing(x', p', p2, log);
  }

  /** One step of the second. */
  lemma SecondMoves(s: State, x: Conn, p1: Phase, p2: Phase, log: map<CallerId, Exchange>, rs: RequestStep)
    requires p2.HasConn() && p2.conn == 0 && RequestEnabled(x, p2, rs) && Reaches(s, Sharing(x, p1, p2, log))
    ensures var (x', p') := RequestApply(x, 2, Caller(5, [], p2), rs); Reaches(s, Sharing(x', p1, p', log))
  {
    var s0 := Sharing(x, p1, p2, log);
    var (x', p') := RequestApply(x, 2, Caller(5, [], p2), rs);
    ReachesMore(s, s0, ByRequest(2, rs));
    assert Apply(s0, ByRequest(2, rs)) == Sharing(x', p1, p', log);
  }

  lemma ConnMoves(s: State, x: Conn, p1: Phase, p2: Phase, log: map<CallerId, Exchange>, ns: ConnStep)
    requires ConnEnabled(x, ns) && Reaches(s, Sharing(x, p1, p2, log))
    ensures Reaches(s, Sharing(ConnApply(x, ns), p1, p2,
              if ns.Answer? then log[x.toDevice[0].id := Exchange(x.toDevice[0], ns.body)] else log))
  {
    var s0 := Sharing(x, p1, p2, log);
    var log' := if ns.Answer? then log[x.toDevice[0].id := Exchange(x.toDevice[0], ns.body)] else log;
    ReachesMore(s, s0, ByConn(0, ns));
    assert Apply(s0, ByConn(0, ns)) == Sharing(ConnApply(x, ns), p1, p2, log');
  }

  /**
    Exclusive lending is what the theorem rests on. `req_lock` alone does not save two calls that share a
    connection: the first times out, and the second, already past the check, is handed the first one's reply.
  */
  lemma SharedConnectionMixesReplies(s0: State, s: State)
    requires s0 == Sharing(FreshConn.(locked := true, writeQ := [Request(1, 3, [])]), Awaiting(0), PastCheck(0), map[])
    requires s == Sharing(FreshConn.(poisoned := true, closed := true, writeQ := [Request(2, 5, [])]),
                          Releasing(0, TimedOut), Releasing(0, Data([])), map[1 := Exchange(Request(1, 3, []), [0])])
    ensures Reaches(s0, s)
    ensures !Answered(2, s.callers[2], s.callers[2].phase.out, s.log)
  {
    var r1, r2, gone := Request(1, 3, []), Request(2, 5, []), Releasing(0, TimedOut);
    assert Reaches(s0, s0) by { assert Behaviour([s0]); }
    var x0 := FreshConn.(locked := true, writeQ := [r1]);
    FirstMoves(s0, x0, Awaiting(0), PastCheck(0), map[], Poison);
    var x1 := x0.(poisoned := true);
    FirstMoves(s0, x1, TimingOut(0), PastCheck(0), map[], PoisonClose);
    var x2 := x1.(closed := true, locked := false);
    SecondMoves(s0, x2, gone, PastCheck(0), map[], Lock);
    SecondMoves(s0, x2.(locked := true), gone, Locked(0), map[], Send);
    assert [r1] + [r2] == [r1, r2];
    SecondTakesFirstReply(s0, x2.(locked := true, writeQ := [r1, r2]), gone);
  }

  lemma SecondTakesFirstReply(s0: State, x: Conn, gone: Phase)
    requires x == FreshConn.(poisoned := true, closed := true, locked := true,
                             writeQ := [Request(1, 3, []), Request(2, 5, [])])
    requires Reaches(s0, Sharing(x, gone, Awaiting(0), map[]))
    ensures Reaches(s0, Sharing(x.(locked := false, writeQ := [Request(2, 5, [])]), gone, Releasing(0, Data([])),
                                map[1 := Exchange(Request(1, 3, []), [0])]))
  {
    ConnMoves(s0, x, gone, Awaiting(0), map[], Write);
    var x1 := ConnApply(x, Write);
    ConnMoves(s0, x1, gone, Awaiting(0), map[], Answer([0]));
    var x2, log := ConnApply(x1, Answer([0])), map[1 := Exchange(Request(1, 3, []), [0])];
    ConnMoves(s0, x2, gone, Awaiting(0), log, ReadFrame);
    var x3 := ConnApply(x2, ReadFrame);
    SecondMoves(s0, x3, gone, Awaiting(0), log, Receive);
    assert x3.writeQ == [Request(2, 5, [])] && x3.toDevice == [] && x3.toHost == [] && x3.respQ == [[0]];
    assert x3.respQ[1..] == [] && Interpret([0]) == Data([]);
  }
}
