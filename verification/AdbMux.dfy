/**
  The multiplexed ADB connection: opening streams, the reader task dispatching frames to per-stream channels and
  acknowledging each WRTE, stream owners reading, dropping and giving up, interleaved arbitrarily.
*/
module AdbMux {
  import opened Bytes
  import opened AdbStream

  type Local = nat

  const CHANNEL_SLOTS: nat := 256
  const WRITE_SLOTS: nat := 2048

  datatype Frame =
    | OpenFrame(l: Local)
    | OkayFrame(l: Local, r: nat)
    | CloseFrame(l: Local, r: nat)
    | DataFrame(l: Local, r: nat, d: seq<byte>)

  /**
    One stream. `owned`: the receiving half exists. The rest is history: what its owner has read, the payloads put into
    its channel, the payloads the device sent for it and the remote numbers they came with, the OKAYs queued for them,
    whether the device accepted its OPEN, whether the device closed it, whether its owner shut it down or dropped it.
  */
  datatype Chan = Chan(inbox: Inbox, owned: bool, read: seq<byte>, accepted: seq<seq<byte>>, arrived: seq<seq<byte>>,
                       remotes: seq<nat>, okays: nat, answered: bool, closed: bool, shut: bool)
  {
    /** Still held by its owner, and ended by neither side. */
    predicate Held() { owned && !closed && !shut }
  }

  const FreshChan := Chan(Inbox([], true, None), true, [], [], [], [], 0, false, false, false)

  /** Where the reader task is. It handles one frame at a time. */
  datatype Reader =
    | Idle
    | Got(l: Local, r: nat, d: seq<byte>)
    | OweOkay(l: Local, r: nat)
    | OweClose(l: Local, r: nat)
    | Stopped

  /** `taken` is history: the frames the writer has taken from its queue. */
  datatype State = State(
    next: nat, registered: set<Local>, pending: set<Local>, chans: map<Local, Chan>, writeQ: seq<Frame>, reader: Reader,
    writing: bool, taken: seq<Frame>)

  ghost predicate Init(s: State) {
    s == State(1, {}, {}, map[], [], Idle, true, [])
  }

  datatype Step =
    | Register                                   // open_stream: data channel and reply slot, before the OPEN goes out
    | QueueOpen(l: Local)
    | Abort(l: Local)                            // refused, timed out (perhaps just as the OKAY came) or writer gone
    | PeerOkay(l: Local)
    | PeerFail(l: Local)
    | PeerClose(l: Local)
    | PeerWrite(l: Local, r: nat, d: seq<byte>)
    | Deliver
    | Acknowledge
    | TellClosed
    | ReaderStops
    | WriterTakes
    | WriterStops                                // leaves its loop and drains the stream table
    | Queue(f: Frame)                            // a stream owner's data, or the CLSE of a dropped stream
    | Read(l: Local, room: nat)
    | Shutdown(l: Local)                         // the owner shuts its side down and may keep the stream
    | DropStream(l: Local)
    | Unregister(l: Local)                       // the close task of a stream shut down or dropped
    | Hangup(l: Local)                           // the last sender of its channel is gone

  ghost predicate Enabled(s: State, st: Step) {
    match st
    case Register => true
    case QueueOpen(l) => l in s.chans && |s.writeQ| < WRITE_SLOTS
    case Abort(l) => l in s.chans
    case PeerOkay(l) => s.reader.Idle?
    case PeerFail(l) => s.reader.Idle?
    case PeerClose(l) => s.reader.Idle?
    case PeerWrite(l, r, d) => s.reader.Idle? && l in s.chans && s.chans[l].answered
    case Deliver => s.reader.Got? && s.reader.l in s.chans &&
      (s.chans[s.reader.l].owned ==> |s.chans[s.reader.l].inbox.queue| < CHANNEL_SLOTS)
    case Acknowledge => s.reader.OweOkay? && s.reader.l in s.chans && |s.writeQ| < WRITE_SLOTS
    case TellClosed => s.reader.OweClose? && |s.writeQ| < WRITE_SLOTS
    case ReaderStops => true
    case WriterTakes => s.writing && s.writeQ != []
    case WriterStops => s.writing
    case Queue(f) => |s.writeQ| < WRITE_SLOTS && (f.DataFrame? || f.CloseFrame?)
    case Read(l, room) => l in s.chans && s.chans[l].owned && s.chans[l].inbox.Ok()
    case Shutdown(l) => l in s.chans && s.chans[l].owned
    case DropStream(l) => l in s.chans
    case Unregister(l) => l in s.chans && s.chans[l].shut
    case Hangup(l) => l in s.chans && l !in s.registered && !(s.reader.Got? && s.reader.l == l)
  }

  ghost function SetChan(s: State, l: Local, c: Chan): State {
    s.(chans := s.chans[l := c])
  }

  ghost function Apply(s: State, st: Step): State
    requires Enabled(s, st)
  {
    match st
    case Register =>
      var l := s.next + 1;
      s.(next := l, registered := s.registered + {l}, pending := s.pending + {l}, chans := s.chans[l := FreshChan])
    case QueueOpen(l) => s.(writeQ := s.writeQ + [OpenFrame(l)])
    case Abort(l) =>
      SetChan(s, l, s.chans[l].(owned := false)).(pending := s.pending - {l}, registered := s.registered - {l})
    case PeerOkay(l) =>
      if l in s.chans then SetChan(s, l, s.chans[l].(answered := true)).(pending := s.pending - {l})
      else s.(pending := s.pending - {l})
    case PeerFail(l) => s.(pending := s.pending - {l})
    case PeerClose(l) =>
      var s' := s.(pending := s.pending - {l}, registered := s.registered - {l});
      if l in s.chans then SetChan(s', l, s.chans[l].(closed := true)) else s'
    case PeerWrite(l, r, d) =>
      var s' := SetChan(s, l, s.chans[l].(arrived := s.chans[l].arrived + [d], remotes := s.chans[l].remotes + [r]));
      if l in s.registered then s'.(reader := Got(l, r, d)) else s'
    case Deliver =>
      var l, c := s.reader.l, s.chans[s.reader.l];
      if c.owned then
        var inbox := c.inbox.(queue := c.inbox.queue + [s.reader.d]);
        SetChan(s, l, c.(inbox := inbox, accepted := c.accepted + [s.reader.d])).(reader := OweOkay(l, s.reader.r))
      else s.(registered := s.registered - {l}, reader := OweClose(l, s.reader.r))
    case Acknowledge =>
      var l, c := s.reader.l, s.chans[s.reader.l];
      SetChan(s, l, c.(okays := c.okays + 1)).(writeQ := s.writeQ + [OkayFrame(l, s.reader.r)], reader := Idle)
    case TellClosed => s.(writeQ := s.writeQ + [CloseFrame(s.reader.l, s.reader.r)], reader := Idle)
    case ReaderStops => s.(reader := Stopped, pending := {})
    case WriterTakes => s.(writeQ := s.writeQ[1..], taken := s.taken + [s.writeQ[0]])
    case WriterStops => s.(writing := false, registered := {})
    case Queue(f) => s.(writeQ := s.writeQ + [f])
    case Read(l, room) =>
      var (p, i) := Polled(s.chans[l].inbox, room);
      SetChan(s, l, s.chans[l].(inbox := i, read := if p.Ready? then s.chans[l].read + p.data else s.chans[l].read))
    case Shutdown(l) => SetChan(s, l, s.chans[l].(shut := true))
    case DropStream(l) => SetChan(s, l, s.chans[l].(owned := false, shut := true))
    case Unregister(l) => s.(registered := s.registered - {l})
    case Hangup(l) => SetChan(s, l, s.chans[l].(inbox := s.chans[l].inbox.(live := false)))
  }

  // ----- Invariant

  /** Bytes read, then the saved remainder, then queued chunks: exactly the payloads accepted, in order. */
  ghost predicate BytesKept(c: Chan) {
    c.inbox.Ok() && c.read + c.inbox.Unread() == Flat(c.accepted)
  }

  /** How many OKAYs stream `l` is owed: one while the reader is about to queue it. */
  ghost function Owed(reader: Reader, l: Local): nat {
    if reader.OweOkay? && reader.l == l then 1 else 0
  }

  /** Every payload is acknowledged once accepted, in order; a reader that stopped may leave the last one out. */
  ghost predicate Acknowledged(c: Chan, reader: Reader, l: Local) {
    if reader.Stopped? then c.okays <= |c.accepted| <= c.okays + 1 else c.okays + Owed(reader, l) == |c.accepted|
  }

  ghost function InHand(reader: Reader, l: Local): seq<seq<byte>> {
    if reader.Got? && reader.l == l then [reader.d] else []
  }

  /** While a stream is registered nothing the device sent for it has been lost. */
  ghost predicate NothingLost(c: Chan, reader: Reader, l: Local) {
    !reader.Stopped? ==> c.arrived == c.accepted + InHand(reader, l)
  }

  /** What one stream promises, given whether it is registered and whether the writer runs. */
  ghost predicate Fine(c: Chan, reader: Reader, l: Local, registered: bool, writing: bool) {
    && BytesKept(c)
    && Acknowledged(c, reader, l)
    && (registered ==> NothingLost(c, reader, l))
    && (c.Held() && writing ==> registered)
    && (!c.answered ==> c.arrived == [])
  }

  ghost predicate ChanOk(s: State, l: Local)
    requires l in s.chans
  {
    Fine(s.chans[l], s.reader, l, l in s.registered, s.writing)
  }

  ghost predicate Inv(s: State) {
    TablesOk(s) && forall l :: l in s.chans ==> ChanOk(s, l)
  }

  // ----- Steps keep the invariant

  lemma {:induction false} FlatSnoc(chunks: seq<seq<byte>>, d: seq<byte>)
    ensures Flat(chunks + [d]) == Flat(chunks) + d
  {
    if chunks == [] {
      assert [d][1..] == [];
      assert chunks + [d] == [d] && Flat([d]) == d + [];
    } else {
      FlatSnoc(chunks[1..], d);
      assert (chunks + [d])[1..] == chunks[1..] + [d];
    }
  }

  lemma DeliverKeepsBytes(c: Chan, d: seq<byte>)
    requires BytesKept(c)
    ensures BytesKept(c.(inbox := c.inbox.(queue := c.inbox.queue + [d]), accepted := c.accepted + [d]))
  {
    FlatSnoc(c.inbox.queue, d);
    FlatSnoc(c.accepted, d);
    var rem := if c.inbox.incoming.Some? then c.inbox.incoming.value else [];
    assert c.read + (rem + (Flat(c.inbox.queue) + d)) == c.read + (rem + Flat(c.inbox.queue)) + d;
  }

  lemma ReadKeepsBytes(c: Chan, room: nat)
    requires BytesKept(c)
    ensures var (p, i) := Polled(c.inbox, room);
      BytesKept(c.(inbox := i, read := if p.Ready? then c.read + p.data else c.read))
  {
    var (p, i) := Polled(c.inbox, room);
    PollKeepsBytes(c.inbox, room);
    if p.Ready? {
      assert (c.read + p.data) + i.Unread() == c.read + (p.data + i.Unread());
    }
  }

  predicate ByReader(st: Step) {
    st.PeerWrite? || st.Deliver? || st.Acknowledge? || st.TellClosed? || st.ReaderStops?
  }

  lemma DeliverKeepsChan(s: State, l: Local)
    requires Inv(s) && Enabled(s, Deliver) && l in s.chans
    ensures ChanOk(Apply(s, Deliver), l)
  {
    assert ChanOk(s, l);
    if l == s.reader.l {
      var c, d := s.chans[l], s.reader.d;
      DeliverKeepsBytes(c, d);
      assert (c.accepted + [d]) + [] == c.accepted + [d];
    }
  }

  /** A payload from the device, taken in hand if the stream is registered. */
  lemma ArrivalKept(c: Chan, reader': Reader, l: Local, r: nat, d: seq<byte>, registered: bool, writing: bool)
    requires Fine(c, Idle, l, registered, writing) && c.answered
    requires reader' == if registered then Got(l, r, d) else Idle
    ensures Fine(c.(arrived := c.arrived + [d], remotes := c.remotes + [r]), reader', l, registered, writing)
  {
    assert c.accepted + [] == c.accepted;
  }

  /** What the reader has in hand for one stream is no matter for another. */
  lemma OtherInHand(c: Chan, reader': Reader, l: Local, registered: bool, writing: bool)
    requires Fine(c, Idle, l, registered, writing) && (reader'.Idle? || (reader'.Got? && reader'.l != l))
    ensures Fine(c, reader', l, registered, writing)
  {
  }

  lemma PeerWriteKeepsChan(s: State, st: Step, l: Local)
    requires Inv(s) && Enabled(s, st) && st.PeerWrite? && l in s.chans
    ensures ChanOk(Apply(s, st), l)
  {
    assert ChanOk(s, l);
    var s' := Apply(s, st);
    if l == st.l {
      ArrivalKept(s.chans[l], s'.reader, l, st.r, st.d, l in s.registered, s.writing);
    } else {
      OtherInHand(s.chans[l], s'.reader, l, l in s.registered, s.writing);
    }
  }

  /** The OKAY is queued: nothing is owed any more. */
  lemma OkayQueued(c: Chan, l: Local, r: nat, registered: bool, writing: bool)
    requires Fine(c, OweOkay(l, r), l, registered, writing)
    ensures Fine(c.(okays := c.okays + 1), Idle, l, registered, writing)
  {
  }

  /** The reader is done with a frame of another stream, or has stopped. */
  lemma ReaderMovesOn(c: Chan, reader: Reader, reader': Reader, l: Local, registered: bool, writing: bool)
    requires Fine(c, reader, l, registered, writing)
    requires reader'.Stopped? || (reader'.Idle? && (reader.OweClose? || (reader.OweOkay? && reader.l != l)))
    ensures Fine(c, reader', l, registered, writing)
  {
  }

  lemma ReaderKeepsChan(s: State, st: Step, l: Local)
    requires Inv(s) && Enabled(s, st) && (st.Acknowledge? || st.TellClosed? || st.ReaderStops?) && l in s.chans
    ensures ChanOk(Apply(s, st), l)
  {
    assert ChanOk(s, l);
    if st.Acknowledge? && l == s.reader.l {
      OkayQueued(s.chans[l], l, s.reader.r, l in s.registered, s.writing);
    } else {
      ReaderMovesOn(s.chans[l], s.reader, Apply(s, st).reader, l, l in s.registered, s.writing);
    }
  }

  predicate ByDevice(st: Step) {
    st.PeerOkay? || st.PeerFail? || st.PeerClose?
  }

  predicate ByQueue(st: Step) {
    st.QueueOpen? || st.WriterTakes? || st.WriterStops? || st.Queue?
  }

  predicate ByOwner(st: Step) {
    st.Abort? || st.Shutdown? || st.DropStream? || st.Unregister? || st.Hangup?
  }

  lemma RegisterKeepsChan(s: State, l: Local)
    requires Inv(s) && l in Apply(s, Register).chans
    ensures ChanOk(Apply(s, Register), l)
  {
    if l == s.next + 1 {
      assert Flat([]) == [];
    } else {
      assert ChanOk(s, l);
    }
  }

  lemma ReadKeepsChan(s: State, st: Step, l: Local)
    requires Inv(s) && Enabled(s, st) && st.Read? && l in s.chans
    ensures ChanOk(Apply(s, st), l)
  {
    assert ChanOk(s, l);
    if l == st.l {
      ReadKeepsBytes(s.chans[l], st.room);
    }
  }

  /** A step that touches no payload of `l`: flags may be set, and it is unregistered only once it is not held. */
  ghost predicate NoTraffic(s: State, s': State, l: Local) {
    && l in s.chans && l in s'.chans && s'.reader == s.reader && (s'.writing ==> s.writing)
    && var c, c' := s.chans[l], s'.chans[l];
    && c'.read == c.read && c'.accepted == c.accepted && c'.arrived == c.arrived && c'.okays == c.okays
    && c'.remotes == c.remotes
    && c'.inbox.queue == c.inbox.queue && c'.inbox.incoming == c.inbox.incoming && (c.answered ==> c'.answered)
    && (l in s'.registered ==> l in s.registered)
    && (c'.Held() && s'.writing ==> c.Held() && (l in s.registered ==> l in s'.registered))
  }

  lemma NoTrafficKeepsChan(s: State, s': State, l: Local)
    requires NoTraffic(s, s', l) && ChanOk(s, l)
    ensures ChanOk(s', l)
  {
  }

  lemma DeviceNoTraffic(s: State, st: Step, l: Local)
    requires Enabled(s, st) && ByDevice(st) && l in s.chans
    ensures NoTraffic(s, Apply(s, st), l)
  {
  }

  lemma QueueNoTraffic(s: State, st: Step, l: Local)
    requires Enabled(s, st) && ByQueue(st) && l in s.chans
    ensures NoTraffic(s, Apply(s, st), l)
  {
  }

  lemma OwnerNoTraffic(s: State, st: Step, l: Local)
    requires Enabled(s, st) && ByOwner(st) && l in s.chans
    ensures NoTraffic(s, Apply(s, st), l)
  {
  }

  lemma OthersKeepChan(s: State, st: Step, l: Local)
    requires Inv(s) && Enabled(s, st) && (ByDevice(st) || ByQueue(st) || ByOwner(st)) && l in s.chans
    ensures l in Apply(s, st).chans && ChanOk(Apply(s, st), l)
  {
    assert ChanOk(s, l);
    if ByDevice(st) {
      DeviceNoTraffic(s, st, l);
    } else if ByQueue(st) {
      QueueNoTraffic(s, st, l);
    } else {
      OwnerNoTraffic(s, st, l);
    }
    NoTrafficKeepsChan(s, Apply(s, st), l);
  }

  /** The tables name streams that exist, under numbers already handed out. */
  ghost predicate TablesOk(s: State) {
    && (forall l :: l in s.chans ==> l <= s.next)
    && (forall l :: l in s.registered ==> l in s.chans)
    && (s.reader.Got? || s.reader.OweOkay? || s.reader.OweClose? ==> s.reader.l in s.chans)
  }

  lemma RegisterKeepsTables(s: State)
    requires TablesOk(s)
    ensures TablesOk(Apply(s, Register)) && Apply(s, Register).chans.Keys == s.chans.Keys + {s.next + 1}
  {
  }

  lemma ReaderKeepsTables(s: State, st: Step)
    requires TablesOk(s) && Enabled(s, st) && ByReader(st)
    ensures TablesOk(Apply(s, st)) && Apply(s, st).chans.Keys == s.chans.Keys
  {
  }

  lemma OthersKeepTables(s: State, st: Step)
    requires TablesOk(s) && Enabled(s, st) && (ByDevice(st) || ByQueue(st) || ByOwner(st) || st.Read?)
    ensures TablesOk(Apply(s, st)) && Apply(s, st).chans.Keys == s.chans.Keys
  {
  }

  lemma StepKeepsTables(s: State, st: Step)
    requires TablesOk(s) && Enabled(s, st)
    ensures TablesOk(Apply(s, st))
    ensures Apply(s, st).chans.Keys == s.chans.Keys + (if st.Register? then {s.next + 1} else {})
  {
    if st.Register? {
      RegisterKeepsTables(s);
    } else if ByReader(st) {
      ReaderKeepsTables(s, st);
    } else {
      OthersKeepTables(s, st);
    }
  }

  lemma StepKeepsChan(s: State, st: Step, l: Local)
    requires Inv(s) && Enabled(s, st) && l in Apply(s, st).chans && (!st.Register? ==> l in s.chans)
    ensures ChanOk(Apply(s, st), l)
  {
    if st.Register? {
      RegisterKeepsChan(s, l);
    } else if st.Read? {
      ReadKeepsChan(s, st, l);
    } else if st.Deliver? {
      DeliverKeepsChan(s, l);
    } else if st.PeerWrite? {
      PeerWriteKeepsChan(s, st, l);
    } else if ByReader(st) {
      ReaderKeepsChan(s, st, l);
    } else {
      OthersKeepChan(s, st, l);
    }
  }

  lemma StepKeepsInv(s: State, st: Step)
    requires Inv(s) && Enabled(s, st)
    ensures Inv(Apply(s, st))
  {
    StepKeepsTables(s, st);
    forall l | l in Apply(s, st).chans
      ensures ChanOk(Apply(s, st), l)
    {
      StepKeepsChan(s, st, l);
    }
  }

  // ----- Whole runs

  ghost predicate StepAt(tr: seq<State>, steps: seq<Step>, i: nat)
    requires i + 1 < |tr| && |tr| == |steps| + 1
  {
    Enabled(tr[i], steps[i]) && tr[i + 1] == Apply(tr[i], steps[i])
  }

  ghost predicate Run(tr: seq<State>, steps: seq<Step>) {
    |tr| == |steps| + 1 && Init(tr[0]) && forall i :: 0 <= i < |steps| ==> StepAt(tr, steps, i)
  }

  lemma {:induction false} RunKeepsInv(tr: seq<State>, steps: seq<Step>, n: nat)
    requires Run(tr, steps) && n < |tr|
    ensures Inv(tr[n])
  {
    if n > 0 {
      RunKeepsInv(tr, steps, n - 1);
      assert StepAt(tr, steps, n - 1);
      StepKeepsInv(tr[n - 1], steps[n - 1]);
    }
  }

  /** For every stream in every run: the reader's bytes are the accepted payloads, and OKAYs lag them by at most one. */
  lemma StreamsAreFaithful(tr: seq<State>, steps: seq<Step>, n: nat, l: Local)
    requires Run(tr, steps) && n < |tr| && l in tr[n].chans
    ensures var c := tr[n].chans[l];
      && c.read + c.inbox.Unread() == Flat(c.accepted)
      && c.okays <= |c.accepted| <= c.okays + 1
  {
    RunKeepsInv(tr, steps, n);
    assert ChanOk(tr[n], l);
  }

  /**
    For a device that sends WRTE only after its OKAY, and while both tasks of the connection run: a stream its owner
    still holds and neither side has ended has received all the device sent, but at most the frame in hand.
  */
  lemma NoEarlyDataIsDropped(tr: seq<State>, steps: seq<Step>, n: nat, l: Local)
    requires Run(tr, steps) && n < |tr| && l in tr[n].chans && tr[n].chans[l].Held()
    requires tr[n].writing && !tr[n].reader.Stopped?
    ensures var s := tr[n]; s.chans[l].arrived == s.chans[l].accepted + InHand(s.reader, l)
  {
    RunKeepsInv(tr, steps, n);
    assert ChanOk(tr[n], l);
  }

  /** Stream numbers only grow, so a frame for an old stream never reaches a new one. */
  lemma NumbersAreFresh(tr: seq<State>, steps: seq<Step>, n: nat)
    requires Run(tr, steps) && n < |steps| && steps[n].Register?
    ensures tr[n + 1].next !in tr[n].chans && tr[n + 1].next in tr[n + 1].registered
  {
    RunKeepsInv(tr, steps, n);
    assert StepAt(tr, steps, n);
  }

  /** A step queues an OPEN for a stream that exists, or none. */
  lemma OpensQueued(s: State, st: Step, l: Local)
    requires Enabled(s, st) && OpenFrame(l) in Apply(s, st).writeQ
    ensures OpenFrame(l) in s.writeQ || l in s.chans
  {
  }

  lemma {:induction false} OpensAreForStreams(tr: seq<State>, steps: seq<Step>, n: nat, l: Local)
    requires Run(tr, steps) && n < |tr| && OpenFrame(l) in tr[n].writeQ
    ensures l in tr[n].chans
  {
    if n > 0 {
      assert StepAt(tr, steps, n - 1);
      OpensQueued(tr[n - 1], steps[n - 1], l);
      if l !in tr[n - 1].chans {
        OpensAreForStreams(tr, steps, n - 1, l);
      }
      RunKeepsInv(tr, steps, n - 1);
      StepKeepsTables(tr[n - 1], steps[n - 1]);
    }
  }

  /** The step that registered stream `l`. */
  lemma {:induction false} RegisteredBy(tr: seq<State>, steps: seq<Step>, n: nat, l: Local) returns (i: nat)
    requires Run(tr, steps) && n < |tr| && l in tr[n].chans
    ensures i < n && steps[i].Register? && tr[i + 1].next == l && l !in tr[i].chans && l in tr[i + 1].registered
  {
    i := n - 1;
    assert StepAt(tr, steps, i);
    RunKeepsInv(tr, steps, i);
    StepKeepsTables(tr[i], steps[i]);
    if l in tr[i].chans {
      i := RegisteredBy(tr, steps, i, l);
    } else {
      NumbersAreFresh(tr, steps, i);
    }
  }

  /** Any OPEN in the queue comes after the step that registered its stream, under a number never used before. */
  lemma RegisteredBeforeOpen(tr: seq<State>, steps: seq<Step>, n: nat, l: Local) returns (i: nat)
    requires Run(tr, steps) && n < |tr| && OpenFrame(l) in tr[n].writeQ
    ensures i < n && steps[i].Register? && tr[i + 1].next == l && l !in tr[i].chans && l in tr[i + 1].registered
    ensures forall k :: 0 <= k <= i ==> OpenFrame(l) !in tr[k].writeQ
  {
    OpensAreForStreams(tr, steps, n, l);
    i := RegisteredBy(tr, steps, n, l);
    forall k | 0 <= k <= i
      ensures OpenFrame(l) !in tr[k].writeQ
    {
      if OpenFrame(l) in tr[k].writeQ {
        OpensAreForStreams(tr, steps, k, l);
        StreamsStay(tr, steps, k, i, l);
      }
    }
  }

  lemma {:induction false} StreamsStay(tr: seq<State>, steps: seq<Step>, k: nat, n: nat, l: Local)
    requires Run(tr, steps) && k <= n < |tr| && l in tr[k].chans
    ensures l in tr[n].chans
  {
    if k < n {
      StreamsStay(tr, steps, k, n - 1, l);
      assert StepAt(tr, steps, n - 1);
      RunKeepsInv(tr, steps, n - 1);
      StepKeepsTables(tr[n - 1], steps[n - 1]);
    }
  }

  // ----- What goes out on the wire

  /** The frames the steps so far have put into the writer's queue. */
  ghost function Queued(tr: seq<State>, steps: seq<Step>, n: nat): seq<Frame>
    requires |tr| == |steps| + 1 && n < |tr|
  {
    if n == 0 then []
    else
      var rd := tr[n - 1].reader;
      Queued(tr, steps, n - 1) +
      match steps[n - 1] {
        case QueueOpen(l) => [OpenFrame(l)]
        case Acknowledge => if rd.OweOkay? then [OkayFrame(rd.l, rd.r)] else []
        case TellClosed => if rd.OweClose? then [CloseFrame(rd.l, rd.r)] else []
        case Queue(f) => [f]
        case _ => []
      }
  }

  /** The writer takes exactly those frames, in order. */
  lemma {:induction false} WriterTakesAll(tr: seq<State>, steps: seq<Step>, n: nat)
    requires Run(tr, steps) && n < |tr|
    ensures tr[n].taken + tr[n].writeQ == Queued(tr, steps, n)
  {
    if n > 0 {
      WriterTakesAll(tr, steps, n - 1);
      assert StepAt(tr, steps, n - 1);
      QueueGrows(tr[n - 1], steps[n - 1]);
    }
  }

  lemma QueueGrows(s: State, st: Step)
    requires Enabled(s, st)
    ensures var s' := Apply(s, st);
      s'.taken + s'.writeQ == (s.taken + s.writeQ) +
        match st {
          case QueueOpen(l) => [OpenFrame(l)]
          case Acknowledge => [OkayFrame(s.reader.l, s.reader.r)]
          case TellClosed => [CloseFrame(s.reader.l, s.reader.r)]
          case Queue(f) => [f]
          case _ => []
        }
  {
    var s' := Apply(s, st);
    if st.WriterTakes? {
      assert s.writeQ == [s.writeQ[0]] + s.writeQ[1..];
    } else if st.QueueOpen? || st.Acknowledge? || st.TellClosed? || st.Queue? {
      var f := s'.writeQ[|s.writeQ|];
      assert s.taken + (s.writeQ + [f]) == (s.taken + s.writeQ) + [f];
    }
  }

  /** The remote numbers of the OKAYs for stream `l` among `frames`, in order. */
  ghost function Okays(frames: seq<Frame>, l: Local): seq<nat> {
    if frames == [] then []
    else
      var f := frames[|frames| - 1];
      Okays(frames[..|frames| - 1], l) + if f.OkayFrame? && f.l == l then [f.r] else []
  }

  lemma OkaysSnoc(frames: seq<Frame>, f: Frame, l: Local)
    ensures Okays(frames + [f], l) == Okays(frames, l) + if f.OkayFrame? && f.l == l then [f.r] else []
  {
    assert (frames + [f])[..|frames|] == frames;
  }

  /** What stream `c` has accepted is the front of what arrived, and what the reader has in hand comes next. */
  ghost predicate InTurn(c: Chan, reader: Reader, l: Local) {
    && c.accepted <= c.arrived && |c.remotes| == |c.arrived|
    && (reader.Got? && reader.l == l ==> c.arrived == c.accepted + [reader.d] && c.remotes[|c.accepted|] == reader.r)
    && (reader.OweOkay? && reader.l == l ==> c.accepted != [] && c.remotes[|c.accepted| - 1] == reader.r)
    && (reader.OweClose? && reader.l == l ==> |c.accepted| < |c.arrived| && c.remotes[|c.accepted|] == reader.r)
  }

  /** The OKAYs for one stream name the remote numbers of its payloads, in their order. */
  ghost predicate Told(s: State, l: Local) {
    if l in s.chans then
      && InTurn(s.chans[l], s.reader, l) && s.chans[l].okays <= |s.chans[l].remotes|
      && Okays(s.taken + s.writeQ, l) == s.chans[l].remotes[..s.chans[l].okays]
    else Okays(s.taken + s.writeQ, l) == []
  }

  /** A step that queues no OKAY leaves the OKAYs as they were. */
  lemma OkaysKept(s: State, st: Step, l: Local)
    requires Enabled(s, st) && !st.Acknowledge?
    ensures var s' := Apply(s, st); Okays(s'.taken + s'.writeQ, l) == Okays(s.taken + s.writeQ, l)
  {
    QueueGrows(s, st);
    if st.QueueOpen? || st.TellClosed? || st.Queue? {
      OkaysSnoc(s.taken + s.writeQ, Apply(s, st).writeQ[|s.writeQ|], l);
    } else {
      assert (s.taken + s.writeQ) + [] == s.taken + s.writeQ;
    }
  }

  /** What `Told` says of a stream that exists, of the stream's own record. */
  ghost predicate ToldOf(c: Chan, reader: Reader, l: Local, okays: seq<nat>) {
    InTurn(c, reader, l) && c.okays <= |c.remotes| && okays == c.remotes[..c.okays]
  }

  lemma OkayTold(c: Chan, l: Local, r: nat, okays: seq<nat>)
    requires ToldOf(c, OweOkay(l, r), l, okays) && c.okays + 1 == |c.accepted|
    ensures ToldOf(c.(okays := c.okays + 1), Idle, l, okays + [r])
  {
    assert c.remotes[..c.okays + 1] == c.remotes[..c.okays] + [c.remotes[c.okays]];
  }

  lemma AcknowledgeKeepsTold(s: State, l: Local)
    requires Inv(s) && Told(s, l) && Enabled(s, Acknowledge)
    ensures Told(Apply(s, Acknowledge), l)
  {
    QueueGrows(s, Acknowledge);
    OkaysSnoc(s.taken + s.writeQ, OkayFrame(s.reader.l, s.reader.r), l);
    if l == s.reader.l {
      assert ChanOk(s, l);
      OkayTold(s.chans[l], l, s.reader.r, Okays(s.taken + s.writeQ, l));
    }
  }

  lemma ArrivalTold(c: Chan, reader': Reader, l: Local, r: nat, d: seq<byte>, okays: seq<nat>)
    requires ToldOf(c, Idle, l, okays) && (reader'.Idle? || (reader' == Got(l, r, d) && c.arrived == c.accepted))
    ensures ToldOf(c.(arrived := c.arrived + [d], remotes := c.remotes + [r]), reader', l, okays)
  {
    assert (c.remotes + [r])[..c.okays] == c.remotes[..c.okays];
  }

  lemma PeerWriteKeepsTold(s: State, st: Step, l: Local)
    requires Inv(s) && Told(s, l) && Enabled(s, st) && st.PeerWrite?
    ensures Told(Apply(s, st), l)
  {
    OkaysKept(s, st, l);
    if l == st.l {
      assert ChanOk(s, l);
      assert l in s.registered ==> s.chans[l].arrived == s.chans[l].accepted + [] == s.chans[l].accepted;
      ArrivalTold(s.chans[l], Apply(s, st).reader, l, st.r, st.d, Okays(s.taken + s.writeQ, l));
    }
  }

  lemma DeliveryTold(c: Chan, reader: Reader, l: Local, okays: seq<nat>)
    requires reader.Got? && reader.l == l && ToldOf(c, reader, l, okays)
    ensures ToldOf(c, OweClose(l, reader.r), l, okays)
    ensures var inbox := c.inbox.(queue := c.inbox.queue + [reader.d]);
      ToldOf(c.(inbox := inbox, accepted := c.accepted + [reader.d]), OweOkay(l, reader.r), l, okays)
  {
  }

  lemma DeliverKeepsTold(s: State, l: Local)
    requires Told(s, l) && Enabled(s, Deliver)
    ensures Told(Apply(s, Deliver), l)
  {
    OkaysKept(s, Deliver, l);
    if l == s.reader.l {
      DeliveryTold(s.chans[l], s.reader, l, Okays(s.taken + s.writeQ, l));
    }
  }

  lemma QuietTold(s: State, s': State, l: Local)
    requires NoTraffic(s, s', l) && Told(s, l) && Okays(s'.taken + s'.writeQ, l) == Okays(s.taken + s.writeQ, l)
    ensures Told(s', l)
  {
  }

  lemma OthersKeepTold(s: State, st: Step, l: Local)
    requires TablesOk(s) && Told(s, l) && Enabled(s, st) && (ByDevice(st) || ByQueue(st) || ByOwner(st))
    ensures Told(Apply(s, st), l)
  {
    OkaysKept(s, st, l);
    OthersKeepTables(s, st);
    if l in s.chans {
      if ByDevice(st) {
        DeviceNoTraffic(s, st, l);
      } else if ByQueue(st) {
        QueueNoTraffic(s, st, l);
      } else {
        OwnerNoTraffic(s, st, l);
      }
      QuietTold(s, Apply(s, st), l);
    }
  }

  lemma RestKeepTold(s: State, st: Step, l: Local)
    requires TablesOk(s) && Told(s, l) && Enabled(s, st)
    requires st.Register? || st.Read? || st.TellClosed? || st.ReaderStops?
    ensures Told(Apply(s, st), l)
  {
    OkaysKept(s, st, l);
  }

  lemma StepKeepsTold(s: State, st: Step, l: Local)
    requires Inv(s) && Told(s, l) && Enabled(s, st)
    ensures Told(Apply(s, st), l)
  {
    if st.Acknowledge? {
      AcknowledgeKeepsTold(s, l);
    } else if st.PeerWrite? {
      PeerWriteKeepsTold(s, st, l);
    } else if st.Deliver? {
      DeliverKeepsTold(s, l);
    } else if ByDevice(st) || ByQueue(st) || ByOwner(st) {
      OthersKeepTold(s, st, l);
    } else {
      RestKeepTold(s, st, l);
    }
  }

  /** What holds at the start of a run and is kept by every step holds throughout. */
  lemma {:induction false} RunKeeps(tr: seq<State>, steps: seq<Step>, n: nat, p: State -> bool)
    requires Run(tr, steps) && n < |tr| && p(tr[0])
    requires forall s, st :: Inv(s) && p(s) && Enabled(s, st) ==> p(Apply(s, st))
    ensures p(tr[n])
  {
    if n > 0 {
      RunKeeps(tr, steps, n - 1, p);
      RunKeepsInv(tr, steps, n - 1);
      assert StepAt(tr, steps, n - 1);
    }
  }

  lemma RunKeepsTold(tr: seq<State>, steps: seq<Step>, n: nat, l: Local)
    requires Run(tr, steps) && n < |tr|
    ensures Told(tr[n], l)
  {
    var p: State -> bool := s => Told(s, l);
    forall s, st | Inv(s) && p(s) && Enabled(s, st)
      ensures p(Apply(s, st))
    {
      StepKeepsTold(s, st, l);
    }
    RunKeeps(tr, steps, n, p);
  }

  /** The WRTEs the device has sent for stream `l`: remote number and payload. */
  ghost function Wrote(steps: seq<Step>, l: Local): seq<(nat, seq<byte>)> {
    if steps == [] then []
    else
      var st := steps[|steps| - 1];
      Wrote(steps[..|steps| - 1], l) + if st.PeerWrite? && st.l == l then [(st.r, st.d)] else []
  }

  /** What arrived for stream `l`, with the remote numbers. */
  ghost function Arrivals(s: State, l: Local): seq<(nat, seq<byte>)> {
    if l !in s.chans || |s.chans[l].remotes| != |s.chans[l].arrived| then []
    else
      seq(|s.chans[l].arrived|, i requires 0 <= i < |s.chans[l].arrived| =>
        (s.chans[l].remotes[i], s.chans[l].arrived[i]))
  }

  /** No step but a WRTE for `l` changes what arrived for it. */
  lemma OnlyWritesArrive(s: State, st: Step, l: Local)
    requires TablesOk(s) && Enabled(s, st) && !st.PeerWrite?
    ensures Arrivals(Apply(s, st), l) == Arrivals(s, l)
  {
    StepKeepsTables(s, st);
    var s' := Apply(s, st);
    if st.Register? {
      assert l == s.next + 1 ==> s'.chans[l] == FreshChan && Arrivals(s', l) == [];
    } else if l in s.chans {
      assert s'.chans[l].arrived == s.chans[l].arrived && s'.chans[l].remotes == s.chans[l].remotes;
    }
  }

  lemma WritesArrive(s: State, st: Step, l: Local)
    requires Told(s, l) && Enabled(s, st) && st.PeerWrite?
    ensures Arrivals(Apply(s, st), l) == Arrivals(s, l) + if st.l == l then [(st.r, st.d)] else []
  {
  }

  /** What every step adds to as its WRTE says has collected all WRTEs so far. */
  lemma {:induction false} Collected(tr: seq<State>, steps: seq<Step>, n: nat, l: Local, p: State -> bool,
                                     got: State -> seq<(nat, seq<byte>)>)
    requires Run(tr, steps) && n < |tr| && got(tr[0]) == [] && forall i :: 0 <= i < |tr| ==> p(tr[i])
    requires forall s, st :: p(s) && Enabled(s, st) ==> got(Apply(s, st)) == got(s) + Wrote([st], l)
    ensures got(tr[n]) == Wrote(steps[..n], l)
  {
    if n > 0 {
      Collected(tr, steps, n - 1, l, p, got);
      assert StepAt(tr, steps, n - 1);
      WroteSnoc(steps, n - 1, l);
    }
  }

  lemma ArrivedIsWrote(tr: seq<State>, steps: seq<Step>, n: nat, l: Local)
    requires Run(tr, steps) && n < |tr|
    ensures Wrote(steps[..n], l) == Arrivals(tr[n], l)
  {
    var p: State -> bool := s => Inv(s) && Told(s, l);
    forall i | 0 <= i < |tr|
      ensures p(tr[i])
    {
      RunKeepsInv(tr, steps, i);
      RunKeepsTold(tr, steps, i, l);
    }
    forall s, st | p(s) && Enabled(s, st)
      ensures Arrivals(Apply(s, st), l) == Arrivals(s, l) + Wrote([st], l)
    {
      ArrivesNext(s, st, l);
      WroteOne(st, l);
    }
    Collected(tr, steps, n, l, p, s => Arrivals(s, l));
  }

  lemma WroteOne(st: Step, l: Local)
    ensures Wrote([st], l) == if st.PeerWrite? && st.l == l then [(st.r, st.d)] else []
  {
    assert [st][..0] == [];
  }

  lemma ArrivesNext(s: State, st: Step, l: Local)
    requires Inv(s) && Told(s, l) && Enabled(s, st)
    ensures Arrivals(Apply(s, st), l) == Arrivals(s, l) + if st.PeerWrite? && st.l == l then [(st.r, st.d)] else []
  {
    if st.PeerWrite? {
      WritesArrive(s, st, l);
    } else {
      OnlyWritesArrive(s, st, l);
    }
  }

  lemma WroteSnoc(steps: seq<Step>, n: nat, l: Local)
    requires n < |steps|
    ensures Wrote(steps[..n + 1], l) == Wrote(steps[..n], l) + Wrote([steps[n]], l)
  {
    assert steps[..n + 1][..n] == steps[..n];
    WroteOne(steps[n], l);
  }

  /**
    In every run, for every stream: what it accepted are the first payloads the device wrote for it, and the OKAYs put
    into the writer's queue carry its number and the remote numbers of those payloads, in order, all but at most the
    last, which the reader is about to queue unless it stopped.
  */
  lemma OkaysAnswerWrites(tr: seq<State>, steps: seq<Step>, n: nat, l: Local)
    requires Run(tr, steps) && n < |tr| && l in tr[n].chans
    ensures var s, w, c := tr[n], Wrote(steps[..n], l), tr[n].chans[l];
      var okays := Okays(s.taken + s.writeQ, l);
      && |okays| <= |c.accepted| <= |w| && |c.accepted| <= |okays| + 1
      && (s.reader.Idle? ==> |okays| == |c.accepted|)
      && (forall i :: 0 <= i < |okays| ==> okays[i] == w[i].0)
      && (forall i :: 0 <= i < |c.accepted| ==> c.accepted[i] == w[i].1)
  {
    RunKeepsTold(tr, steps, n, l);
    RunKeepsInv(tr, steps, n);
    assert ChanOk(tr[n], l);
    ArrivedIsWrote(tr, steps, n, l);
  }

  /** The CLSE that answers a payload nobody takes names its stream and the remote number that payload came with. */
  lemma CloseAnswersWrite(tr: seq<State>, steps: seq<Step>, n: nat)
    requires Run(tr, steps) && n < |steps| && steps[n].TellClosed?
    ensures exists l, r ::
      && l in tr[n].chans && |tr[n].chans[l].accepted| < |Wrote(steps[..n], l)|
      && Wrote(steps[..n], l)[|tr[n].chans[l].accepted|].0 == r
      && tr[n + 1].taken + tr[n + 1].writeQ == (tr[n].taken + tr[n].writeQ) + [CloseFrame(l, r)]
  {
    assert StepAt(tr, steps, n);
    var l, r := tr[n].reader.l, tr[n].reader.r;
    RunKeepsTold(tr, steps, n, l);
    RunKeepsInv(tr, steps, n);
    ArrivedIsWrote(tr, steps, n, l);
    QueueGrows(tr[n], TellClosed);
  }

  // ----- Who is waiting, and who is reachable

  /** The steps that end the wait of `open_stream` for stream `l`. */
  predicate EndsWait(st: Step, l: Local) {
    st == PeerOkay(l) || st == PeerFail(l) || st == PeerClose(l) || st == Abort(l) || st.ReaderStops?
  }

  /** The steps that take stream `l` out of the reader's table. */
  ghost predicate Unlists(s: State, st: Step, l: Local) {
    || st == Abort(l) || st == PeerClose(l) || st == Unregister(l) || st.WriterStops?
    || (st.Deliver? && s.reader.Got? && s.reader.l == l && l in s.chans && !s.chans[l].owned)
  }

  /** Stream `l` was opened by step `i`, before step `n`. */
  ghost predicate OpenedAt(tr: seq<State>, steps: seq<Step>, i: nat, n: nat, l: Local)
    requires |tr| == |steps| + 1 && n < |tr|
  {
    i < n && steps[i].Register? && tr[i + 1].next == l
  }

  ghost predicate StillWaits(tr: seq<State>, steps: seq<Step>, n: nat, l: Local)
    requires |tr| == |steps| + 1 && n < |tr|
  {
    exists i: nat :: OpenedAt(tr, steps, i, n, l) && forall k :: i < k < n ==> !EndsWait(steps[k], l)
  }

  ghost predicate StillListed(tr: seq<State>, steps: seq<Step>, n: nat, l: Local)
    requires |tr| == |steps| + 1 && n < |tr|
  {
    exists i: nat :: OpenedAt(tr, steps, i, n, l) && forall k :: i < k < n ==> !Unlists(tr[k], steps[k], l)
  }

  lemma StepTables(s: State, st: Step, l: Local)
    requires TablesOk(s) && Enabled(s, st)
    ensures var s', begun := Apply(s, st), st.Register? && l == Apply(s, st).next;
      && (l in s'.pending <==> begun || (l in s.pending && !EndsWait(st, l)))
      && (l in s'.registered <==> begun || (l in s.registered && !Unlists(s, st, l)))
  {
  }

  /** A stream is waited for exactly from its registration to the first answer, failure or end of the reader. */
  lemma {:induction false} PendingIff(tr: seq<State>, steps: seq<Step>, n: nat, l: Local)
    requires Run(tr, steps) && n < |tr|
    ensures l in tr[n].pending <==> StillWaits(tr, steps, n, l)
  {
    if n > 0 {
      PendingIff(tr, steps, n - 1, l);
      RunKeepsInv(tr, steps, n - 1);
      assert StepAt(tr, steps, n - 1);
      StepTables(tr[n - 1], steps[n - 1], l);
      if StillWaits(tr, steps, n, l) {
        var i: nat :| OpenedAt(tr, steps, i, n, l) && forall k :: i < k < n ==> !EndsWait(steps[k], l);
        assert i < n - 1 ==> OpenedAt(tr, steps, i, n - 1, l);
      }
      if StillWaits(tr, steps, n - 1, l) && !EndsWait(steps[n - 1], l) {
        var i: nat :| OpenedAt(tr, steps, i, n - 1, l) && forall k :: i < k < n - 1 ==> !EndsWait(steps[k], l);
        assert OpenedAt(tr, steps, i, n, l);
      }
      if steps[n - 1].Register? && l == tr[n].next {
        assert OpenedAt(tr, steps, n - 1, n, l);
      }
    }
  }

  /** And reachable for the device exactly from its registration to the step that takes it out of the table. */
  lemma {:induction false} RegisteredIff(tr: seq<State>, steps: seq<Step>, n: nat, l: Local)
    requires Run(tr, steps) && n < |tr|
    ensures l in tr[n].registered <==> StillListed(tr, steps, n, l)
  {
    if n > 0 {
      RegisteredIff(tr, steps, n - 1, l);
      RunKeepsInv(tr, steps, n - 1);
      assert StepAt(tr, steps, n - 1);
      StepTables(tr[n - 1], steps[n - 1], l);
      if StillListed(tr, steps, n, l) {
        var i: nat :| OpenedAt(tr, steps, i, n, l) && forall k :: i < k < n ==> !Unlists(tr[k], steps[k], l);
        assert i < n - 1 ==> OpenedAt(tr, steps, i, n - 1, l);
      }
      if StillListed(tr, steps, n - 1, l) && !Unlists(tr[n - 1], steps[n - 1], l) {
        var i: nat :| OpenedAt(tr, steps, i, n - 1, l) && forall k :: i < k < n - 1 ==> !Unlists(tr[k], steps[k], l);
        assert OpenedAt(tr, steps, i, n, l);
      }
      if steps[n - 1].Register? && l == tr[n].next {
        assert OpenedAt(tr, steps, n - 1, n, l);
      }
    }
  }

  /** What one step does to the flags of a stream. */
  ghost predicate FlagStep(c: Chan, c': Chan, st: Step, l: Local) {
    && (c'.owned <==> c.owned && st != Abort(l) && st != DropStream(l))
    && (c'.closed <==> c.closed || st == PeerClose(l))
    && (c'.shut <==> c.shut || st == Shutdown(l) || st == DropStream(l))
    && (c'.answered <==> c.answered || st == PeerOkay(l))
    && (c'.inbox.live <==> c.inbox.live && st != Hangup(l))
  }

  lemma OwnerFlags(s: State, st: Step, l: Local)
    requires Enabled(s, st) && ByOwner(st) && l in s.chans
    ensures FlagStep(s.chans[l], Apply(s, st).chans[l], st, l)
  {
  }

  lemma DeviceFlags(s: State, st: Step, l: Local)
    requires Enabled(s, st) && ByDevice(st) && l in s.chans
    ensures FlagStep(s.chans[l], Apply(s, st).chans[l], st, l)
  {
  }

  lemma QueueFlags(s: State, st: Step, l: Local)
    requires Enabled(s, st) && ByQueue(st) && l in s.chans
    ensures Apply(s, st).chans == s.chans && FlagStep(s.chans[l], s.chans[l], st, l)
  {
  }

  lemma ReaderFlags(s: State, st: Step, l: Local)
    requires TablesOk(s) && Enabled(s, st) && (ByReader(st) || st.Register? || st.Read?) && l in s.chans
    ensures FlagStep(s.chans[l], Apply(s, st).chans[l], st, l)
  {
    if st.Read? {
      PollKeepsBytes(s.chans[st.l].inbox, st.room);
    }
  }

  lemma StepFlags(s: State, st: Step, l: Local)
    requires TablesOk(s) && Enabled(s, st) && l in s.chans
    ensures l in Apply(s, st).chans && FlagStep(s.chans[l], Apply(s, st).chans[l], st, l)
  {
    StepKeepsTables(s, st);
    if ByOwner(st) {
      OwnerFlags(s, st, l);
    } else if ByDevice(st) {
      DeviceFlags(s, st, l);
    } else if ByQueue(st) {
      QueueFlags(s, st, l);
    } else {
      ReaderFlags(s, st, l);
    }
  }

  /** A flag of a stream's record that some steps set and none clears. */
  ghost predicate SetBy(flag: Chan -> bool, trip: Step -> bool, l: Local) {
    && !flag(FreshChan)
    && forall c, c', st :: FlagStep(c, c', st, l) ==> (flag(c') <==> flag(c) || trip(st))
  }

  /** Some step between `i` and `n` is one of those. */
  ghost predicate Tripped(steps: seq<Step>, i: nat, n: nat, trip: Step -> bool)
    requires n <= |steps|
  {
    exists k :: i < k < n && trip(steps[k])
  }

  /** Such a flag is set exactly when one of those steps was taken since the stream was opened. */
  lemma {:induction false} FlagTells(tr: seq<State>, steps: seq<Step>, i: nat, n: nat, l: Local, flag: Chan -> bool,
                                     trip: Step -> bool)
    requires Run(tr, steps) && n < |tr| && OpenedAt(tr, steps, i, n, l) && SetBy(flag, trip, l)
    ensures l in tr[n].chans && (flag(tr[n].chans[l]) <==> Tripped(steps, i, n, trip))
  {
    assert StepAt(tr, steps, n - 1);
    if i == n - 1 {
      OpensFresh(tr[i], steps[i]);
    } else {
      FlagTells(tr, steps, i, n - 1, l, flag, trip);
      RunKeepsInv(tr, steps, n - 1);
      StepFlags(tr[n - 1], steps[n - 1], l);
    }
  }

  lemma OpensFresh(s: State, st: Step)
    requires Enabled(s, st) && st.Register?
    ensures var s' := Apply(s, st); s'.next in s'.chans && s'.chans[s'.next] == FreshChan
  {
  }

  /** In every run the owner has given a stream up exactly if its open was aborted or it was dropped. */
  lemma OwnedIff(tr: seq<State>, steps: seq<Step>, i: nat, n: nat, l: Local)
    requires Run(tr, steps) && n < |tr| && OpenedAt(tr, steps, i, n, l)
    ensures l in tr[n].chans
    ensures tr[n].chans[l].owned <==> forall k :: i < k < n ==> steps[k] != Abort(l) && steps[k] != DropStream(l)
  {
    var trip := (st: Step) => st == Abort(l) || st == DropStream(l);
    FlagTells(tr, steps, i, n, l, (c: Chan) => !c.owned, trip);
    assert forall k :: i < k < n ==> (trip(steps[k]) <==> steps[k] == Abort(l) || steps[k] == DropStream(l));
  }

  /** The device has closed it exactly if it sent a CLSE, and has accepted it exactly if it sent an OKAY. */
  lemma ClosedIff(tr: seq<State>, steps: seq<Step>, i: nat, n: nat, l: Local)
    requires Run(tr, steps) && n < |tr| && OpenedAt(tr, steps, i, n, l)
    ensures l in tr[n].chans
    ensures tr[n].chans[l].closed <==> exists k :: i < k < n && steps[k] == PeerClose(l)
    ensures tr[n].chans[l].answered <==> exists k :: i < k < n && steps[k] == PeerOkay(l)
  {
    FlagTells(tr, steps, i, n, l, (c: Chan) => c.closed, (st: Step) => st == PeerClose(l));
    FlagTells(tr, steps, i, n, l, (c: Chan) => c.answered, (st: Step) => st == PeerOkay(l));
  }

  /** Its channel has hung up exactly if the last sender went. */
  lemma LiveIff(tr: seq<State>, steps: seq<Step>, i: nat, n: nat, l: Local)
    requires Run(tr, steps) && n < |tr| && OpenedAt(tr, steps, i, n, l)
    ensures l in tr[n].chans
    ensures !tr[n].chans[l].inbox.live <==> exists k :: i < k < n && steps[k] == Hangup(l)
  {
    FlagTells(tr, steps, i, n, l, (c: Chan) => !c.inbox.live, (st: Step) => st == Hangup(l));
  }
}
