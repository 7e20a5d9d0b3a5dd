/** One ADB stream as its owner uses it: partial reads with a saved remainder, and writes cut to the payload limit. */
module AdbStream {
  import opened Bytes

  const MAX_PAYLOAD: nat := 256 * 1024

  /** What a poll answers. `Ready([])` is how a byte stream reports its end. */
  datatype Poll = Ready(data: seq<byte>) | Pending

  /** The receiving side: chunks not yet taken from the channel, whether more can come, and the saved remainder. */
  datatype Inbox = Inbox(queue: seq<seq<byte>>, live: bool, incoming: Option<seq<byte>>)
  {
    /** Everything received and not yet read, in order. */
    function Unread(): seq<byte> {
      (if incoming.Some? then incoming.value else []) + Flat(queue)
    }

    /** A saved remainder is never empty. */
    predicate Ok() { incoming.Some? ==> incoming.value != [] }
  }

  function Keep(chunk: seq<byte>, n: nat): Option<seq<byte>>
    requires n <= |chunk|
  {
    if n < |chunk| then Some(chunk[n..]) else None
  }

  function Min(a: nat, b: nat): nat {
    if a < b then a else b
  }

  /** One poll with room for `room` bytes. */
  function Polled(i: Inbox, room: nat): (Poll, Inbox)
    requires i.Ok()
  {
    if room == 0 then (Ready([]), i)
    else if i.incoming.Some? then
      var n := Min(|i.incoming.value|, room);
      (Ready(i.incoming.value[..n]), i.(incoming := Keep(i.incoming.value, n)))
    else if i.queue != [] then
      var n := Min(|i.queue[0]|, room);
      (Ready(i.queue[0][..n]), i.(queue := i.queue[1..], incoming := Keep(i.queue[0], n)))
    else (if i.live then Pending else Ready([]), i)
  }

  /** No poll loses, repeats or reorders a byte, whatever the buffer size. */
  lemma PollKeepsBytes(i: Inbox, room: nat)
    requires i.Ok()
    ensures var (p, i') := Polled(i, room);
      && i'.Ok() && i'.live == i.live
      && (p.Ready? ==> |p.data| <= room && p.data + i'.Unread() == i.Unread())
      && (p.Pending? ==> i' == i)
  {
    if room > 0 && i.incoming.Some? {
      var n := Min(|i.incoming.value|, room);
      assert i.incoming.value == i.incoming.value[..n] + i.incoming.value[n..];
    } else if room > 0 && i.queue != [] {
      var n := Min(|i.queue[0]|, room);
      assert i.queue[0] == i.queue[0][..n] + i.queue[0][n..];
    }
  }

  /**
    A reader with room sees "end of stream" exactly when the channel is closed and drained, or when the next chunk is
    an empty payload: an empty WRTE reads like the end.
  */
  lemma EndSeenIff(i: Inbox, room: nat)
    requires i.Ok() && room > 0
    ensures Polled(i, room).0 == Ready([]) <==>
            i.incoming.None? && (if i.queue == [] then !i.live else i.queue[0] == [])
  {
    if i.incoming.Some? {
      assert |i.incoming.value[..Min(|i.incoming.value|, room)]| > 0;
    } else if i.queue != [] && i.queue[0] != [] {
      assert |i.queue[0][..Min(|i.queue[0]|, room)]| > 0;
    }
  }

  /**
    A reader with room waits exactly when nothing is there yet and more can come. Otherwise it gets the front of what is
    there: of the saved remainder, or of the next chunk, as much as fits, and the rest of that is saved.
  */
  lemma PollDelivers(i: Inbox, room: nat)
    requires i.Ok() && room > 0
    ensures var (p, i') := Polled(i, room);
      && (p.Pending? <==> i.incoming.None? && i.queue == [] && i.live)
      && (i.incoming.Some? ==> FrontOf(i.incoming.value, room, p, i') && i'.queue == i.queue)
      && (i.incoming.None? && i.queue != [] ==> FrontOf(i.queue[0], room, p, i') && i'.queue == i.queue[1..])
      && (i.incoming.None? && i.queue == [] ==> i' == i)
  {
  }

  /** `p` hands out the first `room` bytes of `chunk`, or all of it, and the rest is saved. */
  ghost predicate FrontOf(chunk: seq<byte>, room: nat, p: Poll, i': Inbox) {
    if |chunk| <= room then p == Ready(chunk) && i'.incoming == None
    else p == Ready(chunk[..room]) && i'.incoming == Some(chunk[room..])
  }

  datatype WriteReq = Data(local: nat, remote: nat, payload: seq<byte>) | Other

  /** What `try_reserve` on the writer queue answers, and what a write makes of it. */
  datatype Slot = Free | Full | Gone

  datatype WritePoll = Took(n: nat) | NotYet | BrokenPipe

  class Stream {
    const local: nat
    const remote: nat
    var rx: seq<seq<byte>>
    var live: bool
    var incoming: Option<seq<byte>>

    ghost function View(): Inbox
      reads this
    {
      Inbox(rx, live, incoming)
    }

    constructor (l: nat, r: nat)
      ensures View() == Inbox([], true, None) && local == l && remote == r
    {
      local, remote, rx, live, incoming := l, r, [], true, None;
    }

    method PollRead(room: nat) returns (p: Poll)
      requires View().Ok()
      modifies this
      ensures (p, View()) == Polled(old(View()), room)
    {
      if room == 0 {
        return Ready([]);
      }
      var pending := incoming;
      incoming := None;
      if pending.Some? {
        var n := Min(|pending.value|, room);
        p := Ready(pending.value[..n]);
        if n < |pending.value| {
          incoming := Some(pending.value[n..]);
        }
        if n > 0 {
          return;
        }
      }
      if rx != [] {
        var chunk := rx[0];
        rx := rx[1..];
        var n := Min(|chunk|, room);
        p := Ready(chunk[..n]);
        if n < |chunk| {
          incoming := Some(chunk[n..]);
        }
      } else if !live {
        p := Ready([]);
      } else {
        p := Pending;
      }
    }

    /** Accepts at most one payload's worth when the writer queue has a slot; fails when the writer is gone. */
    method PollWrite(buf: seq<byte>, slot: Slot) returns (taken: WritePoll, queued: seq<WriteReq>)
      ensures slot.Free? == taken.Took? && slot.Full? == taken.NotYet? && slot.Gone? == taken.BrokenPipe?
      ensures |queued| == (if slot.Free? then 1 else 0)
      ensures slot.Free? ==> taken.n <= |buf| && taken.n <= 256 * 1024 && (buf != [] ==> taken.n > 0)
      ensures slot.Free? ==> queued[0] == Data(local, remote, buf[..taken.n])
      ensures slot.Free? && |buf| <= 256 * 1024 ==> taken.n == |buf|
    {
      match slot
      case Free =>
        var take := Min(|buf|, MAX_PAYLOAD);
        return Took(take), [Data(local, remote, buf[..take])];
      case Full =>
        return NotYet, [];
      case Gone =>
        return BrokenPipe, [];
    }

    /** A frame of this stream's data, within the payload limit. */
    predicate Fits(req: WriteReq) {
      req.Data? && req.local == local && req.remote == remote && 0 < |req.payload| <= MAX_PAYLOAD
    }

    /** A caller writing a whole buffer: the frames carry it exactly, in order, and none is over the limit. */
    method WriteAll(buf: seq<byte>) returns (queued: seq<WriteReq>)
      ensures forall i :: 0 <= i < |queued| ==> Fits(queued[i])
      ensures Payloads(queued) == buf
    {
      queued := [];
      var at := 0;
      while at < |buf|
        invariant 0 <= at <= |buf|
        invariant forall i :: 0 <= i < |queued| ==> Fits(queued[i])
        invariant Payloads(queued) == buf[..at]
      {
        var took, q := PollWrite(buf[at..], Free);
        PayloadsSnoc(queued, q[0]);
        assert buf[..at] + buf[at..][..took.n] == buf[..at + took.n];
        queued, at := queued + q, at + took.n;
      }
    }
  }

  function Payloads(reqs: seq<WriteReq>): seq<byte> {
    if reqs == [] then []
    else Payloads(reqs[..|reqs| - 1]) + (if reqs[|reqs| - 1].Data? then reqs[|reqs| - 1].payload else [])
  }

  lemma PayloadsSnoc(reqs: seq<WriteReq>, r: WriteReq)
    ensures Payloads(reqs + [r]) == Payloads(reqs) + (if r.Data? then r.payload else [])
  {
    assert (reqs + [r])[..|reqs|] == reqs;
  }
}
