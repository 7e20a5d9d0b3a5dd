/** The size limits both ends of the proxy protocol agree on. */
module ProxyLimits {
  /** Largest payload of a reply. */
  const MAX_RESPONSE: nat := 8 * 1024 * 1024
  /** The whole reply frame carries one status byte more. */
  const MAX_RESPONSE_FRAME: nat := MAX_RESPONSE + 1
  const MAX_REQUEST: nat := 8 * 1024 * 1024
  const LISTDIR_PAGE: nat := 16384
}

/** Length-prefixed frames: how both ends cut the byte stream back into what the other end sent. */
module Framing {
  import opened Bytes
  import opened ProxyLimits

  /** `header` bytes, the last four of them the little-endian body length; bodies longer than `max` are refused. */
  datatype Shape = Shape(header: nat, max: nat)

  const REPLY := Shape(4, MAX_RESPONSE_FRAME)
  const REQUEST := Shape(5, MAX_REQUEST)

  datatype Frame = Frame(head: seq<byte>, body: seq<byte>)

  /** How a stream of frames ends: with the connection, or with a length over the limit. */
  datatype End = Eof | TooBig(len: nat)

  datatype Parsed = Parsed(frames: seq<Frame>, end: End)

  function BodyLen(sh: Shape, s: seq<byte>): nat
    requires 4 <= sh.header <= |s|
  {
    LeVal(s[sh.header - 4..sh.header])
  }

  /** The whole stream at once: the reference. */
  function Parse(sh: Shape, s: seq<byte>): Parsed
    requires 4 <= sh.header
    decreases |s|
  {
    if |s| < sh.header then Parsed([], Eof)
    else
      var len := BodyLen(sh, s);
      if len > sh.max then Parsed([], TooBig(len))
      else if |s| < sh.header + len then Parsed([], Eof)
      else
        var rest := Parse(sh, s[sh.header + len..]);
        Parsed([Frame(s[..sh.header - 4], s[sh.header..sh.header + len])] + rest.frames, rest.end)
  }

  // ----- Reassembly

  /** `read_buf` until `want` bytes are buffered; `ok` is false when the stream ended first. */
  method Fill(buf: seq<byte>, chunks: seq<seq<byte>>, want: nat)
    returns (buf': seq<byte>, chunks': seq<seq<byte>>, ok: bool)
    ensures buf' + Flat(chunks') == buf + Flat(chunks)
    ensures buf <= buf'
    ensures ok == (|buf'| >= want) == (|buf + Flat(chunks)| >= want)
    ensures !ok ==> chunks' == []
  {
    buf', chunks' := buf, chunks;
    while |buf'| < want && chunks' != []
      invariant buf' + Flat(chunks') == buf + Flat(chunks)
      invariant buf <= buf'
      decreases |chunks'|
    {
      ConcatAssoc(buf', chunks'[0], Flat(chunks'[1..]));
      buf', chunks' := buf' + chunks'[0], chunks'[1..];
    }
    ok := |buf'| >= want;
    assert chunks' == [] ==> buf' + Flat(chunks') == buf';
  }

  /** One round of either end's loop: wait for the header, check the length, wait for the body, cut the frame off. */
  method NextFrame(sh: Shape, buf: seq<byte>, chunks: seq<seq<byte>>)
    returns (got: Option<Frame>, end: End, buf': seq<byte>, chunks': seq<seq<byte>>)
    requires 4 <= sh.header
    ensures got.None? ==> Parse(sh, buf + Flat(chunks)) == Parsed([], end)
    ensures got.Some? ==> |buf' + Flat(chunks')| < |buf + Flat(chunks)|
    ensures got.Some? ==>
      var q := Parse(sh, buf' + Flat(chunks')); Parse(sh, buf + Flat(chunks)) == Parsed([got.value] + q.frames, q.end)
  {
    var ok: bool;
    got, end := None, Eof;
    buf', chunks', ok := Fill(buf, chunks, sh.header);
    if !ok {
      return;
    }
    var len := BodyLen(sh, buf');
    HeaderOfPrefix(sh, buf', Flat(chunks'));
    if len > sh.max {
      end := TooBig(len);
      return;
    }
    ghost var headed := buf';
    buf', chunks', ok := Fill(buf', chunks', sh.header + len);
    if !ok {
      return;
    }
    assert buf'[sh.header - 4..sh.header] == headed[sh.header - 4..sh.header];
    FirstFrame(sh, buf', Flat(chunks'), len);
    got := Some(Frame(buf'[..sh.header - 4], buf'[sh.header..sh.header + len]));
    buf' := buf'[sh.header + len..];
  }

  /** The host's reader task, for every way `chunks` of cutting the stream into reads. */
  method HostReader(chunks: seq<seq<byte>>) returns (bodies: seq<seq<byte>>, end: End)
    ensures var p := Parse(REPLY, Flat(chunks)); end == p.end && bodies == Bodies(p.frames)
  {
    var buf: seq<byte>, rest, got := [], chunks, None;
    bodies := [];
    ghost var total, frames: seq<Frame> := Parse(REPLY, Flat(chunks)), [];
    assert [] + Flat(chunks) == Flat(chunks);
    while true
      invariant var q := Parse(REPLY, buf + Flat(rest)); total == Parsed(frames + q.frames, q.end)
      invariant bodies == Bodies(frames)
      decreases |buf + Flat(rest)|
    {
      got, end, buf, rest := NextFrame(REPLY, buf, rest);
      if got.None? {
        assert frames + [] == frames;
        return;
      }
      BodiesSplit(frames, [got.value]);
      ConcatAssoc(frames, [got.value], Parse(REPLY, buf + Flat(rest)).frames);
      frames := frames + [got.value];
      bodies := bodies + [got.value.body];
    }
  }

  // ----- The device's request loop

  datatype Request = Request(op: byte, args: seq<byte>)

  function Requests(frames: seq<Frame>): (r: seq<Request>)
    requires forall i :: 0 <= i < |frames| ==> |frames[i].head| == 1
  {
    seq(|frames|, i requires 0 <= i < |frames| => Request(frames[i].head[0], frames[i].body))
  }

  /** A reply on the wire: its length, then its bytes. */
  function Framed(out: seq<byte>): seq<byte> {
    Le(|out|, 4) + out
  }

  /** What `dispatch` answers to the last of a history of requests: the device's state is a function of that history. */
  type Dispatch = seq<Request> -> seq<byte>

  function Answers(dispatch: Dispatch, rs: seq<Request>): seq<seq<byte>> {
    seq(|rs|, i requires 0 <= i < |rs| => dispatch(rs[..i + 1]))
  }

  function Wire(outs: seq<seq<byte>>): seq<byte> {
    if outs == [] then [] else Wire(outs[..|outs| - 1]) + Framed(outs[|outs| - 1])
  }

  lemma {:induction false} RequestHeads(s: seq<byte>)
    ensures forall i :: 0 <= i < |Parse(REQUEST, s).frames| ==> |Parse(REQUEST, s).frames[i].head| == 1
    decreases |s|
  {
    if |s| >= 5 && BodyLen(REQUEST, s) <= MAX_REQUEST && |s| >= 5 + BodyLen(REQUEST, s) {
      RequestHeads(s[5 + BodyLen(REQUEST, s)..]);
    }
  }

  /** What becomes of the i-th request: answered, lost with its dispatch task, or cut off while its reply is written. */
  datatype Fate = Answered | TaskFails | WriteFails(sent: nat)

  /** The first of `n` requests that is not answered; `n` if there is none. */
  function FirstFailure(fate: nat -> Fate, from: nat, n: nat): (k: nat)
    requires from <= n
    ensures from <= k <= n && (k < n ==> fate(k) != Answered) && forall i :: from <= i < k ==> fate(i) == Answered
    decreases n - from
  {
    if from == n || fate(from) != Answered then from else FirstFailure(fate, from + 1, n)
  }

  /** What is on the wire of a reply whose writing failed. */
  function Cut(response: seq<byte>, f: Fate): (c: seq<byte>)
    ensures c <= response && |c| == (if !f.WriteFails? then 0 else if f.sent < |response| then f.sent else |response|)
  {
    if f.WriteFails? then response[..if f.sent < |response| then f.sent else |response|] else []
  }

  /** What the device has written after the requests `rs` of a stream that ends with `end`. */
  ghost function Written(rs: seq<Request>, end: End, dispatch: Dispatch, tooBig: nat -> seq<byte>, fate: nat -> Fate)
    : seq<byte>
  {
    var n := FirstFailure(fate, 0, |rs|);
    if n < |rs| then Wire(Answers(dispatch, rs[..n])) + Cut(Framed(dispatch(rs[..n + 1])), fate(n))
    else Wire(Answers(dispatch, rs)) + (if end.TooBig? then Framed([0x08] + tooBig(end.len)) else [])
  }

  /**
    Every request up to the first failure is answered in order, whatever the reads; a failure ends the connection, and
    only an oversized frame draws one more reply before it does.
  */
  method HandleConnection(chunks: seq<seq<byte>>, dispatch: Dispatch, tooBig: nat -> seq<byte>, fate: nat -> Fate)
    returns (written: seq<byte>, served: seq<Request>)
    ensures var p := Parse(REQUEST, Flat(chunks));
      && (forall i :: 0 <= i < |p.frames| ==> |p.frames[i].head| == 1)
      && var rs := Requests(p.frames);
      var n := FirstFailure(fate, 0, |rs|);
      && served == (if n < |rs| then rs[..n + 1] else rs)
      && written == Written(rs, p.end, dispatch, tooBig, fate)
  {
    var buf: seq<byte>, rest, got, end := [], chunks, None, Eof;
    written, served := [], [];
    RequestHeads(Flat(chunks));
    ghost var total, frames: seq<Frame> := Parse(REQUEST, Flat(chunks)), [];
    ghost var rs := Requests(total.frames);
    assert [] + Flat(chunks) == Flat(chunks);
    while true
      invariant var q := Parse(REQUEST, buf + Flat(rest)); total == Parsed(frames + q.frames, q.end)
      invariant Serving(rs, |frames|, served, written, dispatch, fate)
      decreases |buf + Flat(rest)|
    {
      got, end, buf, rest := NextFrame(REQUEST, buf, rest);
      if got.None? {
        assert frames + [] == frames && rs[..|rs|] == rs;
        if end.TooBig? {
          written := written + Framed([0x08] + tooBig(end.len));
        }
        return;
      }
      ConcatAssoc(frames, [got.value], Parse(REQUEST, buf + Flat(rest)).frames);
      assert total.frames[|frames|] == got.value;
      frames := frames + [got.value];
      var r, failed := Request(got.value.head[0], got.value.body), false;
      written, served, failed := ServeOne(r, written, served, dispatch, fate, rs);
      if failed {
        return;
      }
    }
  }

  /** A frame over the limit is answered with status 8 behind all other answers; the end of the stream with nothing. */
  lemma OversizedRefused(rs: seq<Request>, len: nat, dispatch: Dispatch, tooBig: nat -> seq<byte>, fate: nat -> Fate)
    requires forall i: nat :: fate(i) == Answered
    ensures Written(rs, Eof, dispatch, tooBig, fate) == Wire(Answers(dispatch, rs))
    ensures var text := tooBig(len);
      Written(rs, TooBig(len), dispatch, tooBig, fate) ==
      Wire(Answers(dispatch, rs)) + (Le(1 + |text|, 4) + ([8] + text))
  {
    NeverFails(fate, 0, |rs|);
    assert Wire(Answers(dispatch, rs)) + [] == Wire(Answers(dispatch, rs));
  }

  /** One request: dispatched, and its reply written unless one of the two fails. */
  method ServeOne(r: Request, written0: seq<byte>, served0: seq<Request>, dispatch: Dispatch, fate: nat -> Fate,
                  ghost rs: seq<Request>)
    returns (written: seq<byte>, served: seq<Request>, failed: bool)
    requires var i := |served0|; i < |rs| && rs[i] == r && Serving(rs, i, served0, written0, dispatch, fate)
    ensures var i := |served0|;
      && served == rs[..i + 1]
      && (!failed ==> Serving(rs, i + 1, served, written, dispatch, fate))
      && (failed ==> FirstFailure(fate, 0, |rs|) == i)
      && (failed ==> written == Wire(Answers(dispatch, rs[..i])) + Cut(Framed(dispatch(rs[..i + 1])), fate(i)))
  {
    var i := |served0|;
    written, served := written0, served0 + [r];
    assert served == rs[..i + 1];
    if fate(i).TaskFails? {
      FailsAt(fate, 0, i, |rs|);
      return written, served, true;
    }
    var response := Framed(dispatch(served));
    if fate(i).WriteFails? {
      FailsAt(fate, 0, i, |rs|);
      return written + Cut(response, fate(i)), served, true;
    }
    AnswersSnoc(dispatch, served0, served);
    NoFailureYet(fate, 0, i, |rs|);
    return written + response, served, false;
  }

  /** `n` requests have been answered. */
  ghost predicate Serving(rs: seq<Request>, n: nat, served: seq<Request>, written: seq<byte>, dispatch: Dispatch,
                          fate: nat -> Fate) {
    && n <= |rs| && served == rs[..n] && written == Wire(Answers(dispatch, served))
    && n <= FirstFailure(fate, 0, |rs|)
  }

  lemma {:induction false} FailsAt(fate: nat -> Fate, from: nat, i: nat, n: nat)
    requires from <= i < n && fate(i) != Answered && i <= FirstFailure(fate, from, n)
    ensures FirstFailure(fate, from, n) == i
    decreases n - from
  {
    if from < i {
      FailsAt(fate, from + 1, i, n);
    }
  }

  lemma {:induction false} NoFailureYet(fate: nat -> Fate, from: nat, i: nat, n: nat)
    requires from <= i < n && fate(i) == Answered && i <= FirstFailure(fate, from, n)
    ensures i + 1 <= FirstFailure(fate, from, n)
    decreases n - from
  {
    if from < i {
      NoFailureYet(fate, from + 1, i, n);
    }
  }

  lemma {:induction false} NeverFails(fate: nat -> Fate, from: nat, n: nat)
    requires from <= n && forall i: nat :: fate(i) == Answered
    ensures FirstFailure(fate, from, n) == n
    decreases n - from
  {
    if from < n {
      NeverFails(fate, from + 1, n);
    }
  }

  lemma AnswersSnoc(dispatch: Dispatch, before: seq<Request>, rs: seq<Request>)
    requires |rs| == |before| + 1 && before == rs[..|before|]
    ensures Wire(Answers(dispatch, rs)) == Wire(Answers(dispatch, before)) + Framed(dispatch(rs))
  {
    var a := Answers(dispatch, rs);
    assert rs[..|rs|] == rs;
    assert a[..|a| - 1] == Answers(dispatch, before) by {
      forall i | 0 <= i < |before|
        ensures a[i] == Answers(dispatch, before)[i]
      {
        assert rs[..i + 1] == before[..i + 1];
      }
    }
  }

  function Bodies(frames: seq<Frame>): seq<seq<byte>> {
    seq(|frames|, i requires 0 <= i < |frames| => frames[i].body)
  }

  lemma BodiesSplit(a: seq<Frame>, b: seq<Frame>)
    ensures Bodies(a + b) == Bodies(a) + Bodies(b)
  {
  }

  lemma HeaderOfPrefix(sh: Shape, buf: seq<byte>, more: seq<byte>)
    requires 4 <= sh.header <= |buf|
    ensures BodyLen(sh, buf + more) == LeVal(buf[sh.header - 4..sh.header])
  {
    assert (buf + more)[sh.header - 4..sh.header] == buf[sh.header - 4..sh.header];
  }

  lemma FirstFrame(sh: Shape, buf: seq<byte>, more: seq<byte>, len: nat)
    requires 4 <= sh.header && sh.header + len <= |buf| && LeVal(buf[sh.header - 4..sh.header]) == len <= sh.max
    ensures var p, q := Parse(sh, buf + more), Parse(sh, buf[sh.header + len..] + more);
      p == Parsed([Frame(buf[..sh.header - 4], buf[sh.header..sh.header + len])] + q.frames, q.end)
  {
    HeaderOfPrefix(sh, buf, more);
    assert (buf + more)[sh.header + len..] == buf[sh.header + len..] + more;
    assert (buf + more)[..sh.header - 4] == buf[..sh.header - 4];
    assert (buf + more)[sh.header..sh.header + len] == buf[sh.header..sh.header + len];
  }

  // ----- Round trips

  function Encode(f: Frame): seq<byte> {
    f.head + Le(|f.body|, 4) + f.body
  }

  ghost predicate Sendable(sh: Shape, f: Frame) {
    |f.head| + 4 == sh.header && |f.body| <= sh.max
  }

  /** A frame within the limit, whatever follows it, parses back; one over the limit is refused. */
  lemma ParseEncoded(sh: Shape, f: Frame, more: seq<byte>)
    requires |f.head| + 4 == sh.header && |f.body| < 0x1_0000_0000
    ensures var q := Parse(sh, more);
      Parse(sh, Encode(f) + more) ==
      if |f.body| <= sh.max then Parsed([f] + q.frames, q.end) else Parsed([], TooBig(|f.body|))
  {
    var buf := Encode(f);
    assert buf[sh.header - 4..sh.header] == Le(|f.body|, 4);
    U32Le(|f.body|);
    HeaderOfPrefix(sh, buf, more);
    if |f.body| <= sh.max {
      FirstFrame(sh, buf, more, |f.body|);
      assert buf[..sh.header - 4] == f.head && buf[sh.header..sh.header + |f.body|] == f.body;
      assert buf[sh.header + |f.body|..] + more == more;
    }
  }

  function EncodeAll(fs: seq<Frame>): seq<byte> {
    if fs == [] then [] else Encode(fs[0]) + EncodeAll(fs[1..])
  }

  lemma {:induction false} ParseAll(sh: Shape, fs: seq<Frame>)
    requires 4 <= sh.header && sh.max < 0x1_0000_0000 && forall i :: 0 <= i < |fs| ==> Sendable(sh, fs[i])
    ensures Parse(sh, EncodeAll(fs)) == Parsed(fs, Eof)
  {
    if fs != [] {
      ParseAll(sh, fs[1..]);
      ParseEncoded(sh, fs[0], EncodeAll(fs[1..]));
      assert fs == [fs[0]] + fs[1..];
    }
  }

  /** More bytes only add frames: what was emitted for a prefix of the stream stands. */
  lemma {:induction false} PrefixMonotone(sh: Shape, a: seq<byte>, b: seq<byte>)
    requires 4 <= sh.header
    ensures Parse(sh, a).frames <= Parse(sh, a + b).frames
    decreases |a|
  {
    if |a| >= sh.header {
      var len := BodyLen(sh, a);
      if len <= sh.max && sh.header + len <= |a| {
        FirstFrame(sh, a, b, len);
        PrefixMonotone(sh, a[sh.header + len..], b);
      }
    }
  }

  /** The host's `request` puts `[op][len][args]` on the wire. */
  function RequestFrame(r: Request): Frame {
    Frame([r.op], r.args)
  }

  function RequestFrames(rs: seq<Request>): seq<Frame> {
    seq(|rs|, i requires 0 <= i < |rs| => RequestFrame(rs[i]))
  }

  function ReplyFrames(outs: seq<seq<byte>>): seq<Frame> {
    seq(|outs|, i requires 0 <= i < |outs| => Frame([], outs[i]))
  }

  lemma {:induction false} WireIsEncoded(outs: seq<seq<byte>>)
    ensures Wire(outs) == EncodeAll(ReplyFrames(outs))
  {
    if outs != [] {
      var last := |outs| - 1;
      WireIsEncoded(outs[..last]);
      assert ReplyFrames(outs) == ReplyFrames(outs[..last]) + [Frame([], outs[last])];
      EncodeAllSnoc(ReplyFrames(outs[..last]), Frame([], outs[last]));
    }
  }

  lemma {:induction false} EncodeAllSnoc(fs: seq<Frame>, f: Frame)
    ensures EncodeAll(fs + [f]) == EncodeAll(fs) + Encode(f)
  {
    if fs == [] {
      assert [f][1..] == [];
      assert EncodeAll([f]) == Encode(f) + [];
    } else {
      EncodeAllSnoc(fs[1..], f);
      assert (fs + [f])[1..] == fs[1..] + [f];
      ConcatAssoc(Encode(fs[0]), EncodeAll(fs[1..]), Encode(f));
    }
  }

  /** The replies before the first one over the host's cap, which ends its reader. */
  function Taken(outs: seq<seq<byte>>): seq<seq<byte>> {
    if outs == [] || |outs[0]| > MAX_RESPONSE_FRAME then [] else [outs[0]] + Taken(outs[1..])
  }

  /** The replies taken are the longest front within the cap. */
  lemma {:induction false} TakenUpTo(outs: seq<seq<byte>>)
    ensures Taken(outs) <= outs && forall i :: 0 <= i < |Taken(outs)| ==> |outs[i]| <= MAX_RESPONSE_FRAME
    ensures |Taken(outs)| < |outs| ==> |outs[|Taken(outs)|]| > MAX_RESPONSE_FRAME
  {
    if outs != [] && |outs[0]| <= MAX_RESPONSE_FRAME {
      TakenUpTo(outs[1..]);
    }
  }

  lemma {:induction false} TakenAll(outs: seq<seq<byte>>)
    requires forall i :: 0 <= i < |outs| ==> |outs[i]| <= MAX_RESPONSE_FRAME
    ensures Taken(outs) == outs
  {
    if outs != [] {
      TakenAll(outs[1..]);
      assert outs == [outs[0]] + outs[1..];
    }
  }

  lemma {:induction false} ParseUpToCap(outs: seq<seq<byte>>)
    requires forall i :: 0 <= i < |outs| ==> |outs[i]| < 0x1_0000_0000
    ensures Bodies(Parse(REPLY, EncodeAll(ReplyFrames(outs))).frames) == Taken(outs)
  {
    if outs != [] {
      var f, more := Frame([], outs[0]), ReplyFrames(outs[1..]);
      ParseUpToCap(outs[1..]);
      assert ReplyFrames(outs) == [f] + more && ReplyFrames(outs)[1..] == more;
      ParseEncoded(REPLY, f, EncodeAll(more));
      BodiesSplit([f], Parse(REPLY, EncodeAll(more)).frames);
      assert Bodies([f]) == [outs[0]];
    }
  }

  /** The device's half: it serves exactly the requests the host sent, in order, and writes all its answers. */
  method ServeAll(rs: seq<Request>, there: seq<seq<byte>>, dispatch: Dispatch, tooBig: nat -> seq<byte>,
                  fate: nat -> Fate)
    returns (written: seq<byte>, served: seq<Request>)
    requires forall i :: 0 <= i < |rs| ==> |rs[i].args| <= MAX_REQUEST
    requires forall i: nat :: fate(i) == Answered
    requires Flat(there) == EncodeAll(RequestFrames(rs))
    ensures served == rs && written == Wire(Answers(dispatch, rs))
  {
    ParseAll(REQUEST, RequestFrames(rs));
    NeverFails(fate, 0, |rs|);
    written, served := HandleConnection(there, dispatch, tooBig, fate);
    assert Requests(RequestFrames(rs)) == rs;
  }

  /** The host's half: its reader emits the answers, in order, up to the first one over its cap. */
  method TakeReplies(back: seq<seq<byte>>, ghost outs: seq<seq<byte>>) returns (bodies: seq<seq<byte>>)
    requires Flat(back) == Wire(outs) && forall i :: 0 <= i < |outs| ==> |outs[i]| < 0x1_0000_0000
    ensures bodies == Taken(outs)
    ensures (forall i :: 0 <= i < |outs| ==> |outs[i]| <= MAX_RESPONSE_FRAME) ==> bodies == outs
  {
    var end: End;
    WireIsEncoded(outs);
    ParseUpToCap(outs);
    bodies, end := HostReader(back);
    if forall i :: 0 <= i < |outs| ==> |outs[i]| <= MAX_RESPONSE_FRAME {
      TakenAll(outs);
    }
  }

  /** The i-th answer is what `dispatch` makes of the requests up to the i-th. */
  lemma EachAnswer(dispatch: Dispatch, rs: seq<Request>)
    ensures |Answers(dispatch, rs)| == |rs|
    ensures forall i :: 0 <= i < |rs| ==> Answers(dispatch, rs)[i] == dispatch(rs[..i + 1])
  {
  }

  /** However a direction cuts the bytes put into it, they come out as they went in. */
  ghost predicate Cuts(cut: seq<byte> -> seq<seq<byte>>) {
    forall b :: Flat(cut(b)) == b
  }

  /** End to end, however the two directions cut the bytes put into them. */
  method EndToEnd(rs: seq<Request>, cut: seq<byte> -> seq<seq<byte>>, recut: seq<byte> -> seq<seq<byte>>,
                  dispatch: Dispatch, tooBig: nat -> seq<byte>, fate: nat -> Fate)
    returns (served: seq<Request>, bodies: seq<seq<byte>>)
    requires forall i :: 0 <= i < |rs| ==> |rs[i].args| <= MAX_REQUEST
    requires forall h :: |dispatch(h)| < 0x1_0000_0000
    requires forall i: nat :: fate(i) == Answered
    requires Cuts(cut) && Cuts(recut)
    ensures served == rs && |bodies| <= |rs|
    ensures forall i :: 0 <= i < |bodies| ==> bodies[i] == dispatch(rs[..i + 1]) && |bodies[i]| <= MAX_RESPONSE_FRAME
    ensures |bodies| < |rs| ==> |dispatch(rs[..|bodies| + 1])| > MAX_RESPONSE_FRAME
  {
    var written: seq<byte>;
    written, served := ServeAll(rs, cut(EncodeAll(RequestFrames(rs))), dispatch, tooBig, fate);
    bodies := TakeReplies(recut(written), Answers(dispatch, rs));
    TakenUpTo(Answers(dispatch, rs));
    EachAnswer(dispatch, rs);
  }

  // ----- The caps fit each other

  /** The host takes a reply frame exactly when it is within its cap. */
  lemma HostAcceptsIff(out: seq<byte>)
    requires |out| < 0x1_0000_0000
    ensures Parse(REPLY, Framed(out)) == Parsed([Frame([], out)], Eof) <==> |out| <= 8 * 1024 * 1024 + 1
  {
    ParseEncoded(REPLY, Frame([], out), []);
    assert Encode(Frame([], out)) + [] == Framed(out);
  }

  /** The device takes a request exactly when the host's own size check lets it out. */
  lemma DeviceAcceptsIff(r: Request)
    requires |r.args| < 0x1_0000_0000
    ensures Parse(REQUEST, Encode(RequestFrame(r))) == Parsed([RequestFrame(r)], Eof) <==> |r.args| <= 8 * 1024 * 1024
  {
    ParseEncoded(REQUEST, RequestFrame(r), []);
    assert Encode(RequestFrame(r)) + [] == Encode(RequestFrame(r));
  }

  /** The `Read` arm of `dispatch`. `pread` answers at most the number of bytes asked for, or fails. */
  function ReadReply(args: seq<byte>, pread: (nat, nat, nat) -> Option<seq<byte>>): seq<byte> {
    if |args| < 16 then [0x08, 115, 104, 111, 114, 116]
    else
      var len := LeVal(args[12..16]);
      if len > MAX_RESPONSE then [0x07, 116, 111, 111, 32, 98, 105, 103]
      else
        match pread(LeVal(args[..4]), LeVal(args[4..12]), len)
        case None => [0x07, 112, 114, 101, 97, 100]
        case Some(data) => [0] + data
  }

  /** No read reply outgrows the host's cap. */
  lemma ReadReplyFits(args: seq<byte>, pread: (nat, nat, nat) -> Option<seq<byte>>)
    requires forall fd, off, len :: pread(fd, off, len).Some? ==> |pread(fd, off, len).value| <= len
    ensures |ReadReply(args, pread)| <= MAX_RESPONSE_FRAME
    ensures Parse(REPLY, Framed(ReadReply(args, pread))).frames == [Frame([], ReadReply(args, pread))]
  {
    HostAcceptsIff(ReadReply(args, pread));
  }

  /**
    A read asked for by handle, offset and length, in four, eight and four bytes: up to 8 MiB the reply is the bytes
    read behind a zero, or an error if there are none; a longer read is refused.
  */
  lemma ReadAnswers(fd: u32, off: u64, len: u32, pread: (nat, nat, nat) -> Option<seq<byte>>)
    ensures var reply, read := ReadReply(Le(fd, 4) + Le(off, 8) + Le(len, 4), pread), pread(fd, off, len);
      && (len <= 8 * 1024 * 1024 && read.Some? ==> reply == [0] + read.value)
      && (len <= 8 * 1024 * 1024 && read.None? ==> reply != [] && reply[0] == 0x07)
      && (len > 8 * 1024 * 1024 ==> reply != [] && reply[0] == 0x07)
  {
    var args := Le(fd, 4) + Le(off, 8) + Le(len, 4);
    assert args[..4] == Le(fd, 4) && args[4..12] == Le(off, 8) && args[12..16] == Le(len, 4);
    Pow256Widths();
    LeRoundTrip(fd, 4);
    LeRoundTrip(off, 8);
    LeRoundTrip(len, 4);
  }

  /** A request on the wire: its opcode, the length of its arguments in four little-endian bytes, and they. */
  lemma RequestSpelled(r: Request)
    requires |r.args| < 0x1_0000_0000
    ensures var n := |r.args|;
      Encode(RequestFrame(r)) == [r.op, n % 256, n / 0x100 % 256, n / 0x1_0000 % 256, n / 0x100_0000] + r.args
  {
    LeFour(|r.args|);
  }

  /** A reply on the wire: its length in four little-endian bytes, and it. */
  lemma ReplySpelled(out: seq<byte>)
    requires |out| < 0x1_0000_0000
    ensures var n := |out|; Framed(out) == [n % 256, n / 0x100 % 256, n / 0x1_0000 % 256, n / 0x100_0000] + out
  {
    LeFour(|out|);
  }
}
