/** The mDNS name codec: labels, compression pointers, and the limit on following them. */
module DnsNames {
  import opened Bytes

  type Message = seq<byte>
  type Label = seq<byte>

  const DOT: byte := 46

  /** The deepest pointer nesting `read_name_depth` accepts. */
  const MAX_POINTERS: nat := 10

  datatype NameError = PointerLimit | NameOverrun | PointerOverrun | PointerOutOfBounds | LabelOverrun

  datatype Result<+T> = Ok(value: T) | Err(error: NameError)

  /** `parts.join(".")`. */
  function Join(parts: seq<Label>): seq<byte> {
    if parts == [] then []
    else if |parts| == 1 then parts[0]
    else Join(parts[..|parts| - 1]) + [DOT] + parts[|parts| - 1]
  }

  // ----- Reference: the name at an offset, following at most `pointers` compression pointers

  datatype Name = Name(labels: seq<Label>, end: nat)

  function NameAt(msg: Message, at: nat, pointers: nat): Result<Name>
    decreases pointers, |msg| - at
  {
    if at >= |msg| then Err(NameOverrun)
    else
      var len := msg[at];
      if len == 0 then Ok(Name([], at + 1))
      else if len >= 0xC0 then
        if at + 1 >= |msg| then Err(PointerOverrun)
        else
          var target := PointerTarget(len, msg[at + 1]);
          if target >= |msg| then Err(PointerOutOfBounds)
          else if pointers == 0 then Err(PointerLimit)
          else EndingAt(NameAt(msg, target, pointers - 1), at + 2)
      else if at + 1 + len > |msg| then Err(LabelOverrun)
      else
        Prefixed([msg[at + 1..at + 1 + len]], NameAt(msg, at + 1 + len, pointers))
  }

  /** The name a pointer leads to ends where the pointer does. */
  function EndingAt(r: Result<Name>, end: nat): Result<Name> {
    match r
    case Ok(n) => Ok(Name(n.labels, end))
    case Err(e) => Err(e)
  }

  function Prefixed(labels: seq<Label>, r: Result<Name>): Result<Name> {
    match r
    case Ok(n) => Ok(Name(labels + n.labels, n.end))
    case Err(e) => Err(e)
  }

  /** `((len & 0x3F) << 8) | lo`, for a length byte with both top bits set. */
  function PointerTarget(len: byte, lo: byte): nat
    requires len >= 0xC0
  {
    (len as int - 0xC0) * 256 + lo as int
  }

  /** What the code returns for a name of the reference: its labels joined and where it ends, or its error. */
  ghost predicate Gives(name: Result<Name>, r: Result<seq<byte>>, end: nat) {
    match name
    case Ok(n) => r == Ok(Join(n.labels)) && end == n.end
    case Err(e) => r == Err(e)
  }

  // ----- The code

  /** `read_name_depth`: labels in a loop, a recursive call on a pointer. */
  method ReadNameDepth(msg: Message, offset: nat, depth: nat) returns (r: Result<seq<byte>>, offset': nat)
    requires depth <= MAX_POINTERS + 1
    ensures depth > 10 ==> r == Err(PointerLimit)
    ensures depth <= 10 ==> Gives(NameAt(msg, offset, 10 - depth), r, offset')
    decreases MAX_POINTERS + 1 - depth, 1
  {
    offset' := offset;
    if depth > MAX_POINTERS {
      return Err(PointerLimit), offset';
    }
    var parts: seq<Label> := [];
    ghost var k := MAX_POINTERS - depth;
    ghost var whole := NameAt(msg, offset, k);
    PrefixedNone(whole);
    while true
      invariant After(msg, offset', k, parts, whole)
      decreases |msg| - offset'
    {
      NothingMore(msg, offset', k, parts, whole);
      if offset' >= |msg| {
        return Err(NameOverrun), offset';
      }
      var len := msg[offset'];
      offset' := offset' + 1;
      if len == 0 {
        return Ok(Join(parts)), offset';
      }
      if len >= 0xC0 {
        r, offset' := ReadPointer(msg, offset' - 1, depth, parts, whole);
        return;
      }
      if offset' + len > |msg| {
        return Err(LabelOverrun), offset';
      }
      var part := msg[offset'..offset' + len];
      LabelRead(msg, offset' - 1, part, parts, k, whole);
      parts := parts + [part];
      offset' := offset' + len;
    }
  }

  /** The labels read so far, and the name that stands at `at`, make up the whole name. */
  ghost predicate After(msg: Message, at: nat, k: nat, parts: seq<Label>, whole: Result<Name>) {
    whole == Prefixed(parts, NameAt(msg, at, k)) && forall i :: 0 <= i < |parts| ==> parts[i] != []
  }

  lemma NothingMore(msg: Message, at: nat, k: nat, parts: seq<Label>, whole: Result<Name>)
    requires After(msg, at, k, parts, whole)
    ensures at >= |msg| ==> whole == Err(NameOverrun)
    ensures at < |msg| && msg[at] == 0 ==> whole == Ok(Name(parts, at + 1))
    ensures at < |msg| && 0 < msg[at] < 0xC0 && at + 1 + msg[at] > |msg| ==> whole == Err(LabelOverrun)
  {
    assert parts + [] == parts;
  }

  /** The pointer branch of `read_name_depth`, which ends the name. */
  method ReadPointer(msg: Message, at: nat, depth: nat, parts: seq<Label>, ghost whole: Result<Name>)
    returns (r: Result<seq<byte>>, offset': nat)
    requires depth <= MAX_POINTERS && at < |msg| && msg[at] >= 0xC0
    requires After(msg, at, MAX_POINTERS - depth, parts, whole)
    ensures Gives(whole, r, offset')
    decreases MAX_POINTERS + 1 - depth, 0
  {
    ghost var k := MAX_POINTERS - depth;
    offset' := at + 1;
    if offset' >= |msg| {
      return Err(PointerOverrun), offset';
    }
    var lo := msg[offset'];
    offset' := offset' + 1;
    var ptr := PointerTarget(msg[at], lo);
    if ptr >= |msg| {
      return Err(PointerOutOfBounds), offset';
    }
    var suffix, _ := ReadNameDepth(msg, ptr, depth + 1);
    AtPointer(msg, at, k);
    if suffix.Err? {
      return suffix, offset';
    }
    LabelsReadAreWritable(msg, ptr, k - 1);
    var name := AppendSuffix(parts, suffix.value, NameAt(msg, ptr, k - 1).value.labels);
    return Ok(name), offset';
  }

  lemma AtPointer(msg: Message, at: nat, pointers: nat)
    requires at + 1 < |msg| && msg[at] >= 0xC0 && PointerTarget(msg[at], msg[at + 1]) < |msg|
    ensures pointers == 0 ==> NameAt(msg, at, pointers) == Err(PointerLimit)
    ensures pointers > 0 ==>
      NameAt(msg, at, pointers) == EndingAt(NameAt(msg, PointerTarget(msg[at], msg[at + 1]), pointers - 1), at + 2)
  {
  }

  /** What the code does with the name a pointer led to. */
  method AppendSuffix(parts: seq<Label>, suffix: seq<byte>, ghost tail: seq<Label>) returns (all: seq<byte>)
    requires suffix == Join(tail)
    requires forall i :: 0 <= i < |parts| ==> parts[i] != []
    requires forall i :: 0 <= i < |tail| ==> tail[i] != []
    ensures all == Join(parts + tail)
  {
    JoinConcat(parts, tail);
    if suffix != [] {
      all := Join(parts);
      if all != [] {
        all := all + [DOT];
      }
      assert [] + suffix == suffix;
      all := all + suffix;
      return;
    }
    return Join(parts);
  }

  lemma PrefixedNone(r: Result<Name>)
    ensures Prefixed([], r) == r
  {
    if r.Ok? {
      assert [] + r.value.labels == r.value.labels;
    }
  }

  lemma PrefixedOne(parts: seq<Label>, part: Label, r: Result<Name>)
    ensures Prefixed(parts, Prefixed([part], r)) == Prefixed(parts + [part], r)
  {
    if r.Ok? {
      assert parts + ([part] + r.value.labels) == (parts + [part]) + r.value.labels;
    }
  }

  /** Short enough for its length byte not to look like a pointer. */
  ghost predicate Writable(labels: seq<Label>) {
    forall i :: 0 <= i < |labels| ==> 1 <= |labels[i]| < 0xC0
  }

  lemma LabelRead(msg: Message, at: nat, part: Label, parts: seq<Label>, pointers: nat, whole: Result<Name>)
    requires LabelAt(msg, at, part)
    requires After(msg, at, pointers, parts, whole)
    ensures After(msg, at + 1 + |part|, pointers, parts + [part], whole)
  {
    OneLabel(msg, at, part, pointers);
    PrefixedOne(parts, part, NameAt(msg, at + 1 + |part|, pointers));
  }

  /** Every label that can be read has 1 to 191 bytes. */
  lemma {:induction false} LabelsReadAreWritable(msg: Message, at: nat, pointers: nat)
    ensures NameAt(msg, at, pointers).Ok? ==> Writable(NameAt(msg, at, pointers).value.labels)
    decreases pointers, |msg| - at
  {
    if at < |msg| && msg[at] != 0 {
      if msg[at] >= 0xC0 {
        if at + 1 < |msg| && PointerTarget(msg[at], msg[at + 1]) < |msg| && pointers > 0 {
          LabelsReadAreWritable(msg, PointerTarget(msg[at], msg[at + 1]), pointers - 1);
        }
      } else if at + 1 + msg[at] <= |msg| {
        LabelsReadAreWritable(msg, at + 1 + msg[at], pointers);
      }
    }
  }

  /** Joining in two parts, as the code does around a pointer. */
  lemma {:induction false} JoinConcat(a: seq<Label>, b: seq<Label>)
    requires forall i :: 0 <= i < |a| ==> a[i] != []
    requires forall i :: 0 <= i < |b| ==> b[i] != []
    ensures Join(a) == [] <==> a == []
    ensures Join(b) == [] <==> b == []
    ensures Join(a + b) == if b == [] then Join(a) else if a == [] then Join(b) else Join(a) + [DOT] + Join(b)
  {
    JoinEmpty(a);
    JoinEmpty(b);
    if b == [] {
      assert a + b == a;
    } else if a == [] {
      assert a + b == b;
    } else {
      var n := |b| - 1;
      var front, last := b[..n], b[n];
      assert b == front + [last] && a + b == (a + front) + [last];
      JoinSnoc(a + front, last);
      JoinSnoc(front, last);
      if n > 0 {
        JoinConcat(a, front);
        ConcatAssoc(Join(a) + [DOT], Join(front), [DOT] + last);
        ConcatAssoc(Join(a) + [DOT] + Join(front), [DOT], last);
        ConcatAssoc(Join(front), [DOT], last);
      } else {
        assert a + [] == a;
      }
    }
  }

  lemma JoinSnoc(parts: seq<Label>, last: Label)
    ensures Join(parts + [last]) == if parts == [] then last else Join(parts) + [DOT] + last
  {
    assert (parts + [last])[..|parts|] == parts;
  }

  lemma {:induction false} JoinEmpty(a: seq<Label>)
    requires forall i :: 0 <= i < |a| ==> a[i] != []
    ensures Join(a) == [] <==> a == []
  {
  }

  method ReadName(msg: Message, offset: nat) returns (r: Result<seq<byte>>, offset': nat)
    ensures Gives(NameAt(msg, offset, MAX_POINTERS), r, offset')
    ensures r.Ok? ==> offset < offset' <= |msg|
  {
    Advances(msg, offset, MAX_POINTERS);
    r, offset' := ReadNameDepth(msg, offset, 0);
  }

  /** On success the offset strictly advances and stays within the message. */
  lemma {:induction false} Advances(msg: Message, at: nat, pointers: nat)
    ensures NameAt(msg, at, pointers).Ok? ==> at < NameAt(msg, at, pointers).value.end <= |msg|
    decreases |msg| - at
  {
    if at < |msg| && 0 < msg[at] < 0xC0 && at + 1 + msg[at] <= |msg| {
      Advances(msg, at + 1 + msg[at], pointers);
    }
  }

  /** The pointer limit only ever cuts off: a name that reads with few pointers reads the same with more. */
  lemma {:induction false} MorePointersSameName(msg: Message, at: nat, k: nat, more: nat)
    requires NameAt(msg, at, k).Ok? && k <= more
    ensures NameAt(msg, at, more) == NameAt(msg, at, k)
    decreases k, |msg| - at
  {
    if msg[at] >= 0xC0 {
      MorePointersSameName(msg, PointerTarget(msg[at], msg[at + 1]), k - 1, more - 1);
    } else if msg[at] > 0 {
      MorePointersSameName(msg, at + 1 + msg[at], k, more);
    }
  }

  /** At `at` stands a label or a pointer that leads on to an offset of `loop`. */
  ghost predicate LeadsInto(msg: Message, at: nat, loop: set<nat>) {
    at < |msg| && msg[at] > 0 &&
    (if msg[at] < 0xC0 then at + 1 + msg[at] in loop
     else at + 1 < |msg| && PointerTarget(msg[at], msg[at + 1]) in loop)
  }

  /** Offsets that only ever lead to one another, never to the end of a name. */
  ghost predicate Cyclic(msg: Message, loop: set<nat>) {
    forall at {:trigger LeadsInto(msg, at, loop)} :: at in loop ==> LeadsInto(msg, at, loop)
  }

  /** However pointers run in circles, the read ends with an error. */
  lemma {:induction false} CyclesAreRefused(msg: Message, loop: set<nat>, at: nat, pointers: nat)
    requires Cyclic(msg, loop) && at in loop
    ensures NameAt(msg, at, pointers) == Err(PointerLimit)
    decreases pointers, |msg| - at
  {
    assert LeadsInto(msg, at, loop);
    if msg[at] < 0xC0 {
      assert LeadsInto(msg, at + 1 + msg[at], loop);
      CyclesAreRefused(msg, loop, at + 1 + msg[at], pointers);
    } else {
      assert LeadsInto(msg, PointerTarget(msg[at], msg[at + 1]), loop);
      if pointers > 0 {
        CyclesAreRefused(msg, loop, PointerTarget(msg[at], msg[at + 1]), pointers - 1);
      }
    }
  }

  // ----- Writing

  /** The labels of a dotted name, empty ones included: `split('.')`. */
  function Split(name: seq<byte>): (parts: seq<Label>)
    ensures |parts| >= 1
  {
    if name == [] then [[]]
    else
      var rest := Split(name[1..]);
      if name[0] == DOT then [[]] + rest else [[name[0]] + rest[0]] + rest[1..]
  }

  function NonEmpty(parts: seq<Label>): seq<Label> {
    if parts == [] then [] else (if parts[0] == [] then [] else [parts[0]]) + NonEmpty(parts[1..])
  }

  /** Labels on the wire, each behind its length byte (`as u8`: the length modulo 256). */
  function Wire(labels: seq<Label>): seq<byte> {
    if labels == [] then [] else [|labels[0]| % 256] + labels[0] + Wire(labels[1..])
  }

  lemma WireStep(parts: seq<Label>, i: nat)
    requires i < |parts|
    ensures parts[i] == [] ==> Wire(NonEmpty(parts[i..])) == Wire(NonEmpty(parts[i + 1..]))
    ensures parts[i] != [] ==>
      Wire(NonEmpty(parts[i..])) == ([|parts[i]| % 256] + parts[i]) + Wire(NonEmpty(parts[i + 1..]))
  {
    var rest := NonEmpty(parts[i + 1..]);
    assert parts[i..][0] == parts[i] && parts[i..][1..] == parts[i + 1..];
    assert [] + rest == rest && ([parts[i]] + rest)[1..] == rest;
  }

  /** `write_name`: empty labels are skipped, a zero byte ends the name. */
  method WriteName(msg: seq<byte>, name: seq<byte>) returns (out: seq<byte>)
    ensures out == msg + Wire(NonEmpty(Split(name))) + [0]
  {
    var parts := Split(name);
    out := msg;
    assert parts[0..] == parts;
    for i := 0 to |parts|
      invariant out + Wire(NonEmpty(parts[i..])) == msg + Wire(NonEmpty(parts))
    {
      WireStep(parts, i);
      if parts[i] == [] {
        continue;
      }
      ConcatAssoc(out, [|parts[i]| % 256] + parts[i], Wire(NonEmpty(parts[i + 1..])));
      ConcatAssoc(out, [|parts[i]| % 256], parts[i]);
      out := out + [|parts[i]| % 256] + parts[i];
    }
    assert parts[|parts|..] == [];
    assert out + [] == out;
    out := out + [0];
  }

  ghost predicate LabelAt(msg: Message, at: nat, l: Label) {
    1 <= |l| < 0xC0 && at + 1 + |l| <= |msg| && msg[at] == |l| && msg[at + 1..at + 1 + |l|] == l
  }

  lemma OneLabel(msg: Message, at: nat, l: Label, pointers: nat)
    requires LabelAt(msg, at, l)
    ensures NameAt(msg, at, pointers) == Prefixed([l], NameAt(msg, at + 1 + |l|, pointers))
  {
  }

  lemma SliceOfSlice(s: seq<byte>, a: nat, b: nat, i: nat, j: nat)
    requires a <= b <= |s| && i <= j <= b - a
    ensures s[a..b][i..j] == s[a + i..a + j]
  {
    forall k | 0 <= k < j - i
      ensures s[a..b][i..j][k] == s[a + i..a + j][k]
    {
    }
  }

  /** Where the first label and the rest of the wire form lie. */
  lemma WireHead(msg: Message, at: nat, l: Label, v: seq<byte>, end: nat)
    requires 1 <= |l| < 0xC0 && end == at + 1 + |l| + |v| <= |msg| && msg[at..end] == [|l|] + l + v
    ensures LabelAt(msg, at, l) && msg[at + 1 + |l|..end] == v
  {
    var w := [|l|] + l + v;
    SliceOfSlice(msg, at, end, 1, 1 + |l|);
    SliceOfSlice(msg, at, end, 1 + |l|, |w|);
    assert w[0] == |l| && w[1..1 + |l|] == l && w[1 + |l|..|w|] == v;
  }

  /** A reader that reads a label by putting it before what it reads behind the label. */
  ghost predicate ReadsLabels(msg: Message, read: nat -> Result<Name>) {
    forall at: nat, l: Label {:trigger LabelAt(msg, at, l)} ::
      LabelAt(msg, at, l) ==> read(at) == Prefixed([l], read(at + 1 + |l|))
  }

  lemma NameAtReadsLabels(msg: Message, pointers: nat, read: nat -> Result<Name>)
    requires forall x: nat :: read(x) == NameAt(msg, x, pointers)
    ensures ReadsLabels(msg, read)
  {
    forall x: nat, l: Label | LabelAt(msg, x, l)
      ensures read(x) == Prefixed([l], read(x + 1 + |l|))
    {
      OneLabel(msg, x, l, pointers);
    }
  }

  lemma {:induction false} LabelsChain(msg: Message, read: nat -> Result<Name>, at: nat, labels: seq<Label>,
                                       w: seq<byte>)
    requires ReadsLabels(msg, read) && Writable(labels) && w == Wire(labels)
    requires at + |w| <= |msg| && msg[at..at + |w|] == w
    ensures read(at) == Prefixed(labels, read(at + |w|))
    decreases |labels|
  {
    if labels == [] {
      PrefixedNone(read(at));
    } else {
      var l, rest, v := labels[0], labels[1..], Wire(labels[1..]);
      assert w == [|l|] + l + v;
      WireHead(msg, at, l, v, at + |w|);
      LabelsChain(msg, read, at + 1 + |l|, rest, v);
      PrefixedCons(l, rest, read(at + |w|));
      assert labels == [l] + rest;
    }
  }

  lemma PrefixedCons(l: Label, rest: seq<Label>, r: Result<Name>)
    ensures Prefixed([l], Prefixed(rest, r)) == Prefixed([l] + rest, r)
  {
    if r.Ok? {
      assert [l] + (rest + r.value.labels) == ([l] + rest) + r.value.labels;
    }
  }

  /**
    Labels written anywhere in a message read back as those labels followed by whatever name comes next there: the end
    of the name, or, for a compressed name, the name a pointer leads to.
  */
  lemma LabelsThenRest(msg: Message, at: nat, labels: seq<Label>, w: seq<byte>, pointers: nat)
    requires Writable(labels) && w == Wire(labels) && at + |w| <= |msg| && msg[at..at + |w|] == w
    ensures NameAt(msg, at, pointers) == Prefixed(labels, NameAt(msg, at + |w|, pointers))
  {
    var read := (x: nat) => NameAt(msg, x, pointers);
    NameAtReadsLabels(msg, pointers, read);
    LabelsChain(msg, read, at, labels, w);
  }

  /** Labels with a zero byte behind them are a whole name. */
  lemma LabelsThenEnd(msg: Message, at: nat, labels: seq<Label>, w: seq<byte>, pointers: nat)
    requires Writable(labels) && w == Wire(labels) && at + |w| < |msg| && msg[at..at + |w|] == w && msg[at + |w|] == 0
    ensures NameAt(msg, at, pointers) == Ok(Name(labels, at + |w| + 1))
  {
    LabelsThenRest(msg, at, labels, w, pointers);
    assert NameAt(msg, at + |w|, pointers) == Ok(Name([], at + |w| + 1));
    assert labels + [] == labels;
  }

  /** Where the parts of a message lie. */
  lemma Placed(pre: seq<byte>, w: seq<byte>, post: seq<byte>, msg: Message)
    requires msg == pre + w + post
    ensures |msg| == |pre| + |w| + |post| && msg[|pre|..|pre| + |w|] == w
    ensures |post| > 0 ==> msg[|pre| + |w|] == post[0]
    ensures |post| > 1 ==> msg[|pre| + |w| + 1] == post[1]
  {
  }

  /** Reading undoes writing exactly when every label has at most 191 bytes. */
  lemma ReadBackIff(msg: Message, at: nat, labels: seq<Label>, w: seq<byte>, pointers: nat)
    requires w == Wire(labels) && at + |w| < |msg| && msg[at..at + |w|] == w && msg[at + |w|] == 0
    ensures NameAt(msg, at, pointers) == Ok(Name(labels, at + |w| + 1)) <==> Writable(labels)
  {
    LabelsReadAreWritable(msg, at, pointers);
    if Writable(labels) {
      LabelsThenEnd(msg, at, labels, w, pointers);
    }
  }

  /**
    The same for a message holding what `write_name` wrote among any other bytes: the labels come back without the empty
    ones, and the offset ends just behind the name.
  */
  lemma ReadUndoesWriteIff(pre: seq<byte>, name: seq<byte>, labels: seq<Label>, w: seq<byte>, post: seq<byte>,
                           msg: Message, pointers: nat)
    requires labels == NonEmpty(Split(name)) && w == Wire(labels) && msg == pre + w + ([0] + post)
    ensures NameAt(msg, |pre|, pointers) == Ok(Name(labels, |pre| + |w| + 1)) <==> Writable(labels)
  {
    Placed(pre, w, [0] + post, msg);
    ReadBackIff(msg, |pre|, labels, w, pointers);
  }

  /** Joining undoes splitting. */
  lemma {:induction false} JoinSplit(name: seq<byte>)
    ensures Join(Split(name)) == name
  {
    if name != [] {
      JoinSplit(name[1..]);
      var rest := Split(name[1..]);
      assert name == [name[0]] + name[1..];
      if name[0] == DOT {
        JoinCons([], rest);
      } else {
        JoinGrow(name[0], rest);
      }
    }
  }

  lemma JoinGrow(c: byte, rest: seq<Label>)
    requires rest != []
    ensures Join([[c] + rest[0]] + rest[1..]) == [c] + Join(rest)
  {
    var first, others := rest[0], rest[1..];
    assert rest == [first] + others;
    if others == [] {
      assert [[c] + first] + others == [[c] + first];
    } else {
      JoinCons(first, others);
      JoinCons([c] + first, others);
      ConcatAssoc([c], first, [DOT]);
      ConcatAssoc([c], first + [DOT], Join(others));
    }
  }

  lemma {:induction false} JoinCons(l: Label, rest: seq<Label>)
    requires rest != []
    ensures Join([l] + rest) == l + [DOT] + Join(rest)
  {
    var n := |rest| - 1;
    assert ([l] + rest)[..1 + n] == [l] + rest[..n];
    if n > 0 {
      JoinCons(l, rest[..n]);
    } else {
      assert [l] + rest[..n] == [l];
    }
  }

  lemma {:induction false} NothingEmpty(parts: seq<Label>)
    ensures (forall i :: 0 <= i < |parts| ==> parts[i] != []) ==> NonEmpty(parts) == parts
  {
    if parts != [] && forall i :: 0 <= i < |parts| ==> parts[i] != [] {
      NothingEmpty(parts[1..]);
      assert parts == [parts[0]] + parts[1..];
    }
  }

  /** A dotted name without empty labels, written with `write_name`, reads back as itself. */
  lemma NameReadsBack(pre: seq<byte>, name: seq<byte>, w: seq<byte>, post: seq<byte>, msg: Message)
    requires Writable(Split(name)) && w == Wire(NonEmpty(Split(name))) && msg == pre + w + ([0] + post)
    ensures Gives(NameAt(msg, |pre|, MAX_POINTERS), Ok(name), |pre| + |w| + 1)
  {
    NothingEmpty(Split(name));
    JoinSplit(name);
    ReadUndoesWriteIff(pre, name, NonEmpty(Split(name)), w, post, msg, MAX_POINTERS);
  }

  /**
    Section 4.1.4 of RFC 1035: labels, then a pointer to offset `t` in two bytes, read as the labels followed by the
    name at `t`, and end behind the pointer; an error there is the error here.
  */
  lemma CompressedName(msg: Message, at: nat, labels: seq<Label>, w: seq<byte>, t: nat, pointers: nat)
    requires Writable(labels) && w == Wire(labels) && at + |w| + 1 < |msg| && msg[at..at + |w|] == w
    requires t < 0x4000 && msg[at + |w|] == 0xC0 + t / 256 && msg[at + |w| + 1] == t % 256
    requires t < |msg| && pointers > 0
    ensures var there, here := NameAt(msg, t, pointers - 1), NameAt(msg, at, pointers);
      && (there.Ok? ==> here == Ok(Name(labels + there.value.labels, at + |w| + 2)))
      && (there.Err? ==> here == Err(there.error))
  {
    var end := at + |w|;
    LabelsThenRest(msg, at, labels, w, pointers);
    PointerSpelled(t);
    AtPointer(msg, end, pointers);
    LabelsThenName(labels, NameAt(msg, t, pointers - 1), end + 2);
  }

  lemma PointerSpelled(t: nat)
    requires t < 0x4000
    ensures 0xC0 + t / 256 < 256 && PointerTarget(0xC0 + t / 256, t % 256) == t
  {
  }

  lemma LabelsThenName(labels: seq<Label>, r: Result<Name>, end: nat)
    ensures r.Ok? ==> Prefixed(labels, EndingAt(r, end)) == Ok(Name(labels + r.value.labels, end))
    ensures r.Err? ==> Prefixed(labels, EndingAt(r, end)) == Err(r.error)
  {
  }

  /** When a name does not read, and with which error, by the bytes at its start. */
  lemma WhenItFails(msg: Message, at: nat, pointers: nat)
    ensures at >= |msg| ==> NameAt(msg, at, pointers) == Err(NameOverrun)
    ensures at + 1 == |msg| && msg[at] >= 0xC0 ==> NameAt(msg, at, pointers) == Err(PointerOverrun)
    ensures at + 1 < |msg| && msg[at] >= 0xC0 ==>
      var t := (msg[at] as int % 64) * 256 + msg[at + 1] as int;
      && (t >= |msg| ==> NameAt(msg, at, pointers) == Err(PointerOutOfBounds))
      && (t < |msg| && pointers == 0 ==> NameAt(msg, at, pointers) == Err(PointerLimit))
    ensures at < |msg| && 0 < msg[at] < 0xC0 && at + 1 + msg[at] > |msg| ==>
      NameAt(msg, at, pointers) == Err(LabelOverrun)
    ensures at < |msg| && msg[at] == 0 ==> NameAt(msg, at, pointers) == Ok(Name([], at + 1))
  {
  }

  /** Splitting is at the dots: no label has one, and there is one label more than dots. */
  lemma {:induction false} SplitAtDots(name: seq<byte>)
    ensures forall i :: 0 <= i < |Split(name)| ==> DOT !in Split(name)[i]
    ensures |Split(name)| == 1 + multiset(name)[DOT]
  {
    if name != [] {
      SplitAtDots(name[1..]);
      assert name == [name[0]] + name[1..];
    }
  }

  lemma {:induction false} SplitFirst(l: Label, rest: seq<byte>)
    requires DOT !in l
    ensures Split(l) == [l] && Split(l + [DOT] + rest) == [l] + Split(rest)
  {
    var name := l + [DOT] + rest;
    if l == [] {
      assert name == [DOT] + rest && name[1..] == rest;
    } else {
      SplitFirst(l[1..], rest);
      assert name[1..] == l[1..] + [DOT] + rest && l == [l[0]] + l[1..];
      assert ([l[1..]] + Split(rest))[1..] == Split(rest);
    }
  }

  /** A name of two labels is written as each behind its length. */
  lemma TwoLabelsWritten(a: Label, b: Label, name: seq<byte>)
    requires DOT !in a && DOT !in b && a != [] && b != [] && name == a + [DOT] + b
    ensures Wire(NonEmpty(Split(name))) == [|a| % 256] + a + ([|b| % 256] + b)
  {
    SplitTwo(a, b, name);
    TwoKept(a, b);
    TwoOnWire(a, b);
  }

  lemma SplitTwo(a: Label, b: Label, name: seq<byte>)
    requires DOT !in a && DOT !in b && name == a + [DOT] + b
    ensures Split(name) == [a, b]
  {
    SplitFirst(a, b);
    SplitFirst(b, []);
    assert [a] + [b] == [a, b];
  }

  lemma TwoKept(a: Label, b: Label)
    requires a != [] && b != []
    ensures NonEmpty([a, b]) == [a, b]
  {
    NothingEmpty([a, b]);
  }

  lemma TwoOnWire(a: Label, b: Label)
    ensures Wire([a, b]) == [|a| % 256] + a + ([|b| % 256] + b)
  {
    assert [a, b][1..] == [b] && [b][1..] == [] && Wire([]) == [];
    assert Wire([b]) == [|b| % 256] + b + [];
  }

  /** A label of 256 bytes is written with length byte 0, so it reads as the end of the name. */
  lemma LongLabelLost(l: Label, post: seq<byte>)
    requires |l| == 256
    ensures NameAt(Wire([l]) + post, 0, MAX_POINTERS) == Ok(Name([], 1))
  {
    assert (Wire([l]) + post)[0] == 0;
  }
}
