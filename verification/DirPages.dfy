/** The 60-byte stat record, as the device writes it and the host reads it. */
module StatCodec {
  import opened Bytes

  datatype Stat = Stat(
    mode: u32, size: u64, mtime: i64, atime: i64, ctime: i64,
    uid: u32, gid: u32, nlink: u32, blksize: u32, blocks: u64)

  const STAT_LEN: nat := 60

  /** Two's complement. */
  function Unsigned(x: i64): u64 {
    if x < 0 then x + 0x1_0000_0000_0000_0000 else x
  }

  function Signed(x: nat): i64
    requires x < 0x1_0000_0000_0000_0000
  {
    if x < 0x8000_0000_0000_0000 then x else x - 0x1_0000_0000_0000_0000
  }

  function Encode(s: Stat): (b: seq<byte>)
    ensures |b| == STAT_LEN
  {
    Le(s.mode, 4) + (Le(s.size, 8) + (Le(Unsigned(s.mtime), 8) + (Le(Unsigned(s.atime), 8) + (Le(Unsigned(s.ctime), 8) +
    (Le(s.uid, 4) + (Le(s.gid, 4) + (Le(s.nlink, 4) + (Le(s.blksize, 4) + Le(s.blocks, 8)))))))))
  }

  function U32At(b: seq<byte>, i: nat): u32
    requires i + 4 <= |b|
  {
    U32Range(b[i..i + 4]);
    LeVal(b[i..i + 4])
  }

  function U64At(b: seq<byte>, i: nat): u64
    requires i + 8 <= |b|
  {
    Pow256Widths();
    LeBound(b[i..i + 8]);
    LeVal(b[i..i + 8])
  }

  function Decode(b: seq<byte>): Option<Stat> {
    if |b| < STAT_LEN then None
    else Some(Stat(U32At(b, 0), U64At(b, 4), Signed(U64At(b, 12)), Signed(U64At(b, 20)), Signed(U64At(b, 28)),
                   U32At(b, 36), U32At(b, 40), U32At(b, 44), U32At(b, 48), U64At(b, 52)))
  }

  lemma At32(b: seq<byte>, i: nat, x: u32)
    requires i + 4 <= |b| && b[i..i + 4] == Le(x, 4)
    ensures U32At(b, i) == x
  {
    U32Le(x);
  }

  lemma At64(b: seq<byte>, i: nat, x: u64)
    requires i + 8 <= |b| && b[i..i + 8] == Le(x, 8)
    ensures U64At(b, i) == x
  {
    Pow256Widths();
    LeRoundTrip(x, 8);
  }

  /** Where ten fields of these widths lie. */
  lemma Layout(a: seq<byte>, b: seq<byte>, c: seq<byte>, d: seq<byte>, e: seq<byte>, f: seq<byte>, g: seq<byte>,
               h: seq<byte>, i: seq<byte>, j: seq<byte>, more: seq<byte>, all: seq<byte>)
    requires |a| == |f| == |g| == |h| == |i| == 4 && |b| == |c| == |d| == |e| == |j| == 8
    requires all == a + (b + (c + (d + (e + (f + (g + (h + (i + j)))))))) + more
    ensures all[0..4] == a && all[4..12] == b && all[12..20] == c && all[20..28] == d && all[28..36] == e
    ensures all[36..40] == f && all[40..44] == g && all[44..48] == h && all[48..52] == i && all[52..60] == j
  {
  }

  /** Where each field lies, little-endian, times in two's complement. */
  lemma FieldsSpelled(s: Stat)
    ensures var b := Encode(s);
      && LeVal(b[0..4]) == s.mode && LeVal(b[4..12]) == s.size
      && LeVal(b[12..20]) == (if s.mtime < 0 then s.mtime + 0x1_0000_0000_0000_0000 else s.mtime)
      && LeVal(b[20..28]) == (if s.atime < 0 then s.atime + 0x1_0000_0000_0000_0000 else s.atime)
      && LeVal(b[28..36]) == (if s.ctime < 0 then s.ctime + 0x1_0000_0000_0000_0000 else s.ctime)
      && LeVal(b[36..40]) == s.uid && LeVal(b[40..44]) == s.gid && LeVal(b[44..48]) == s.nlink
      && LeVal(b[48..52]) == s.blksize && LeVal(b[52..60]) == s.blocks
  {
    var b := Encode(s);
    assert b == b + [];
    Layout(Le(s.mode, 4), Le(s.size, 8), Le(Unsigned(s.mtime), 8), Le(Unsigned(s.atime), 8), Le(Unsigned(s.ctime), 8),
           Le(s.uid, 4), Le(s.gid, 4), Le(s.nlink, 4), Le(s.blksize, 4), Le(s.blocks, 8), [], b);
    At32(b, 0, s.mode);
    At64(b, 4, s.size);
    At64(b, 12, Unsigned(s.mtime));
    At64(b, 20, Unsigned(s.atime));
    At64(b, 28, Unsigned(s.ctime));
    At32(b, 36, s.uid);
    At32(b, 40, s.gid);
    At32(b, 44, s.nlink);
    At32(b, 48, s.blksize);
    At64(b, 52, s.blocks);
  }

  /** Decoding undoes encoding, negative times included; trailing bytes are ignored. */
  lemma RoundTrip(s: Stat, more: seq<byte>)
    ensures Decode(Encode(s) + more) == Some(s)
  {
    var b := Encode(s) + more;
    Layout(Le(s.mode, 4), Le(s.size, 8), Le(Unsigned(s.mtime), 8), Le(Unsigned(s.atime), 8), Le(Unsigned(s.ctime), 8),
           Le(s.uid, 4), Le(s.gid, 4), Le(s.nlink, 4), Le(s.blksize, 4), Le(s.blocks, 8), more, b);
    At32(b, 0, s.mode);
    At64(b, 4, s.size);
    At64(b, 12, Unsigned(s.mtime));
    At64(b, 20, Unsigned(s.atime));
    At64(b, 28, Unsigned(s.ctime));
    At32(b, 36, s.uid);
    At32(b, 40, s.gid);
    At32(b, 44, s.nlink);
    At32(b, 48, s.blksize);
    At64(b, 52, s.blocks);
  }
}

/** Pages of a directory listing: the codec, the device's page builder and the host's paging loop. */
module DirPages {
  import opened Bytes
  import opened ProxyLimits
  import opened StatCodec
  import Framing

  datatype Entry = Entry(name: seq<byte>, stat: Stat)

  /** What `readdir` yields; `stat` is `None` when `lstat` on the entry fails. */
  datatype Raw = Raw(name: seq<byte>, stat: Option<Stat>)

  datatype PageError = BadCount | BadNameLen | BadPayload | CountMismatch

  datatype Result<+T> = Ok(value: T) | Err(error: PageError)

  // ----- The page codec

  function EncodeEntry(e: Entry): seq<byte> {
    Le(|e.name|, 4) + e.name + Encode(e.stat)
  }

  type EntryEncoder = Entry -> seq<byte>

  /** Entries one after another, each as `one` writes it. */
  function Joined(one: EntryEncoder, es: seq<Entry>): seq<byte> {
    if es == [] then [] else Joined(one, es[..|es| - 1]) + one(es[|es| - 1])
  }

  function EncodeEntries(es: seq<Entry>): seq<byte> {
    Joined(EncodeEntry, es)
  }

  function EncodePage(es: seq<Entry>): seq<byte> {
    Le(|es|, 4) + EncodeEntries(es)
  }

  /** An entry on the wire: the length of its name in four little-endian bytes, the name, its 60-byte stat record. */
  lemma EntrySpelled(e: Entry)
    requires |e.name| < 0x1_0000_0000
    ensures var b, n := EncodeEntry(e), |e.name|;
      b == [n % 256, n / 0x100 % 256, n / 0x1_0000 % 256, n / 0x100_0000] + e.name + Encode(e.stat)
  {
    LeFour(|e.name|);
  }

  /** A page of one entry: the count 1 and the entry; of two, the count 2 and both in order. */
  lemma PageSpelled(e: Entry, f: Entry)
    ensures EncodePage([e]) == [1, 0, 0, 0] + EncodeEntry(e)
    ensures EncodePage([e, f]) == [2, 0, 0, 0] + EncodeEntry(e) + EncodeEntry(f)
  {
    LeFour(1);
    LeFour(2);
    JoinedSnoc(EncodeEntry, [], e);
    JoinedSnoc(EncodeEntry, [e], f);
    assert [] + [e] == [e] && [e] + [f] == [e, f];
    assert Joined(EncodeEntry, []) + EncodeEntry(e) == EncodeEntry(e);
    ConcatAssoc([2, 0, 0, 0], EncodeEntry(e), EncodeEntry(f));
  }

  /** `Stat::decode` as entries are read: every slice handed to it is `STAT_LEN` long, so it does not fail. */
  type StatDecoder = seq<byte> -> Stat

  function ReadStat(b: seq<byte>): Stat {
    match Decode(b)
    case Some(s) => s
    case None => Stat(0, 0, 0, 0, 0, 0, 0, 0, 0, 0)
  }

  /** The entry at the front of a buffer and how many bytes it takes. */
  function FirstEntry(decode: StatDecoder, data: seq<byte>): Result<(Entry, nat)> {
    if |data| < 4 then Err(BadNameLen)
    else
      var n := LeVal(data[..4]);
      if 4 + n + STAT_LEN > |data| then Err(BadPayload)
      else Ok((Entry(data[4..4 + n], decode(data[4 + n..4 + n + STAT_LEN])), 4 + n + STAT_LEN))
  }

  /** Entries one after another until the buffer runs out. */
  function ParseEntries(decode: StatDecoder, data: seq<byte>): Result<seq<Entry>>
    decreases |data|
  {
    if data == [] then Ok([])
    else
      match FirstEntry(decode, data)
      case Err(x) => Err(x)
      case Ok((e, n)) => Prepend([e], ParseEntries(decode, data[n..]))
  }

  ghost function ParsePage(data: seq<byte>): Result<seq<Entry>> {
    if |data| < 4 then Err(BadCount)
    else
      match ParseEntries(ReadStat, data[4..])
      case Ok(es) => if |es| == LeVal(data[..4]) then Ok(es) else Err(CountMismatch)
      case Err(x) => Err(x)
  }

  /** One round of the loop of `parse_dir_entries`, at position `at`. */
  method ParseDirEntry(decode: StatDecoder, data: seq<byte>, at: nat) returns (r: Result<(Entry, nat)>)
    requires at < |data|
    ensures r.Err? ==> ParseEntries(decode, data[at..]) == Err(r.error)
    ensures r.Ok? ==> at < at + r.value.1 <= |data|
    ensures r.Ok? ==>
      ParseEntries(decode, data[at..]) == Prepend([r.value.0], ParseEntries(decode, data[at + r.value.1..]))
  {
    var i := at;
    if i + 4 > |data| {
      return Err(BadNameLen);
    }
    assert data[at..][..4] == data[at..at + 4];
    var nameLen := LeVal(data[i..i + 4]);
    i := i + 4;
    if i + nameLen + STAT_LEN > |data| {
      return Err(BadPayload);
    }
    var name := data[i..i + nameLen];
    assert name == data[at..][4..4 + nameLen];
    i := i + nameLen;
    assert data[i..i + STAT_LEN] == data[at..][4 + nameLen..4 + nameLen + STAT_LEN];
    var stat := decode(data[i..i + STAT_LEN]);
    i := i + STAT_LEN;
    assert data[at..][i - at..] == data[i..];
    return Ok((Entry(name, stat), i - at));
  }

  /** `parse_dir_entries`. */
  method ParseDirEntries(decode: StatDecoder, data: seq<byte>, expected: nat) returns (r: Result<seq<Entry>>)
    ensures r == match ParseEntries(decode, data)
                 case Ok(es) => if |es| == expected then Ok(es) else Err(CountMismatch)
                 case Err(x) => Err(x)
  {
    var entries: seq<Entry>, i := [], 0;
    assert data[0..] == data;
    PrependNone(ParseEntries(decode, data));
    ghost var total := ParseEntries(decode, data);
    while i < |data|
      invariant 0 <= i <= |data|
      invariant total == Prepend(entries, ParseEntries(decode, data[i..]))
    {
      var one := ParseDirEntry(decode, data, i);
      if one.Err? {
        return Err(one.error);
      }
      var (e, n) := one.value;
      PrependOne(entries, e, ParseEntries(decode, data[i + n..]));
      entries, i := entries + [e], i + n;
    }
    assert data[i..] == [] && entries + [] == entries;
    if |entries| != expected {
      return Err(CountMismatch);
    }
    return Ok(entries);
  }

  function Prepend(es: seq<Entry>, r: Result<seq<Entry>>): Result<seq<Entry>> {
    match r case Ok(more) => Ok(es + more) case Err(x) => Err(x)
  }

  lemma PrependNone(r: Result<seq<Entry>>)
    ensures Prepend([], r) == r
  {
    if r.Ok? {
      assert [] + r.value == r.value;
    }
  }

  lemma PrependOne(es: seq<Entry>, e: Entry, r: Result<seq<Entry>>)
    ensures Prepend(es, Prepend([e], r)) == Prepend(es + [e], r)
  {
    if r.Ok? {
      assert es + ([e] + r.value) == (es + [e]) + r.value;
    }
  }

  method ParseDirPage(data: seq<byte>) returns (r: Result<seq<Entry>>)
    ensures r == ParsePage(data)
  {
    if |data| < 4 {
      return Err(BadCount);
    }
    r := ParseDirEntries(ReadStat, data[4..], LeVal(data[..4]));
  }

  ghost predicate Sendable(es: seq<Entry>) {
    |es| < 0x1_0000_0000 && forall i :: 0 <= i < |es| ==> |es[i].name| < 0x1_0000_0000
  }

  lemma ParseFront(decode: StatDecoder, name: seq<byte>, st: seq<byte>, more: seq<byte>)
    requires |name| < 0x1_0000_0000 && |st| == STAT_LEN
    ensures ParseEntries(decode, Le(|name|, 4) + name + st + more) ==
            Prepend([Entry(name, decode(st))], ParseEntries(decode, more))
  {
    var data, n := Le(|name|, 4) + name + st + more, |name|;
    assert data[..4] == Le(n, 4) && data[4..4 + n] == name;
    assert data[4 + n..4 + n + STAT_LEN] == st && data[4 + n + STAT_LEN..] == more;
    U32Le(n);
  }

  /** An entry in front of any bytes is read back, and the bytes after it are read on. */
  lemma ParseOne(e: Entry, more: seq<byte>)
    requires |e.name| < 0x1_0000_0000
    ensures ParseEntries(ReadStat, EncodeEntry(e) + more) == Prepend([e], ParseEntries(ReadStat, more))
  {
    ParseFront(ReadStat, e.name, Encode(e.stat), more);
    RoundTrip(e.stat, []);
    assert Encode(e.stat) + [] == Encode(e.stat);
  }

  lemma {:induction false} JoinedCons(one: EntryEncoder, e: Entry, es: seq<Entry>)
    ensures Joined(one, [e] + es) == one(e) + Joined(one, es)
  {
    if es == [] {
      assert [e] + es == [e] && [e][..0] == [];
      assert Joined(one, [e]) == Joined(one, []) + one(e);
    } else {
      var n := |es| - 1;
      JoinedCons(one, e, es[..n]);
      assert ([e] + es)[..n + 1] == [e] + es[..n] && ([e] + es)[n + 1] == es[n];
      ConcatAssoc(one(e), Joined(one, es[..n]), one(es[n]));
    }
  }

  lemma {:induction false} EntriesRoundTrip(es: seq<Entry>)
    requires Sendable(es)
    ensures ParseEntries(ReadStat, EncodeEntries(es)) == Ok(es)
  {
    if es != [] {
      EntriesRoundTrip(es[1..]);
      assert es == [es[0]] + es[1..];
      JoinedCons(EncodeEntry, es[0], es[1..]);
      ParseOne(es[0], EncodeEntries(es[1..]));
    }
  }

  /** Each page parses back to what was written. */
  lemma PageRoundTrip(es: seq<Entry>)
    requires Sendable(es)
    ensures ParsePage(EncodePage(es)) == Ok(es)
  {
    var data := EncodePage(es);
    assert data[..4] == Le(|es|, 4) && data[4..] == EncodeEntries(es);
    U32Le(|es|);
    EntriesRoundTrip(es);
  }

  /** A page whose count is not the number of its entries is refused. */
  lemma WrongCountRefused(es: seq<Entry>, count: u32)
    requires Sendable(es) && count != |es|
    ensures ParsePage(Le(count, 4) + EncodeEntries(es)) == Err(CountMismatch)
  {
    var data := Le(count, 4) + EncodeEntries(es);
    assert data[..4] == Le(count, 4) && data[4..] == EncodeEntries(es);
    U32Le(count);
    EntriesRoundTrip(es);
  }

  /** A cut-off run of entries is an error or holds fewer entries. */
  lemma {:induction false} CutEntries(es: seq<Entry>, n: nat)
    requires Sendable(es) && n < |EncodeEntries(es)|
    ensures Fewer(ParseEntries(ReadStat, EncodeEntries(es)[..n]), |es|)
  {
    JoinedCons(EncodeEntry, es[0], es[1..]);
    assert es == [es[0]] + es[1..];
    var first, rest := EncodeEntry(es[0]), EncodeEntries(es[1..]);
    if n >= |first| {
      CutEntries(es[1..], n - |first|);
    }
    CutStep(es[0], first, rest, n, |es| - 1);
  }

  lemma CutStep(e: Entry, first: seq<byte>, rest: seq<byte>, n: nat, more: nat)
    requires first == EncodeEntry(e) && |e.name| < 0x1_0000_0000 && n < |first + rest|
    requires n >= |first| ==> Fewer(ParseEntries(ReadStat, rest[..n - |first|]), more)
    ensures Fewer(ParseEntries(ReadStat, (first + rest)[..n]), more + 1)
  {
    PrefixOfConcat(first, rest, n);
    if n < |first| {
      CutEntry(e, n);
    } else {
      ParseOne(e, rest[..n - |first|]);
    }
  }

  ghost predicate Fewer(r: Result<seq<Entry>>, n: nat) {
    r.Err? || |r.value| < n
  }

  lemma PrefixOfConcat(a: seq<byte>, b: seq<byte>, n: nat)
    requires n <= |a + b|
    ensures (a + b)[..n] == if n < |a| then a[..n] else a + b[..n - |a|]
  {
  }

  lemma CutEntry(e: Entry, n: nat)
    requires |e.name| < 0x1_0000_0000 && n < |EncodeEntry(e)|
    ensures Fewer(ParseEntries(ReadStat, EncodeEntry(e)[..n]), 1)
  {
    var data := EncodeEntry(e)[..n];
    if n >= 4 {
      assert data[..4] == Le(|e.name|, 4);
      U32Le(|e.name|);
    }
  }

  /** Every proper prefix of a page is refused. */
  lemma CutPageRefused(es: seq<Entry>, n: nat)
    requires Sendable(es) && n < |EncodePage(es)|
    ensures ParsePage(EncodePage(es)[..n]).Err?
  {
    if n >= 4 {
      var data := EncodePage(es)[..n];
      assert data[..4] == Le(|es|, 4) && data[4..] == EncodeEntries(es)[..n - 4];
      U32Le(|es|);
      CutEntries(es, n - 4);
    }
  }

  lemma {:induction false} EntriesSize(es: seq<Entry>, longest: nat)
    requires forall i :: 0 <= i < |es| ==> |es[i].name| <= longest
    ensures |EncodeEntries(es)| <= |es| * (longest + 64)
  {
    if es != [] {
      EntriesSize(es[..|es| - 1], longest);
      assert |es| * (longest + 64) == (|es| - 1) * (longest + 64) + (longest + 64);
    }
  }

  /** A full page of names as long as a file system allows, status byte included, is within the host's frame cap. */
  lemma FullPageFits(es: seq<Entry>)
    requires |es| <= LISTDIR_PAGE && forall i :: 0 <= i < |es| ==> |es[i].name| <= 255
    ensures |[0] + EncodePage(es)| <= MAX_RESPONSE_FRAME
  {
    EntriesSize(es, 255);
    assert |es| * 319 <= LISTDIR_PAGE * 319;
  }

  // ----- One page, on the device

  const DOT: seq<byte> := [46]
  const DOT_DOT: seq<byte> := [46, 46]

  /** The directory as the device counts it: everything `readdir` yields but "." and "..". */
  function NoDots(raw: seq<Raw>): seq<Raw> {
    if raw == [] then []
    else
      var n := |raw| - 1;
      NoDots(raw[..n]) + (if raw[n].name == DOT || raw[n].name == DOT_DOT then [] else [raw[n]])
  }

  /** Of a single entry it leaves everything but "." and "..". */
  lemma NoDotsOne(r: Raw)
    ensures NoDots([r]) == if r.name == [46] || r.name == [46, 46] then [] else [r]
  {
    assert [r][..0] == [];
  }

  /** And of many, what it leaves of each, in order. */
  lemma {:induction false} NoDotsConcat(a: seq<Raw>, b: seq<Raw>)
    ensures NoDots(a + b) == NoDots(a) + NoDots(b)
  {
    if b == [] {
      assert a + b == a && NoDots(a) + [] == NoDots(a);
    } else {
      var n := |b| - 1;
      var front, last := b[..n], NoDots([b[n]]);
      NoDotsConcat(a, front);
      NoDotsOne(b[n]);
      assert (a + b)[..|a| + n] == a + front && (a + b)[|a| + n] == b[n];
      assert NoDots(b) == NoDots(front) + last && NoDots(a + b) == NoDots(a + front) + last;
      ConcatAssoc(NoDots(a), NoDots(front), last);
    }
  }

  /** The entries whose `lstat` succeeds, in order. */
  function Statable(es: seq<Raw>): seq<Entry> {
    if es == [] then []
    else
      var n := |es| - 1;
      Statable(es[..n]) + (if es[n].stat.None? then [] else [Entry(es[n].name, es[n].stat.value)])
  }

  /** The page for `offset`: the first `max` stat-able entries after skipping `offset` entries of any kind. */
  function Page(es: seq<Raw>, offset: nat, max: nat): seq<Entry> {
    var tail := Statable(if offset <= |es| then es[offset..] else []);
    if |tail| <= max then tail else tail[..max]
  }

  /** After `i` of the entries: `seen` counts them without the dots, `page` holds what was emitted. */
  ghost predicate Walked(raw: seq<Raw>, i: nat, offset: nat, seen: nat, page: seq<Entry>) {
    && i <= |raw| && seen == |NoDots(raw[..i])|
    && page == (if offset <= seen then Statable(NoDots(raw[..i])[offset..]) else [])
  }

  lemma WalkOne(raw: seq<Raw>, i: nat, offset: nat, seen: nat, page: seq<Entry>)
    requires i < |raw| && Walked(raw, i, offset, seen, page)
    ensures var ent := raw[i];
      if ent.name == DOT || ent.name == DOT_DOT then Walked(raw, i + 1, offset, seen, page)
      else if seen + 1 <= offset || ent.stat.None? then Walked(raw, i + 1, offset, seen + 1, page)
      else Walked(raw, i + 1, offset, seen + 1, page + [Entry(ent.name, ent.stat.value)])
  {
    var ent, before := raw[i], NoDots(raw[..i]);
    assert raw[..i + 1][..i] == raw[..i];
    if ent.name == DOT || ent.name == DOT_DOT {
      assert NoDots(raw[..i + 1]) == before;
    } else {
      assert NoDots(raw[..i + 1]) == before + [ent];
      if seen + 1 == offset {
        assert (before + [ent])[offset..] == [];
      } else if seen >= offset {
        StatableSnoc(before, ent, offset);
      }
    }
  }

  lemma NotWalked(raw: seq<Raw>, offset: nat)
    ensures Walked(raw, 0, offset, 0, [])
  {
    assert raw[..0] == [];
  }

  lemma WalkedAll(raw: seq<Raw>, offset: nat, seen: nat, page: seq<Entry>, max: nat)
    requires Walked(raw, |raw|, offset, seen, page) && |page| < max
    ensures page == Page(NoDots(raw), offset, max)
  {
    assert raw[..|raw|] == raw;
  }

  lemma JoinedSnoc(one: EntryEncoder, es: seq<Entry>, e: Entry)
    ensures Joined(one, es + [e]) == Joined(one, es) + one(e)
  {
    assert (es + [e])[..|es|] == es;
  }

  /** `do_listdir` on the entries `raw`, and the count it puts in front. */
  method DoListdir(raw: seq<Raw>, offset: nat, max: nat) returns (out: seq<byte>)
    requires max >= 1
    ensures out == EncodePage(Page(NoDots(raw), offset, max))
  {
    var emitted, body := ListEntries(raw, offset, max, EncodeEntry);
    out := Le(emitted, 4) + body;
  }

  /** The loop of `do_listdir`. */
  method ListEntries(raw: seq<Raw>, offset: nat, max: nat, one: EntryEncoder) returns (emitted: nat, body: seq<byte>)
    requires max >= 1
    ensures var page := Page(NoDots(raw), offset, max); emitted == |page| && body == Joined(one, page)
  {
    var seen, i := 0, 0;
    emitted, body := 0, [];
    ghost var page: seq<Entry> := [];
    NotWalked(raw, offset);
    while i < |raw|
      invariant Walked(raw, i, offset, seen, page)
      invariant emitted == |page| < max && body == Joined(one, page)
    {
      seen, emitted, body, page := ListOne(raw, i, offset, one, seen, emitted, body, page);
      i := i + 1;
      if emitted >= max {
        PageIsFull(raw, i, offset, seen, max, page);
        return;
      }
    }
    WalkedAll(raw, offset, seen, page, max);
  }

  /** One round of that loop. */
  method ListOne(raw: seq<Raw>, i: nat, offset: nat, one: EntryEncoder, seen0: nat, emitted0: nat, body0: seq<byte>,
                 ghost page0: seq<Entry>)
    returns (seen: nat, emitted: nat, body: seq<byte>, ghost page: seq<Entry>)
    requires i < |raw| && Walked(raw, i, offset, seen0, page0) && emitted0 == |page0| && body0 == Joined(one, page0)
    ensures Walked(raw, i + 1, offset, seen, page) && emitted == |page| && body == Joined(one, page)
    ensures emitted == emitted0 || (emitted == emitted0 + 1 && offset < seen)
  {
    seen, emitted, body, page := seen0, emitted0, body0, page0;
    var ent := raw[i];
    WalkOne(raw, i, offset, seen, page);
    if ent.name == DOT || ent.name == DOT_DOT {
      return;
    }
    seen := seen + 1;
    if seen <= offset {
      return;
    }
    if ent.stat.None? {
      return;
    }
    var e := Entry(ent.name, ent.stat.value);
    JoinedSnoc(one, page, e);
    body := body + one(e);
    emitted := emitted + 1;
    page := page + [e];
  }

  lemma StatableSnoc(es: seq<Raw>, r: Raw, offset: nat)
    requires offset <= |es|
    ensures Statable((es + [r])[offset..]) ==
            Statable(es[offset..]) + (if r.stat.None? then [] else [Entry(r.name, r.stat.value)])
  {
    var s := (es + [r])[offset..];
    assert s == es[offset..] + [r] && s[..|s| - 1] == es[offset..];
  }

  lemma {:induction false} StatableConcat(a: seq<Raw>, b: seq<Raw>)
    ensures Statable(a + b) == Statable(a) + Statable(b)
  {
    if b == [] {
      assert a + b == a;
    } else {
      var n := |b| - 1;
      StatableConcat(a, b[..n]);
      assert (a + b)[..|a| + n] == a + b[..n];
      var last := if b[n].stat.None? then [] else [Entry(b[n].name, b[n].stat.value)];
      assert Statable(a + b) == Statable(a + b[..n]) + last && Statable(b) == Statable(b[..n]) + last;
      ConcatAssoc(Statable(a), Statable(b[..n]), last);
    }
  }

  lemma {:induction false} NoDotsPrefix(raw: seq<Raw>, i: nat)
    requires i <= |raw|
    ensures NoDots(raw[..i]) <= NoDots(raw)
  {
    if i == |raw| {
      assert raw[..i] == raw;
    } else {
      NoDotsPrefix(raw[..|raw| - 1], i);
      assert raw[..|raw| - 1][..i] == raw[..i];
    }
  }

  lemma PageIsFull(raw: seq<Raw>, i: nat, offset: nat, seen: nat, max: nat, page: seq<Entry>)
    requires Walked(raw, i, offset, seen, page) && offset <= seen && |page| == max
    ensures page == Page(NoDots(raw), offset, max)
  {
    NoDotsPrefix(raw, i);
    PrefixPage(NoDots(raw[..i]), NoDots(raw), offset, page);
  }

  lemma PrefixPage(a: seq<Raw>, all: seq<Raw>, offset: nat, page: seq<Entry>)
    requires a <= all && offset <= |a| && page == Statable(a[offset..])
    ensures page == Page(all, offset, |page|)
  {
    assert all[offset..] == a[offset..] + all[|a|..];
    StatableConcat(a[offset..], all[|a|..]);
  }

  // ----- All pages, on the host

  /** The pages at offsets `offset`, `offset + LISTDIR_PAGE`, ..., up to and including the first short one. */
  function Pages(es: seq<Raw>, offset: nat): seq<Entry>
    decreases |es| - offset
  {
    var page := Page(es, offset, LISTDIR_PAGE);
    if |page| < LISTDIR_PAGE || |es| < offset then page else page + Pages(es, offset + LISTDIR_PAGE)
  }

  /** The stat-able entries are the ones that carry a stat. */
  lemma {:induction false} StatableFrom(es: seq<Raw>, e: Entry)
    ensures e in Statable(es) <==> Raw(e.name, Some(e.stat)) in es
  {
    if es != [] {
      var less, r := es[..|es| - 1], es[|es| - 1];
      StatableFrom(less, e);
      assert es == less + [r];
    }
  }

  lemma {:induction false} AllStatable(es: seq<Raw>)
    requires forall i :: 0 <= i < |es| ==> es[i].stat.Some?
    ensures |Statable(es)| == |es|
    ensures forall i :: 0 <= i < |es| ==> Statable(es)[i].name == es[i].name
  {
    if es != [] {
      AllStatable(es[..|es| - 1]);
    }
  }

  lemma {:induction false} StatableLength(es: seq<Raw>)
    ensures |Statable(es)| <= |es|
    ensures |Statable(es)| == |es| <==> forall i :: 0 <= i < |es| ==> es[i].stat.Some?
  {
    if es != [] {
      StatableLength(es[..|es| - 1]);
    }
  }

  lemma FullPageIsInside(es: seq<Raw>, offset: nat)
    requires |Page(es, offset, LISTDIR_PAGE)| >= LISTDIR_PAGE
    ensures offset + LISTDIR_PAGE <= |es|
  {
    if offset <= |es| {
      StatableLength(es[offset..]);
    }
  }

  /** `listdir_page` against a directory with the entries `raw`. */
  method ListdirPage(raw: seq<Raw>, offset: nat) returns (page: Result<seq<Entry>>)
    requires |raw| < 0x1_0000_0000 && forall i :: 0 <= i < |raw| ==> |raw[i].name| < 0x1_0000_0000
    ensures page == Ok(Page(NoDots(raw), offset, LISTDIR_PAGE))
  {
    var resp := DoListdir(raw, offset, LISTDIR_PAGE);
    NoDotsNames(raw, 0xFFFF_FFFF);
    PageNames(NoDots(raw), offset, 0xFFFF_FFFF);
    PageRoundTrip(Page(NoDots(raw), offset, LISTDIR_PAGE));
    page := ParseDirPage(resp);
  }

  /** `listdir`: fetch pages until one is short. */
  method Listdir(raw: seq<Raw>) returns (r: Result<seq<Entry>>)
    requires |raw| < 0x1_0000_0000 && forall i :: 0 <= i < |raw| ==> |raw[i].name| < 0x1_0000_0000
    ensures r == Ok(Pages(NoDots(raw), 0))
  {
    ghost var es := NoDots(raw);
    var all: seq<Entry>, offset := [], 0;
    assert [] + Pages(es, 0) == Pages(es, 0);
    while true
      invariant all + Pages(es, offset) == Pages(es, 0)
      decreases |es| - offset
    {
      var page := ListdirPage(raw, offset);
      if page.Err? {
        return page;
      }
      var got := |page.value|;
      if got < LISTDIR_PAGE {
        return Ok(all + page.value);
      }
      FullPageIsInside(es, offset);
      ConcatAssoc(all, page.value, Pages(es, offset + LISTDIR_PAGE));
      all := all + page.value;
      offset := offset + got;
    }
  }

  lemma {:induction false} NoDotsNames(raw: seq<Raw>, longest: nat)
    requires forall i :: 0 <= i < |raw| ==> |raw[i].name| <= longest
    ensures |NoDots(raw)| <= |raw| && forall i :: 0 <= i < |NoDots(raw)| ==> |NoDots(raw)[i].name| <= longest
  {
    if raw != [] {
      NoDotsNames(raw[..|raw| - 1], longest);
    }
  }

  lemma {:induction false} StatableNames(es: seq<Raw>, longest: nat)
    requires forall i :: 0 <= i < |es| ==> |es[i].name| <= longest
    ensures forall i :: 0 <= i < |Statable(es)| ==> |Statable(es)[i].name| <= longest
  {
    if es != [] {
      StatableNames(es[..|es| - 1], longest);
    }
  }

  lemma PageNames(es: seq<Raw>, offset: nat, longest: nat)
    requires forall i :: 0 <= i < |es| ==> |es[i].name| <= longest
    ensures var page := Page(es, offset, LISTDIR_PAGE);
      |page| <= LISTDIR_PAGE && forall i :: 0 <= i < |page| ==> |page[i].name| <= longest
  {
    if offset <= |es| {
      StatableNames(es[offset..], longest);
    }
  }

  /** The reply to the page request the host makes, for any directory of ordinary names, gets through its frame cap. */
  lemma ListdirReplyFits(raw: seq<Raw>, offset: nat)
    requires forall i :: 0 <= i < |raw| ==> |raw[i].name| <= 255
    ensures var reply := [0] + EncodePage(Page(NoDots(raw), offset, LISTDIR_PAGE));
      Framing.Parse(Framing.REPLY, Framing.Framed(reply)) == Framing.Parsed([Framing.Frame([], reply)], Framing.Eof)
  {
    NoDotsNames(raw, 255);
    PageNames(NoDots(raw), offset, 255);
    FullPageFits(Page(NoDots(raw), offset, LISTDIR_PAGE));
    Framing.HostAcceptsIff([0] + EncodePage(Page(NoDots(raw), offset, LISTDIR_PAGE)));
  }

  // ----- What paging delivers

  /** A full page holds everything stat-able among the next `LISTDIR_PAGE` entries, and possibly more. */
  lemma FullPageCoversItsWindow(es: seq<Raw>, offset: nat)
    requires |Page(es, offset, LISTDIR_PAGE)| == LISTDIR_PAGE
    ensures offset + LISTDIR_PAGE <= |es|
    ensures Statable(es[offset..offset + LISTDIR_PAGE]) <= Page(es, offset, LISTDIR_PAGE)
    ensures Statable(es[offset..]) ==
            Statable(es[offset..offset + LISTDIR_PAGE]) + Statable(es[offset + LISTDIR_PAGE..])
  {
    FullPageIsInside(es, offset);
    var w, rest := es[offset..offset + LISTDIR_PAGE], es[offset + LISTDIR_PAGE..];
    assert es[offset..] == w + rest;
    StatableConcat(w, rest);
    StatableLength(w);
  }

  /** No stat-able entry is lost, whatever fails, and nothing is invented. */
  lemma {:induction false} AtLeastOnce(es: seq<Raw>, offset: nat, e: Entry)
    requires offset <= |es|
    ensures e in Pages(es, offset) <==> e in Statable(es[offset..])
    decreases |es| - offset
  {
    var page := Page(es, offset, LISTDIR_PAGE);
    if |page| == LISTDIR_PAGE {
      FullPageCoversItsWindow(es, offset);
      AtLeastOnce(es, offset + LISTDIR_PAGE, e);
    }
  }

  /** Every failing entry from `offset` on lies in a window with fewer than a page of stat-able entries ahead. */
  ghost predicate FailuresOnLastPage(es: seq<Raw>, offset: nat)
    requires offset <= |es|
    decreases |es| - offset
  {
    |Statable(es[offset..])| < LISTDIR_PAGE ||
    (&& offset + LISTDIR_PAGE <= |es|
     && (forall i :: offset <= i < offset + LISTDIR_PAGE ==> es[i].stat.Some?)
     && FailuresOnLastPage(es, offset + LISTDIR_PAGE))
  }

  /** `page` then `more` is `window + rest` exactly when `page` is `window` and `more` is `rest`. */
  lemma Pieces<T>(page: seq<T>, more: seq<T>, window: seq<T>, rest: seq<T>)
    requires window <= page && |more| >= |rest|
    ensures |page + more| >= |window + rest|
    ensures page + more == window + rest <==> |window| == |page| && more == rest
  {
    if page + more == window + rest {
      assert |window| == |page|;
      assert (page + more)[|page|..] == more && (window + rest)[|window|..] == rest;
    } else if |window| == |page| {
      assert window == page;
    }
  }

  /** The listing is each stat-able entry once, in order, exactly when `lstat` fails in no full page's window. */
  lemma {:induction false} ExactlyOnceIff(es: seq<Raw>, offset: nat)
    requires offset <= |es|
    ensures |Pages(es, offset)| >= |Statable(es[offset..])|
    ensures Pages(es, offset) == Statable(es[offset..]) <==> FailuresOnLastPage(es, offset)
    decreases |es| - offset
  {
    var page := Page(es, offset, LISTDIR_PAGE);
    if |page| == LISTDIR_PAGE {
      FullPageCoversItsWindow(es, offset);
      var next := offset + LISTDIR_PAGE;
      ExactlyOnceIff(es, next);
      WindowAllStatable(es, offset);
      Pieces(page, Pages(es, next), Statable(es[offset..next]), Statable(es[next..]));
    }
  }

  lemma WindowAllStatable(es: seq<Raw>, offset: nat)
    requires offset + LISTDIR_PAGE <= |es|
    ensures |Statable(es[offset..offset + LISTDIR_PAGE])| == LISTDIR_PAGE <==>
            forall i :: offset <= i < offset + LISTDIR_PAGE ==> es[i].stat.Some?
  {
    var w := es[offset..offset + LISTDIR_PAGE];
    StatableLength(w);
    assert forall i :: offset <= i < offset + LISTDIR_PAGE ==> es[i] == w[i - offset];
  }

  /** In particular, when no `lstat` fails. */
  lemma {:induction false} NoFailureExactlyOnce(es: seq<Raw>, offset: nat)
    requires offset <= |es| && forall i :: 0 <= i < |es| ==> es[i].stat.Some?
    ensures FailuresOnLastPage(es, offset)
    decreases |es| - offset
  {
    StatableLength(es[offset..]);
    if |Statable(es[offset..])| >= LISTDIR_PAGE {
      NoFailureExactlyOnce(es, offset + LISTDIR_PAGE);
    }
  }

  /**
    Entries do come twice: one failing `lstat` in the first page's window of a directory one entry longer than a page
    makes the last entry end the first page and make up the second.
  */
  lemma LastEntryTwice(es: seq<Raw>)
    requires |es| == LISTDIR_PAGE + 1 && es[0].stat.None? && forall i :: 1 <= i < |es| ==> es[i].stat.Some?
    ensures var last := Entry(es[LISTDIR_PAGE].name, es[LISTDIR_PAGE].stat.value);
      && Pages(es, 0) == Statable(es) + [last]
      && Statable(es) != [] && Statable(es)[|Statable(es)| - 1] == last
  {
    var tail, r := es[1..], es[LISTDIR_PAGE];
    assert es == [es[0]] + tail && [es[0]][..0] == [] && [r][..0] == [];
    StatableConcat([es[0]], tail);
    assert Statable([es[0]]) == [] && [] + Statable(tail) == Statable(tail);
    StatableLength(tail);
    assert es[0..] == es && es[LISTDIR_PAGE..] == [r];
    assert Statable([r]) == [Entry(r.name, r.stat.value)];
    assert Pages(es, LISTDIR_PAGE) == Statable([r]);
  }
}
