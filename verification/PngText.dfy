/** Thumbnail metadata: `tEXt` chunks spliced into a PNG, and read back out of one. */
module PngText {
  import opened Bytes

  const SIGNATURE: seq<byte> := [0x89, 0x50, 0x4E, 0x47, 0x0D, 0x0A, 0x1A, 0x0A]
  const IDAT: seq<byte> := [0x49, 0x44, 0x41, 0x54]
  const TEXT: seq<byte> := [0x74, 0x45, 0x58, 0x74]

  /** Section 3.2 of RFC 2083: a length, a type, that many bytes of data, and a CRC. */
  datatype Chunk = Chunk(kind: seq<byte>, data: seq<byte>, crc: seq<byte>)

  ghost predicate WellFormed(cs: seq<Chunk>) {
    forall i :: 0 <= i < |cs| ==> |cs[i].kind| == 4 && |cs[i].crc| == 4 && |cs[i].data| < 0x1_0000_0000
  }

  /** `u32::from_be_bytes` of the four bytes at `at`. */
  function U32At(b: seq<byte>, at: nat): nat
    requires at + 4 <= |b|
  {
    0x100_0000 * (b[at] as int) + 0x1_0000 * (b[at + 1] as int) + 0x100 * (b[at + 2] as int) + b[at + 3] as int
  }

  lemma U32AtBe(n: nat)
    requires n < 0x1_0000_0000
    ensures U32At(Be(n, 4), 0) == n
  {
    Pow256Widths();
    BeRoundTrip(n, 4);
    BeValFour(Be(n, 4));
  }

  lemma BeAtU32(b: seq<byte>)
    requires |b| == 4
    ensures U32At(b, 0) < 0x1_0000_0000
    ensures Be(U32At(b, 0), 4) == b
  {
    Pow256Widths();
    BeUnique(b);
    BeValFour(b);
  }

  lemma BeValFour(b: seq<byte>)
    requires |b| == 4
    ensures BeVal(b) == U32At(b, 0)
  {
    var three, two, one := b[..3], b[..3][..2], b[..3][..2][..1];
    assert one == [b[0]] && BeVal(one[..0]) == 0;
    assert BeVal(two) == 0x100 * (b[0] as int) + b[1] as int;
    assert BeVal(three) == 0x100 * BeVal(two) + b[2];
  }

  function EncodeChunk(c: Chunk): seq<byte> {
    Be(|c.data|, 4) + c.kind + c.data + c.crc
  }

  function Encode(cs: seq<Chunk>): seq<byte> {
    if cs == [] then [] else EncodeChunk(cs[0]) + Encode(cs[1..])
  }

  lemma {:induction false} EncodeConcat(a: seq<Chunk>, b: seq<Chunk>)
    ensures Encode(a + b) == Encode(a) + Encode(b)
  {
    if a == [] {
      assert a + b == b && [] + Encode(b) == Encode(b);
    } else {
      assert (a + b)[1..] == a[1..] + b;
      EncodeConcat(a[1..], b);
      ConcatAssoc(EncodeChunk(a[0]), Encode(a[1..]), Encode(b));
    }
  }

  lemma EncodeSnoc(cs: seq<Chunk>, c: Chunk)
    ensures Encode(cs + [c]) == Encode(cs) + EncodeChunk(c)
  {
    EncodeConcat(cs, [c]);
    assert Encode([c]) == EncodeChunk(c) + [];
    assert EncodeChunk(c) + [] == EncodeChunk(c);
  }

  // ----- The chunk structure of arbitrary bytes

  /** Where the header search stops: the image data, or a chunk that runs past the end. */
  ghost predicate Stops(b: seq<byte>) {
    |b| >= 8 && (b[4..8] == IDAT || 12 + U32At(b, 0) > |b|)
  }

  /** The chunk at the front of `b`; its CRC is whatever is left of it. */
  function FirstChunk(b: seq<byte>): Chunk
    requires |b| >= 8 && 8 + U32At(b, 0) <= |b|
  {
    var n := U32At(b, 0);
    Chunk(b[4..8], b[8..8 + n], if 12 + n <= |b| then b[8 + n..12 + n] else b[8 + n..])
  }

  datatype Parts = Parts(before: seq<Chunk>, rest: seq<byte>)

  /** The whole chunks before the image data, and the bytes from there on. */
  ghost function Header(b: seq<byte>): Parts {
    if |b| < 8 || Stops(b) then Parts([], b)
    else
      var p := Header(b[12 + U32At(b, 0)..]);
      Parts([FirstChunk(b)] + p.before, p.rest)
  }

  /** A chunk encoded at the front of some bytes is the first chunk of those bytes, and the rest follows it. */
  lemma FrontChunk(c: Chunk, tail: seq<byte>)
    requires WellFormed([c])
    ensures var b := EncodeChunk(c) + tail;
      && |b| == 12 + |c.data| + |tail|
      && U32At(b, 0) == |c.data| && b[4..8] == c.kind
      && FirstChunk(b) == c && b[12 + |c.data|..] == tail
  {
    assert [c][0] == c;
    var b, n := EncodeChunk(c) + tail, |c.data|;
    U32AtBe(n);
    assert b[..4] == Be(n, 4);
    assert U32At(b, 0) == U32At(b[..4], 0);
    assert b[4..8] == c.kind;
    assert b[8..8 + n] == c.data;
    assert b[8 + n..12 + n] == c.crc;
  }

  /** Encoding the first chunk again gives the bytes it was read from. */
  lemma ChunkSpells(b: seq<byte>)
    requires |b| >= 8 && 12 + U32At(b, 0) <= |b|
    ensures WellFormed([FirstChunk(b)])
    ensures b == EncodeChunk(FirstChunk(b)) + b[12 + U32At(b, 0)..]
  {
    var n := U32At(b, 0);
    BeAtU32(b[..4]);
    assert U32At(b, 0) == U32At(b[..4], 0);
    assert b == b[..4] + b[4..8] + b[8..8 + n] + b[8 + n..12 + n] + b[12 + n..];
  }

  lemma HeaderOne(c: Chunk, tail: seq<byte>, b: seq<byte>)
    requires Starts(b, c, tail)
    ensures Header(b) == Parts([c] + Header(tail).before, Header(tail).rest)
  {
    FrontChunk(c, tail);
  }

  /** A chunk at the front that the search passes over. */
  lemma Split(b: seq<byte>) returns (c: Chunk, tail: seq<byte>)
    requires |b| >= 8 && !Stops(b)
    ensures Starts(b, c, tail)
    ensures |EncodeChunk(c)| == 12 + U32At(b, 0)
  {
    ChunkSpells(b);
    c, tail := FirstChunk(b), b[12 + U32At(b, 0)..];
  }

  /** Whole chunks that are not image data, then image data, a truncated chunk, or fewer than eight bytes. */
  ghost predicate Divides(h: Parts) {
    && WellFormed(h.before) && (forall i :: 0 <= i < |h.before| ==> h.before[i].kind != IDAT)
    && (|h.rest| < 8 || Stops(h.rest))
  }

  /** Every file divides so, `Header` finds how, and there is no other way. */
  lemma {:induction false} HeaderSpells(b: seq<byte>)
    ensures Divides(Header(b)) && b == Encode(Header(b).before) + Header(b).rest
    decreases |b|
  {
    if |b| < 8 || Stops(b) {
      assert [] + b == b;
    } else {
      var c, tail := Split(b);
      HeaderOne(c, tail, b);
      HeaderSpells(tail);
      EncodeCons(c, Header(tail).before, Header(tail).rest);
      DividesCons(c, Header(tail));
    }
  }

  lemma EncodeCons(c: Chunk, cs: seq<Chunk>, rest: seq<byte>)
    ensures Encode([c] + cs) + rest == EncodeChunk(c) + (Encode(cs) + rest)
  {
    assert ([c] + cs)[1..] == cs;
    ConcatAssoc(EncodeChunk(c), Encode(cs), rest);
  }

  lemma DividesCons(c: Chunk, h: Parts)
    requires WellFormed([c]) && c.kind != IDAT && Divides(h)
    ensures Divides(Parts([c] + h.before, h.rest))
  {
    assert [c][0] == c;
  }

  lemma {:induction false} HeaderUnique(h: Parts)
    requires Divides(h)
    ensures Header(Encode(h.before) + h.rest) == h
    decreases |h.before|
  {
    if h.before == [] {
      assert [] + h.rest == h.rest;
    } else {
      var c, cs := h.before[0], h.before[1..];
      assert h.before == [c] + cs;
      HeaderUnique(Parts(cs, h.rest));
      EncodeCons(c, cs, h.rest);
      HeaderOne(c, Encode(cs) + h.rest, Encode(h.before) + h.rest);
    }
  }

  // ----- Writing

  type Entry = (seq<byte>, seq<byte>)

  predicate Accepted(e: Entry) {
    e.0 != [] && |e.0| <= 79 && 0 !in e.1
  }

  /** Section 4.2.7 of RFC 2083: keyword, NUL, text; `crc` stands for CRC-32 over type and data. */
  function TextChunk(e: Entry, crc: seq<byte> -> u32): Chunk {
    var data := e.0 + [0] + e.1;
    Chunk(TEXT, data, Be(crc(TEXT + data), 4))
  }

  /** The chunks of the accepted entries, in order. */
  function Texts(keys: seq<Entry>, crc: seq<byte> -> u32): seq<Chunk> {
    if keys == [] then []
    else
      var n := |keys| - 1;
      Texts(keys[..n], crc) + (if Accepted(keys[n]) then [TextChunk(keys[n], crc)] else [])
  }

  /**
    What is written for one entry: nothing for a keyword of no or more than 79 bytes or a value with a NUL; else a chunk
    of type "tEXt" whose data is keyword, NUL and value, with its CRC over type and data.
  */
  lemma TextSpelled(e: Entry, crc: seq<byte> -> u32)
    ensures var data := e.0 + [0] + e.1;
      var sum := crc([0x74, 0x45, 0x58, 0x74] + data);
      Texts([e], crc) ==
      if 1 <= |e.0| <= 79 && 0 !in e.1 then [Chunk([0x74, 0x45, 0x58, 0x74], data, Be(sum, 4))] else []
  {
    assert [e][..0] == [];
  }

  /** And for many, what is written for each, in order. */
  lemma {:induction false} TextsConcat(a: seq<Entry>, b: seq<Entry>, crc: seq<byte> -> u32)
    ensures Texts(a + b, crc) == Texts(a, crc) + Texts(b, crc)
    decreases |b|
  {
    if b == [] {
      assert a + b == a && Texts(a, crc) + [] == Texts(a, crc);
    } else {
      var n := |b| - 1;
      TextsConcat(a, b[..n], crc);
      assert (a + b)[..|a| + n] == a + b[..n];
    }
  }

  /** A chunk in the file: length in four big-endian bytes, type, data, CRC. */
  lemma ChunkSpelled(c: Chunk)
    requires |c.data| < 0x1_0000_0000
    ensures var n := |c.data|;
      EncodeChunk(c) ==
      [n / 0x100_0000, n / 0x1_0000 % 256, n / 0x100 % 256, n % 256] + c.kind + c.data + c.crc
  {
    BeFour(|c.data|);
  }

  /** The header ends at the first chunk of type "IDAT". */
  lemma ImageDataStops(b: seq<byte>)
    requires |b| >= 8 && b[4..8] == [0x49, 0x44, 0x41, 0x54]
    ensures Header(b) == Parts([], b)
  {
  }

  /** The file with `texts` between its header chunks and its image data. */
  ghost function Spliced(png: seq<byte>, texts: seq<Chunk>): seq<byte>
    requires SIGNATURE <= png
  {
    var h := Header(png[8..]);
    if 1 <= |h.rest| < 8 then png + Encode(texts)
    else SIGNATURE + Encode(h.before + texts) + h.rest
  }

  /** `png_with_text`. */
  method PngWithText(png: seq<byte>, keys: seq<Entry>, crc: seq<byte> -> u32) returns (out: seq<byte>)
    ensures !(SIGNATURE <= png) ==> out == png
    ensures SIGNATURE <= png ==> out == Spliced(png, Texts(keys, crc))
  {
    if |png| < |SIGNATURE| || png[..8] != SIGNATURE {
      return png;
    }
    ghost var header := (b: seq<byte>) => Header(b);
    HeaderLaws(header);
    var insertAt := FindInsertion(png, header);
    out := AppendTexts(png[..insertAt], keys, crc);
    SplicedAt(png, insertAt, Texts(keys, crc), header(png[8..]));
    out := out + png[insertAt..];
  }

  /** The loop that appends the entries. */
  method AppendTexts(pre: seq<byte>, keys: seq<Entry>, crc: seq<byte> -> u32) returns (out: seq<byte>)
    ensures out == pre + Encode(Texts(keys, crc))
  {
    out := pre;
    assert pre == pre + [];
    for i := 0 to |keys|
      invariant out == pre + Encode(Texts(keys[..i], crc))
    {
      assert keys[..i + 1] == keys[..i] + [keys[i]];
      TextsSnoc(pre, keys[..i], keys[i], crc);
      if keys[i].0 == [] || |keys[i].0| > 79 || 0 in keys[i].1 {
        continue;
      }
      var chunk := TextBytes(keys[i].0, keys[i].1, crc);
      out := out + chunk;
    }
    assert keys[..|keys|] == keys;
  }

  method TextBytes(keyword: seq<byte>, value: seq<byte>, crc: seq<byte> -> u32) returns (chunk: seq<byte>)
    ensures chunk == EncodeChunk(TextChunk((keyword, value), crc))
  {
    var data := keyword;
    data := data + [0];
    data := data + value;
    var crcInput := TEXT;
    crcInput := crcInput + data;
    chunk := Be(|data|, 4);
    chunk := chunk + TEXT;
    chunk := chunk + data;
    chunk := chunk + Be(crc(crcInput), 4);
  }

  lemma TextsSnoc(pre: seq<byte>, keys: seq<Entry>, e: Entry, crc: seq<byte> -> u32)
    ensures !Accepted(e) ==> Texts(keys + [e], crc) == Texts(keys, crc)
    ensures Accepted(e) ==> Texts(keys + [e], crc) == Texts(keys, crc) + [TextChunk(e, crc)]
    ensures Accepted(e) ==>
      pre + Encode(Texts(keys + [e], crc)) == pre + Encode(Texts(keys, crc)) + EncodeChunk(TextChunk(e, crc))
  {
    assert (keys + [e])[..|keys|] == keys;
    assert Texts(keys, crc) + [] == Texts(keys, crc);
    EncodeSnoc(Texts(keys, crc), TextChunk(e, crc));
    ConcatAssoc(pre, Encode(Texts(keys, crc)), EncodeChunk(TextChunk(e, crc)));
  }

  /** `insertAt` is where the header chunks end, or the end of the file if fewer than eight bytes follow them. */
  ghost predicate Insertion(png: seq<byte>, insertAt: nat, h: Parts) {
    && 8 <= insertAt <= |png|
    && (if 1 <= |h.rest| < 8 then insertAt == |png|
        else png[..insertAt] == SIGNATURE + Encode(h.before) && png[insertAt..] == h.rest)
  }

  lemma SplicedAt(png: seq<byte>, insertAt: nat, texts: seq<Chunk>, h: Parts)
    requires SIGNATURE <= png && h == Header(png[8..]) && Insertion(png, insertAt, h)
    ensures png[..insertAt] + Encode(texts) + png[insertAt..] == Spliced(png, texts)
  {
    EncodeConcat(h.before, texts);
    ConcatAssoc(SIGNATURE, Encode(h.before), Encode(texts));
    assert png[..|png|] == png && png[|png|..] == [] && png + Encode(texts) + [] == png + Encode(texts);
  }

  /** `b` starts with a whole chunk that the search passes over. */
  ghost predicate Starts(b: seq<byte>, c: Chunk, tail: seq<byte>) {
    WellFormed([c]) && c.kind != IDAT && b == EncodeChunk(c) + tail
  }

  /** What a search for the end of the header needs to know of `Header`. */
  ghost predicate Divider(header: seq<byte> -> Parts) {
    && (forall b {:trigger Stops(b)} :: |b| < 8 || Stops(b) ==> header(b) == Parts([], b))
    && (forall b, c, tail {:trigger Starts(b, c, tail)} :: Starts(b, c, tail) ==>
        header(b) == Parts([c] + header(tail).before, header(tail).rest))
  }

  lemma HeaderLaws(header: seq<byte> -> Parts)
    requires forall b :: header(b) == Header(b)
    ensures Divider(header)
  {
    forall b, c, tail | Starts(b, c, tail)
      ensures header(b) == Parts([c] + header(tail).before, header(tail).rest)
    {
      HeaderOne(c, tail, b);
    }
  }

  /** The search for the insertion offset. */
  method FindInsertion(png: seq<byte>, ghost header: seq<byte> -> Parts) returns (insertAt: nat)
    requires SIGNATURE <= png && Divider(header)
    ensures Insertion(png, insertAt, header(png[8..]))
  {
    insertAt := |png|;
    var at := 8;
    ghost var done: seq<Chunk> := [];
    assert [] + header(png[8..]).before == header(png[8..]).before && SIGNATURE + [] == SIGNATURE;
    while at + 8 <= |png|
      invariant Passed(png, at, done, header)
    {
      var len := U32At(png, at);
      var end := at + 12 + len;
      FieldsAt(png, at);
      if png[at + 4..at + 8] == IDAT || end > |png| {
        Arrived(png, at, done, header);
        return at;
      }
      ghost var c, tail := Split(png[at..]);
      PassedOn(png, at, done, c, tail, header);
      done := done + [c];
      at := end;
    }
    Arrived(png, at, done, header);
  }

  /** The chunks of `done` lie between the signature and `at`, and the header goes on from there. */
  ghost predicate Passed(png: seq<byte>, at: nat, done: seq<Chunk>, header: seq<byte> -> Parts) {
    && 8 <= at <= |png| && png[..at] == SIGNATURE + Encode(done)
    && header(png[8..]) == Parts(done + header(png[at..]).before, header(png[at..]).rest)
  }

  lemma FieldsAt(png: seq<byte>, at: nat)
    requires at + 8 <= |png|
    ensures U32At(png[at..], 0) == U32At(png, at)
    ensures Stops(png[at..]) <==> png[at + 4..at + 8] == IDAT || at + 12 + U32At(png, at) > |png|
  {
    SliceOfSuffix(png, at, 4, 8);
  }

  lemma Arrived(png: seq<byte>, at: nat, done: seq<Chunk>, header: seq<byte> -> Parts)
    requires Divider(header) && Passed(png, at, done, header)
    ensures Stops(png[at..]) ==> Insertion(png, at, header(png[8..]))
    ensures at + 8 > |png| ==> Insertion(png, |png|, header(png[8..]))
  {
    assert done + [] == done;
  }

  lemma PassedOn(png: seq<byte>, at: nat, done: seq<Chunk>, c: Chunk, tail: seq<byte>, header: seq<byte> -> Parts)
    requires Divider(header) && Passed(png, at, done, header) && Starts(png[at..], c, tail)
    ensures Passed(png, at + |EncodeChunk(c)|, done + [c], header)
  {
    PrefixGrows(png, at, EncodeChunk(c), tail);
    EncodeSnoc(done, c);
    ConcatAssoc(SIGNATURE, Encode(done), EncodeChunk(c));
    ConcatAssoc(done, [c], header(tail).before);
  }

  lemma PrefixGrows(s: seq<byte>, at: nat, x: seq<byte>, tail: seq<byte>)
    requires at <= |s| && s[at..] == x + tail
    ensures at + |x| <= |s| && s[..at + |x|] == s[..at] + x && s[at + |x|..] == tail
  {
    assert s == s[..at] + (x + tail);
  }

  // ----- Reading

  /** What a chunk says about the text of `wanted`: nothing, or the answer. */
  datatype Verdict = Continue | Stop(text: Option<seq<byte>>)

  function FirstNul(data: seq<byte>): (r: Option<nat>)
    ensures match r
            case Some(n) => n < |data| && data[n] == 0 && 0 !in data[..n]
            case None => 0 !in data
  {
    if data == [] then None
    else if data[0] == 0 then Some(0)
    else
      match FirstNul(data[1..])
      case Some(n) =>
        assert data[..n + 1] == [data[0]] + data[1..][..n];
        Some(n + 1)
      case None => None
  }

  /** A `tEXt` chunk ends the search if it has no NUL or is about `wanted`; `utf8` stands for `String::from_utf8`. */
  function Judge(kind: seq<byte>, data: seq<byte>, wanted: seq<byte>, utf8: seq<byte> -> bool): Verdict {
    if kind != TEXT then Continue
    else
      match FirstNul(data)
      case None => Stop(None)
      case Some(nul) =>
        if data[..nul] != wanted then Continue
        else Stop(if utf8(data[nul + 1..]) then Some(data[nul + 1..]) else None)
  }

  /** Other chunks say nothing, and a text without a NUL ends the search. */
  lemma JudgeOthers(kind: seq<byte>, data: seq<byte>, wanted: seq<byte>, utf8: seq<byte> -> bool)
    ensures kind != [0x74, 0x45, 0x58, 0x74] ==> Judge(kind, data, wanted, utf8) == Continue
    ensures kind == [0x74, 0x45, 0x58, 0x74] && 0 !in data ==> Judge(kind, data, wanted, utf8) == Stop(None)
  {
  }

  /** A text answers for the keyword before its first NUL with what follows it, if that is UTF-8. */
  lemma JudgeText(k: seq<byte>, v: seq<byte>, wanted: seq<byte>, utf8: seq<byte> -> bool)
    requires 0 !in k
    ensures Judge([0x74, 0x45, 0x58, 0x74], k + [0] + v, wanted, utf8) ==
            if k != wanted then Continue else Stop(if utf8(v) then Some(v) else None)
  {
    var data := k + [0] + v;
    assert data[|k|] == 0 && data[..|k|] == k && data[|k| + 1..] == v;
    FirstNulIs(data, |k|);
  }

  ghost function Scan(cs: seq<Chunk>, wanted: seq<byte>, utf8: seq<byte> -> bool): Verdict {
    if cs == [] then Continue
    else if Judge(cs[0].kind, cs[0].data, wanted, utf8).Continue? then Scan(cs[1..], wanted, utf8)
    else Judge(cs[0].kind, cs[0].data, wanted, utf8)
  }

  ghost function Answer(v: Verdict): Option<seq<byte>> {
    if v.Stop? then v.text else None
  }

  /** The chunks whose data is all there; the CRC of the last may be cut short. */
  ghost function Readable(b: seq<byte>): seq<Chunk>
    decreases |b|
  {
    if |b| < 8 || 8 + U32At(b, 0) > |b| then []
    else [FirstChunk(b)] + Readable(From(b, 12 + U32At(b, 0)))
  }

  ghost function From(b: seq<byte>, at: nat): seq<byte> {
    if at <= |b| then b[at..] else []
  }

  /** What `png_text` answers: the verdict on the chunks behind the first eight bytes. */
  ghost function Read(png: seq<byte>, wanted: seq<byte>, utf8: seq<byte> -> bool): Option<seq<byte>> {
    Answer(Scan(Readable(From(png, 8)), wanted, utf8))
  }

  /** `png_text`: the first `tEXt` chunk about `wanted`, in any file. */
  method PngText(png: seq<byte>, wanted: seq<byte>, utf8: seq<byte> -> bool) returns (r: Option<seq<byte>>)
    ensures r == Read(png, wanted, utf8)
  {
    ghost var scan := (b: seq<byte>) => Scan(Readable(b), wanted, utf8);
    ghost var judge := (kind, data) => Judge(kind, data, wanted, utf8);
    ScanLaws(scan, judge, wanted, utf8);
    r := Search(png, wanted, utf8, scan, judge);
  }

  /** `n` bytes of data are there. */
  ghost predicate Whole(b: seq<byte>, n: nat) {
    |b| >= 8 && n == U32At(b, 0) && 8 + n <= |b|
  }

  ghost predicate Cut(b: seq<byte>) {
    |b| < 8 || 8 + U32At(b, 0) > |b|
  }

  type Judging = (seq<byte>, seq<byte>) -> Verdict

  /** What a search for a text needs to know of the scan. */
  ghost predicate Scanner(scan: seq<byte> -> Verdict, judge: Judging) {
    && (forall b {:trigger Cut(b)} :: Cut(b) ==> scan(b) == Continue)
    && (forall b, n: nat {:trigger Whole(b, n)} :: Whole(b, n) ==>
        var v := judge(b[4..8], b[8..8 + n]);
        scan(b) == if v.Continue? then scan(From(b, 12 + n)) else v)
  }

  lemma ScanLaws(scan: seq<byte> -> Verdict, judge: Judging, wanted: seq<byte>, utf8: seq<byte> -> bool)
    requires forall b :: scan(b) == Scan(Readable(b), wanted, utf8)
    requires forall kind, data :: judge(kind, data) == Judge(kind, data, wanted, utf8)
    ensures Scanner(scan, judge)
  {
    forall b, n: nat | Whole(b, n)
      ensures var v := judge(b[4..8], b[8..8 + n]);
        scan(b) == if v.Continue? then scan(From(b, 12 + n)) else v
    {
      SuffixRead(b, n, wanted, utf8);
    }
  }

  /** The loop of `png_text`. */
  method Search(png: seq<byte>, wanted: seq<byte>, utf8: seq<byte> -> bool, ghost scan: seq<byte> -> Verdict,
                ghost judge: Judging)
    returns (r: Option<seq<byte>>)
    requires Scanner(scan, judge)
    requires forall kind, data :: judge(kind, data) == Judge(kind, data, wanted, utf8)
    ensures r == Answer(scan(From(png, 8)))
  {
    var at := 8;
    while at + 8 <= |png|
      invariant Answer(scan(From(png, 8))) == Answer(scan(From(png, at)))
      decreases |png| - at
    {
      var len := U32At(png, at);
      var kind := png[at + 4..at + 8];
      if at + 8 + len > |png| {
        assert Cut(png[at..]);
        return None;
      }
      var data := png[at + 8..at + 8 + len];
      OneRead(png, at, len, scan, judge);
      if kind == TEXT {
        var v := TextIn(data, wanted, utf8);
        if v.Stop? {
          return v.text;
        }
      }
      at := at + 12 + len;
    }
    assert Cut(From(png, at));
    return None;
  }

  /** The body of the loop of `png_text` for the data of a `tEXt` chunk. */
  method TextIn(data: seq<byte>, wanted: seq<byte>, utf8: seq<byte> -> bool) returns (v: Verdict)
    ensures v == Judge(TEXT, data, wanted, utf8)
  {
    var nul := FirstNul(data);
    if nul.None? {
      return Stop(None);
    }
    if data[..nul.value] == wanted {
      var text := data[nul.value + 1..];
      return Stop(if utf8(text) then Some(text) else None);
    }
    return Continue;
  }

  lemma OneRead(png: seq<byte>, at: nat, n: nat, scan: seq<byte> -> Verdict, judge: Judging)
    requires Scanner(scan, judge) && at + 8 + n <= |png| && n == U32At(png, at)
    ensures var v := judge(png[at + 4..at + 8], png[at + 8..at + 8 + n]);
      scan(From(png, at)) == if v.Continue? then scan(From(png, at + 12 + n)) else v
  {
    var b := png[at..];
    assert Whole(b, n);
    SliceOfSuffix(png, at, 8, 8 + n);
    SliceOfSuffix(png, at, 4, 8);
    assert From(b, 12 + n) == From(png, at + 12 + n);
  }

  lemma SuffixRead(b: seq<byte>, n: nat, wanted: seq<byte>, utf8: seq<byte> -> bool)
    requires |b| >= 8 && n == U32At(b, 0) && 8 + n <= |b|
    ensures var v := Judge(b[4..8], b[8..8 + n], wanted, utf8);
      Scan(Readable(b), wanted, utf8) == if v.Continue? then Scan(Readable(From(b, 12 + n)), wanted, utf8) else v
  {
    FirstThenRest(b, From(b, 12 + n));
    FirstChunkSpelled(b, n);
    ScanCons(FirstChunk(b), Readable(From(b, 12 + n)), wanted, utf8);
  }

  lemma FirstThenRest(b: seq<byte>, more: seq<byte>)
    requires !Cut(b) && From(b, 12 + U32At(b, 0)) == more
    ensures Readable(b) == [FirstChunk(b)] + Readable(more)
  {
  }

  lemma FirstChunkSpelled(b: seq<byte>, n: nat)
    requires |b| >= 8 && n == U32At(b, 0) && 8 + n <= |b|
    ensures FirstChunk(b).kind == b[4..8] && FirstChunk(b).data == b[8..8 + n]
  {
  }

  lemma ScanCons(c: Chunk, cs: seq<Chunk>, wanted: seq<byte>, utf8: seq<byte> -> bool)
    ensures var v := Judge(c.kind, c.data, wanted, utf8);
      Scan([c] + cs, wanted, utf8) == if v.Continue? then Scan(cs, wanted, utf8) else v
  {
    assert ([c] + cs)[1..] == cs;
  }

  lemma SliceOfSuffix(s: seq<byte>, at: nat, i: nat, j: nat)
    requires i <= j && at + j <= |s|
    ensures s[at..][i..j] == s[at + i..at + j]
  {
    forall k | 0 <= k < j - i
      ensures s[at..][i..j][k] == s[at + i..at + j][k]
    {
    }
  }

  // ----- What is written is what is read

  lemma {:induction false} ReadableEncoded(cs: seq<Chunk>, rest: seq<byte>)
    requires WellFormed(cs)
    ensures Readable(Encode(cs) + rest) == cs + Readable(rest)
    decreases |cs|
  {
    if cs == [] {
      assert [] + rest == rest && cs + Readable(rest) == Readable(rest);
    } else {
      var c, more := cs[0], cs[1..];
      assert cs == [c] + more;
      ReadableEncoded(more, rest);
      EncodeCons(c, more, rest);
      ReadableOne(c, Encode(more) + rest);
      ConcatAssoc([c], more, Readable(rest));
    }
  }

  lemma ReadableOne(c: Chunk, tail: seq<byte>)
    requires WellFormed([c])
    ensures Readable(EncodeChunk(c) + tail) == [c] + Readable(tail)
  {
    FrontChunk(c, tail);
  }

  lemma {:induction false} ScanConcat(a: seq<Chunk>, b: seq<Chunk>, wanted: seq<byte>, utf8: seq<byte> -> bool)
    ensures Scan(a + b, wanted, utf8) ==
      if Scan(a, wanted, utf8).Continue? then Scan(b, wanted, utf8) else Scan(a, wanted, utf8)
    decreases |a|
  {
    if a == [] {
      assert a + b == b;
    } else {
      assert (a + b)[1..] == a[1..] + b;
      ScanConcat(a[1..], b, wanted, utf8);
    }
  }

  /** The keyword a reader sees: up to the first NUL, whether it ends the keyword or stands in it. */
  function SeenKeyword(e: Entry): seq<byte> {
    match FirstNul(e.0)
    case Some(n) => e.0[..n]
    case None => e.0
  }

  lemma JudgeWritten(e: Entry, crc: seq<byte> -> u32, wanted: seq<byte>, utf8: seq<byte> -> bool)
    ensures var v := Judge(TEXT, TextChunk(e, crc).data, wanted, utf8);
      && (SeenKeyword(e) != wanted ==> v == Continue)
      && (e.0 == wanted && 0 !in wanted && utf8(e.1) ==> v == Stop(Some(e.1)))
  {
    var data := e.0 + [0] + e.1;
    assert data[|e.0|] == 0 && data[..|e.0|] == e.0 && data[|e.0| + 1..] == e.1;
    if 0 in e.0 {
      var n := FirstNul(e.0).value;
      assert data[..n] == e.0[..n];
      FirstNulIs(data, n);
    } else {
      FirstNulIs(data, |e.0|);
    }
  }

  lemma {:induction false} FirstNulIs(data: seq<byte>, n: nat)
    requires n < |data| && data[n] == 0 && 0 !in data[..n]
    ensures FirstNul(data) == Some(n)
  {
    if n > 0 {
      assert data[..n] == [data[0]] + data[1..][..n - 1];
      FirstNulIs(data[1..], n - 1);
    }
  }

  lemma {:induction false} UnwantedPassed(keys: seq<Entry>, crc: seq<byte> -> u32, wanted: seq<byte>,
                                          utf8: seq<byte> -> bool)
    requires forall j :: 0 <= j < |keys| && Accepted(keys[j]) ==> SeenKeyword(keys[j]) != wanted
    ensures Scan(Texts(keys, crc), wanted, utf8) == Continue
    decreases |keys|
  {
    if keys != [] {
      var n := |keys| - 1;
      var last := if Accepted(keys[n]) then [TextChunk(keys[n], crc)] else [];
      UnwantedPassed(keys[..n], crc, wanted, utf8);
      JudgeWritten(keys[n], crc, wanted, utf8);
      ScanConcat(Texts(keys[..n], crc), last, wanted, utf8);
    }
  }

  /** A length that fits its four bytes. */
  ghost predicate Sized(keys: seq<Entry>) {
    forall j :: 0 <= j < |keys| ==> |keys[j].0| + 1 + |keys[j].1| < 0x1_0000_0000
  }

  lemma {:induction false} TextsWellFormed(keys: seq<Entry>, crc: seq<byte> -> u32)
    requires Sized(keys)
    ensures WellFormed(Texts(keys, crc))
    decreases |keys|
  {
    if keys != [] {
      TextsWellFormed(keys[..|keys| - 1], crc);
    }
  }

  /** Whole chunks to the end, or to image data or a truncated chunk: no stray bytes after the last chunk. */
  ghost predicate Aligned(png: seq<byte>) {
    SIGNATURE <= png && !(1 <= |Header(png[8..]).rest| < 8)
  }

  /** The file read after the splice: header chunks, then the texts, then everything else as it was. */
  lemma SplicedReads(png: seq<byte>, texts: seq<Chunk>, wanted: seq<byte>, utf8: seq<byte> -> bool)
    requires Aligned(png) && WellFormed(texts)
    ensures var h := Header(png[8..]);
      && Readable(From(Spliced(png, texts), 8)) == (h.before + texts) + Readable(h.rest)
      && Readable(From(png, 8)) == h.before + Readable(h.rest)
  {
    var h := Header(png[8..]);
    HeaderSpells(png[8..]);
    ReadableEncoded(h.before, h.rest);
    ReadableEncoded(h.before + texts, h.rest);
    var out := Spliced(png, texts);
    ConcatAssoc(SIGNATURE, Encode(h.before + texts), h.rest);
    assert out[8..] == Encode(h.before + texts) + h.rest;
  }

  /** A keyword with a NUL in it is never found, in any bytes: what stands before a NUL has none. */
  lemma {:induction false} NulNeverFound(cs: seq<Chunk>, wanted: seq<byte>, utf8: seq<byte> -> bool)
    requires 0 in wanted
    ensures Scan(cs, wanted, utf8) in {Continue, Stop(None)}
    decreases |cs|
  {
    if cs != [] {
      NulNeverFound(cs[1..], wanted, utf8);
    }
  }

  /**
    Reading the `i`th entry back gives its value exactly when its keyword has no NUL and no header chunk answers first
    with something else: no earlier `tEXt` chunk has that keyword with another text, and none lacks the NUL behind its
    keyword.
  */
  lemma ReadBackIff(png: seq<byte>, keys: seq<Entry>, i: nat, crc: seq<byte> -> u32, utf8: seq<byte> -> bool)
    requires Aligned(png) && Sized(keys)
    requires i < |keys| && Accepted(keys[i]) && utf8(keys[i].1)
    requires forall j :: 0 <= j < i && Accepted(keys[j]) ==> SeenKeyword(keys[j]) != keys[i].0
    ensures var (wanted, value) := keys[i];
      Read(Spliced(png, Texts(keys, crc)), wanted, utf8) == Some(value) <==>
        0 !in wanted && Scan(Header(png[8..]).before, wanted, utf8) in {Continue, Stop(Some(value))}
  {
    var (wanted, value) := keys[i];
    var h := Header(png[8..]);
    if 0 in wanted {
      NulNeverFound(Readable(From(Spliced(png, Texts(keys, crc)), 8)), wanted, utf8);
    } else {
      TextsWellFormed(keys, crc);
      SplicedReads(png, Texts(keys, crc), wanted, utf8);
      ScanConcat(h.before + Texts(keys, crc), Readable(h.rest), wanted, utf8);
      ScanConcat(h.before, Texts(keys, crc), wanted, utf8);
      EntryFound(keys, i, crc, utf8);
    }
  }

  lemma {:induction false} EntryFound(keys: seq<Entry>, i: nat, crc: seq<byte> -> u32, utf8: seq<byte> -> bool)
    requires i < |keys| && Accepted(keys[i]) && 0 !in keys[i].0 && utf8(keys[i].1)
    requires forall j :: 0 <= j < i && Accepted(keys[j]) ==> SeenKeyword(keys[j]) != keys[i].0
    ensures Scan(Texts(keys, crc), keys[i].0, utf8) == Stop(Some(keys[i].1))
    decreases |keys|
  {
    var n, wanted := |keys| - 1, keys[i].0;
    var last := if Accepted(keys[n]) then [TextChunk(keys[n], crc)] else [];
    ScanConcat(Texts(keys[..n], crc), last, wanted, utf8);
    if i < n {
      EntryFound(keys[..n], i, crc, utf8);
    } else {
      UnwantedPassed(keys[..n], crc, wanted, utf8);
      JudgeWritten(keys[n], crc, wanted, utf8);
    }
  }

  // ----- Stray bytes after the last chunk

  /** Behind stray bytes only small texts are spoken of: a length within a chunk's bytes then starts with two zeros. */
  const SMALL: nat := 0x1_0000

  /** A `tEXt` chunk with one NUL, behind a keyword. */
  ghost predicate Plain(c: Chunk) {
    && c.kind == TEXT && |c.crc| == 4
    && FirstNul(c.data).Some? && FirstNul(c.data).value >= 1 && 0 !in c.data[FirstNul(c.data).value + 1..]
  }

  ghost function Keyword(c: Chunk): seq<byte>
    requires Plain(c)
  {
    c.data[..FirstNul(c.data).value]
  }

  /** What may stand behind a chunk: nothing, or another text. */
  ghost predicate TextOrEnd(b: seq<byte>) {
    b == [] || (|b| >= 8 && b[0] == 0 && b[1] == 0 && b[4] == 0x74 && b[5] == 0x45 && b[6] == 0x58 && b[7] == 0x74)
  }

  /** At `q` a length below `SMALL` and the type `tEXt`. */
  ghost predicate TextAt(b: seq<byte>, q: nat) {
    && q + 8 <= |b| && b[q] == 0 && b[q + 1] == 0
    && b[q + 4] == 0x74 && b[q + 5] == 0x45 && b[q + 6] == 0x58 && b[q + 7] == 0x74
  }

  /** `b` is a plain text of `n` bytes with its NUL at `m`, followed by another text or the end. */
  ghost predicate Laid(b: seq<byte>, n: nat, m: nat) {
    && 12 + n <= |b| && 1 <= m < n
    && b[0] == 0 && b[1] == 0 && b[4] == 0x74 && b[5] == 0x45 && b[6] == 0x58 && b[7] == 0x74
    && (forall i :: 8 <= i < 8 + n ==> (b[i] == 0 <==> i == 8 + m))
    && TextOrEnd(b[12 + n..])
  }

  /** Only its own start looks like the start of a small text. */
  lemma NoTextInside(b: seq<byte>, n: nat, m: nat, q: nat)
    requires Laid(b, n, m) && 0 < q < 12 + n
    ensures !TextAt(b, q)
  {
    var x := b[12 + n..];
    assert x != [] ==> x[0] == b[12 + n] && x[1] == b[13 + n] && x[4] == b[16 + n];
  }

  lemma StartsText(c: Chunk, more: seq<byte>)
    requires c.kind == TEXT && |c.crc| == 4 && |c.data| < SMALL
    ensures |EncodeChunk(c)| == 12 + |c.data| && TextOrEnd(EncodeChunk(c) + more)
    ensures forall i :: 8 <= i < 8 + |c.data| ==> (EncodeChunk(c) + more)[i] == c.data[i - 8]
  {
    var len := Be(|c.data|, 4);
    SmallLength(|c.data|);
    var b := len + c.kind + c.data + c.crc + more;
    assert b[0] == len[0] && b[1] == len[1];
    assert b[4] == c.kind[0] && b[5] == c.kind[1] && b[6] == c.kind[2] && b[7] == c.kind[3];
  }

  lemma LaidOut(c: Chunk, more: seq<byte>)
    requires Plain(c) && |c.data| < SMALL && TextOrEnd(more)
    ensures Laid(EncodeChunk(c) + more, |c.data|, FirstNul(c.data).value)
  {
    var b, n, m := EncodeChunk(c) + more, |c.data|, FirstNul(c.data).value;
    StartsText(c, more);
    assert b[12 + n..] == more;
    forall i | 8 <= i < 8 + n
      ensures b[i] == 0 <==> i == 8 + m
    {
      assert i - 8 < m ==> c.data[i - 8] in c.data[..m];
      assert i - 8 > m ==> c.data[i - 8] in c.data[m + 1..];
    }
  }

  lemma SmallLength(n: nat)
    requires n < SMALL
    ensures Be(n, 4)[0] == 0 && Be(n, 4)[1] == 0
  {
    assert Be(n, 4)[1] == Be(n / 256, 3)[1] == Be(n / 256 / 256, 2)[1];
    assert Be(n, 4)[0] == Be(n / 256, 3)[0] == Be(n / 256 / 256, 2)[0] == Be(0, 1)[0];
  }

  ghost predicate AllPlain(cs: seq<Chunk>) {
    forall i :: 0 <= i < |cs| ==> Plain(cs[i])
  }

  /** No text but the first is about `wanted`. */
  ghost predicate NoneLater(cs: seq<Chunk>, wanted: seq<byte>)
    requires AllPlain(cs)
  {
    forall i :: 1 <= i < |cs| ==> Keyword(cs[i]) != wanted
  }

  lemma EncodedTexts(cs: seq<Chunk>)
    requires AllPlain(cs) && |Encode(cs)| < SMALL
    ensures TextOrEnd(Encode(cs))
    ensures cs != [] ==> |EncodeChunk(cs[0])| == 12 + |cs[0].data|
    ensures cs != [] ==> AllPlain(cs[1..]) && |cs[0].data| < SMALL && Encode(cs) == EncodeChunk(cs[0]) + Encode(cs[1..])
    ensures cs != [] ==> |Encode(cs[1..])| < |Encode(cs)|
  {
    if cs != [] {
      StartsText(cs[0], Encode(cs[1..]));
    }
  }

  /** What is needed of a scan here: it passes over what is no small text, and over texts about something else. */
  ghost predicate PassesOver(scan: seq<byte> -> Verdict, wanted: seq<byte>) {
    && scan([]) == Continue
    && (forall b {:trigger TextAt(b, 0)} :: |b| < SMALL && !TextAt(b, 0) ==>
          scan(b) == if Cut(b) then Continue else scan(From(b, 12 + U32At(b, 0))))
    && (forall c, more {:trigger Behind(c, more)} :: Plain(c) && |c.data| < SMALL && Keyword(c) != wanted ==>
          scan(Behind(c, more)) == scan(more))
  }

  /** `more` behind a chunk. */
  ghost function Behind(c: Chunk, more: seq<byte>): seq<byte> {
    EncodeChunk(c) + more
  }

  lemma ScanPassesOver(scan: seq<byte> -> Verdict, wanted: seq<byte>, utf8: seq<byte> -> bool)
    requires forall b :: scan(b) == Scan(Readable(b), wanted, utf8)
    ensures PassesOver(scan, wanted)
  {
    forall b | |b| < SMALL && !TextAt(b, 0)
      ensures scan(b) == if Cut(b) then Continue else scan(From(b, 12 + U32At(b, 0)))
    {
      NoSmallText(b, wanted, utf8);
    }
    forall c, more | Plain(c) && |c.data| < SMALL && Keyword(c) != wanted
      ensures scan(Behind(c, more)) == scan(more)
    {
      ReadableOne(c, more);
      ScanCons(c, Readable(more), wanted, utf8);
    }
  }

  /** Where no small text starts, a reader finds no chunk, or one that is no text. */
  lemma NoSmallText(b: seq<byte>, wanted: seq<byte>, utf8: seq<byte> -> bool)
    requires |b| < SMALL && !TextAt(b, 0)
    ensures Scan(Readable(b), wanted, utf8) ==
            if Cut(b) then Continue else Scan(Readable(From(b, 12 + U32At(b, 0))), wanted, utf8)
  {
    if !Cut(b) {
      assert b[0] == 0 && b[1] == 0 && b[4..8] == [b[4], b[5], b[6], b[7]];
      SuffixRead(b, U32At(b, 0), wanted, utf8);
    }
  }

  lemma FromFrom(b: seq<byte>, q: nat, n: nat)
    ensures From(From(b, q), n) == From(b, q + n)
  {
  }

  lemma FromBehind(c: Chunk, more: seq<byte>, q: nat)
    requires |c.kind| == 4 && |c.crc| == 4 && q >= 12 + |c.data|
    ensures From(Behind(c, more), q) == From(more, q - 12 - |c.data|)
  {
    assert |EncodeChunk(c)| == 12 + |c.data|;
  }

  lemma FromInside(c: Chunk, more: seq<byte>, q: nat)
    requires Plain(c) && |c.data| < SMALL && TextOrEnd(more) && 0 < q < 12 + |c.data|
    ensures !TextAt(From(Behind(c, more), q), 0)
  {
    var all := Behind(c, more);
    assert |EncodeChunk(c)| == 12 + |c.data|;
    LaidOut(c, more);
    NoTextInside(all, |c.data|, FirstNul(c.data).value, q);
    assert forall i :: 0 <= i < |all| - q ==> From(all, q)[i] == all[q + i];
  }

  /** Texts whose first may be about `wanted` and whose others are not, and their bytes. */
  ghost predicate Train(cs: seq<Chunk>, all: seq<byte>, wanted: seq<byte>) {
    AllPlain(cs) && all == Encode(cs) && |all| < SMALL && NoneLater(cs, wanted)
  }

  lemma TrainTail(cs: seq<Chunk>, all: seq<byte>, wanted: seq<byte>) returns (more: seq<byte>)
    requires Train(cs, all, wanted) && cs != []
    ensures Train(cs[1..], more, wanted) && all == Behind(cs[0], more) && |more| < |all| && TextOrEnd(more)
    ensures Plain(cs[0]) && |cs[0].data| < SMALL && (|cs| > 1 ==> Keyword(cs[1..][0]) != wanted)
  {
    more := Encode(cs[1..]);
    EncodedTexts(cs);
    EncodedTexts(cs[1..]);
  }

  lemma Jump(c: Chunk, more: seq<byte>, all: seq<byte>, q: nat, wanted: seq<byte>, scan: seq<byte> -> Verdict)
    requires PassesOver(scan, wanted) && all == Behind(c, more) && |all| < SMALL && 0 < q < 12 + |c.data|
    requires Plain(c) && |c.data| < SMALL && TextOrEnd(more)
    ensures var b := From(all, q); scan(b) == if Cut(b) then Continue else scan(From(all, q + 12 + U32At(b, 0)))
  {
    var b := From(all, q);
    FromInside(c, more, q);
    if !Cut(b) {
      FromFrom(all, q, 12 + U32At(b, 0));
    }
  }

  /** Wherever in the texts reading starts, past the first one's start, only the later texts are found. */
  lemma {:induction false} ReadFromInside(cs: seq<Chunk>, all: seq<byte>, q: nat, wanted: seq<byte>,
                                          scan: seq<byte> -> Verdict)
    requires Train(cs, all, wanted) && PassesOver(scan, wanted)
    requires q == 0 && cs != [] ==> Keyword(cs[0]) != wanted
    ensures scan(From(all, q)) == Continue
    decreases if q <= |all| then |all| + 1 - q else 0, |cs|
  {
    if q > |all| {
    } else if cs == [] {
      assert From(all, q) == [];
    } else {
      var more := TrainTail(cs, all, wanted);
      var size := 12 + |cs[0].data|;
      if q >= size {
        FromBehind(cs[0], more, q);
        ReadFromInside(cs[1..], more, q - size, wanted, scan);
      } else if q == 0 {
        assert From(all, 0) == all && From(more, 0) == more;
        ReadFromInside(cs[1..], more, 0, wanted, scan);
      } else {
        Jump(cs[0], more, all, q, wanted, scan);
        if !Cut(From(all, q)) {
          ReadFromInside(cs, all, q + 12 + U32At(From(all, q), 0), wanted, scan);
        }
      }
    }
  }

  lemma NotAtStart(rest: seq<byte>, e: seq<byte>)
    requires 1 <= |rest| < 8 && TextOrEnd(e)
    ensures !TextAt(rest + e, 0)
  {
    var b := rest + e;
    assert forall i :: |rest| <= i < |b| ==> b[i] == e[i - |rest|];
  }

  /** Behind one to seven stray bytes the first text is out of step, and reading never falls back into it. */
  lemma StrayScan(rest: seq<byte>, cs: seq<Chunk>, all: seq<byte>, wanted: seq<byte>, scan: seq<byte> -> Verdict)
    requires 1 <= |rest| < 8 && Train(cs, all, wanted) && TextOrEnd(all) && |rest + all| < SMALL
    requires PassesOver(scan, wanted)
    ensures scan(rest + all) == Continue
  {
    var b := rest + all;
    NotAtStart(rest, all);
    if !Cut(b) {
      var n := 12 + U32At(b, 0);
      assert From(b, |rest|) == all;
      FromFrom(b, |rest|, n - |rest|);
      ReadFromInside(cs, all, n - |rest|, wanted, scan);
    }
  }

  // ----- The theorem

  lemma PlainText(e: Entry, crc: seq<byte> -> u32)
    requires Accepted(e) && 0 !in e.0
    ensures Plain(TextChunk(e, crc)) && Keyword(TextChunk(e, crc)) == e.0
  {
    var data := e.0 + [0] + e.1;
    assert data[|e.0|] == 0 && data[..|e.0|] == e.0 && data[|e.0| + 1..] == e.1;
    FirstNulIs(data, |e.0|);
  }

  lemma {:induction false} PlainTexts(keys: seq<Entry>, crc: seq<byte> -> u32, wanted: seq<byte>)
    requires forall j :: 0 <= j < |keys| && Accepted(keys[j]) ==> 0 !in keys[j].0 && keys[j].0 != wanted
    ensures AllPlain(Texts(keys, crc))
    ensures forall i :: 0 <= i < |Texts(keys, crc)| ==> Keyword(Texts(keys, crc)[i]) != wanted
    decreases |keys|
  {
    if keys != [] {
      var n := |keys| - 1;
      PlainTexts(keys[..n], crc, wanted);
      if Accepted(keys[n]) {
        PlainText(keys[n], crc);
      }
    }
  }

  /** The texts of `keys`, of which no accepted one after the first is about `wanted`. */
  lemma LaterTexts(keys: seq<Entry>, first: nat, crc: seq<byte> -> u32, wanted: seq<byte>)
    requires first < |keys| && (forall j :: 0 <= j < first ==> !Accepted(keys[j])) && Accepted(keys[first])
    requires forall j :: 0 <= j < |keys| && Accepted(keys[j]) ==> 0 !in keys[j].0
    requires forall j :: first < j < |keys| && Accepted(keys[j]) ==> keys[j].0 != wanted
    ensures AllPlain(Texts(keys, crc)) && NoneLater(Texts(keys, crc), wanted)
  {
    var b, c := keys[first + 1..], TextChunk(keys[first], crc);
    FirstText(keys, first, crc);
    PlainText(keys[first], crc);
    PlainTexts(b, crc, wanted);
    ConsPlain(c, Texts(b, crc), wanted);
  }

  lemma {:induction false} FirstText(keys: seq<Entry>, first: nat, crc: seq<byte> -> u32)
    requires first < |keys| && (forall j :: 0 <= j < first ==> !Accepted(keys[j])) && Accepted(keys[first])
    ensures Texts(keys, crc) == [TextChunk(keys[first], crc)] + Texts(keys[first + 1..], crc)
    decreases |keys|
  {
    var n, later := |keys| - 1, keys[first + 1..];
    if first == n {
      NothingAccepted(keys[..n], crc);
      assert later == [];
    } else {
      FirstText(keys[..n], first, crc);
      assert keys[..n][first + 1..] == later[..|later| - 1] && later[|later| - 1] == keys[n];
      SplitTexts(keys, later, crc);
    }
  }

  /** The last text, if there is one, ends the texts of all entries and those of the later ones alike. */
  lemma SplitTexts(keys: seq<Entry>, later: seq<Entry>, crc: seq<byte> -> u32)
    requires |keys| > |later| > 0 && later == keys[|keys| - |later|..]
    ensures forall c :: Texts(keys[..|keys| - 1], crc) == [c] + Texts(later[..|later| - 1], crc) ==>
              Texts(keys, crc) == [c] + Texts(later, crc)
  {
    var last := keys[|keys| - 1];
    assert later[|later| - 1] == last;
    var end := if Accepted(last) then [TextChunk(last, crc)] else [];
    forall c | Texts(keys[..|keys| - 1], crc) == [c] + Texts(later[..|later| - 1], crc)
      ensures Texts(keys, crc) == [c] + Texts(later, crc)
    {
      ConcatAssoc([c], Texts(later[..|later| - 1], crc), end);
    }
  }

  lemma ConsPlain(c: Chunk, cs: seq<Chunk>, wanted: seq<byte>)
    requires Plain(c) && AllPlain(cs) && forall i :: 0 <= i < |cs| ==> Keyword(cs[i]) != wanted
    ensures AllPlain([c] + cs) && NoneLater([c] + cs, wanted)
  {
  }

  lemma {:induction false} NothingAccepted(keys: seq<Entry>, crc: seq<byte> -> u32)
    requires forall j :: 0 <= j < |keys| ==> !Accepted(keys[j])
    ensures Texts(keys, crc) == []
    decreases |keys|
  {
    if keys != [] {
      NothingAccepted(keys[..|keys| - 1], crc);
    }
  }

  /**
    In a file with stray bytes behind its last chunk the splice is lost on a reader: every keyword but those of later
    entries reads as it did before. So the first entry's value is found exactly when a header chunk already had it.
  */
  lemma StrayBytesLoseTheFirst(png: seq<byte>, keys: seq<Entry>, first: nat, crc: seq<byte> -> u32, wanted: seq<byte>,
                               utf8: seq<byte> -> bool)
    requires SIGNATURE <= png && 1 <= |Header(png[8..]).rest| < 8
    requires first < |keys| && (forall j :: 0 <= j < first ==> !Accepted(keys[j])) && Accepted(keys[first])
    requires forall j :: 0 <= j < |keys| && Accepted(keys[j]) ==> 0 !in keys[j].0
    requires forall j :: first < j < |keys| && Accepted(keys[j]) ==> keys[j].0 != wanted
    requires |Encode(Texts(keys, crc))| + 8 < SMALL
    ensures Read(Spliced(png, Texts(keys, crc)), wanted, utf8) == Read(png, wanted, utf8)
    ensures Read(png, wanted, utf8) == Answer(Scan(Header(png[8..]).before, wanted, utf8))
  {
    LaterTexts(keys, first, crc, wanted);
    StrayUnread(png, Texts(keys, crc), wanted, utf8);
  }

  lemma StrayUnread(png: seq<byte>, cs: seq<Chunk>, wanted: seq<byte>, utf8: seq<byte> -> bool)
    requires SIGNATURE <= png && 1 <= |Header(png[8..]).rest| < 8
    requires AllPlain(cs) && NoneLater(cs, wanted) && |Encode(cs)| + 8 < SMALL
    ensures Read(Spliced(png, cs), wanted, utf8) == Read(png, wanted, utf8)
    ensures Read(png, wanted, utf8) == Answer(Scan(Header(png[8..]).before, wanted, utf8))
  {
    var h := Header(png[8..]);
    EncodedTexts(cs);
    var scan := (b: seq<byte>) => Scan(Readable(b), wanted, utf8);
    ScanPassesOver(scan, wanted, utf8);
    StrayScan(h.rest, cs, Encode(cs), wanted, scan);
    StraySplice(png, Encode(cs));
    ScanConcat(h.before, Readable(h.rest + Encode(cs)), wanted, utf8);
    StraySplice(png, []);
    assert h.rest + [] == h.rest && png + [] == png;
    ScanConcat(h.before, Readable(h.rest), wanted, utf8);
  }

  /**
    Which later text a reader falls in step with: the one that starts where the length spelled by the stray bytes, and
    the first bytes behind them, points to. From there on it reads all the texts, of whatever size.
  */
  lemma InStepAgain(png: seq<byte>, passed: seq<Chunk>, later: seq<Chunk>)
    requires SIGNATURE <= png && 1 <= |Header(png[8..]).rest| < 8 && WellFormed(later)
    requires var b := Header(png[8..]).rest + Encode(passed + later);
      !Cut(b) && 12 + U32At(b, 0) == |Header(png[8..]).rest| + |Encode(passed)|
    ensures var h := Header(png[8..]);
      Readable(From(Spliced(png, passed + later), 8)) ==
      h.before + ([FirstChunk(h.rest + Encode(passed + later))] + later)
  {
    var h := Header(png[8..]);
    StraySplice(png, Encode(passed + later));
    PastTheFirst(h.rest, passed, later, h.rest + Encode(passed + later));
  }

  lemma PastTheFirst(rest: seq<byte>, passed: seq<Chunk>, later: seq<Chunk>, b: seq<byte>)
    requires b == rest + Encode(passed + later) && WellFormed(later)
    requires !Cut(b) && 12 + U32At(b, 0) == |rest| + |Encode(passed)|
    ensures Readable(b) == [FirstChunk(b)] + later
  {
    EncodeConcat(passed, later);
    BehindPassed(rest, Encode(passed), Encode(later));
    FirstThenRest(b, Encode(later));
    ReadsWhole(later);
  }

  lemma ReadsWhole(cs: seq<Chunk>)
    requires WellFormed(cs)
    ensures Readable(Encode(cs)) == cs
  {
    ReadableEncoded(cs, []);
    assert Encode(cs) + [] == Encode(cs) && cs + [] == cs && Readable([]) == [];
  }

  lemma BehindPassed(a: seq<byte>, b: seq<byte>, c: seq<byte>)
    ensures From(a + (b + c), |a| + |b|) == c
  {
  }

  lemma StraySplice(png: seq<byte>, more: seq<byte>)
    requires |png| >= 8
    ensures var h := Header(png[8..]); Readable(From(png + more, 8)) == h.before + Readable(h.rest + more)
  {
    var body := png[8..];
    HeaderSpells(body);
    FromConcat(png, more, 8);
    ReadOverHeader(body, Header(body), more);
  }

  lemma FromConcat(a: seq<byte>, b: seq<byte>, at: nat)
    requires at <= |a|
    ensures From(a + b, at) == a[at..] + b
  {
  }

  lemma ReadOverHeader(body: seq<byte>, h: Parts, more: seq<byte>)
    requires WellFormed(h.before) && body == Encode(h.before) + h.rest
    ensures Readable(body + more) == h.before + Readable(h.rest + more)
  {
    ReadableEncoded(h.before, h.rest + more);
    ConcatAssoc(Encode(h.before), h.rest, more);
  }

  /** Every keyword that is not written reads as it did before the splice, in files with stray bytes too. */
  lemma OthersUnchanged(png: seq<byte>, keys: seq<Entry>, crc: seq<byte> -> u32, wanted: seq<byte>,
                        utf8: seq<byte> -> bool)
    requires SIGNATURE <= png && Sized(keys)
    requires forall j :: 0 <= j < |keys| && Accepted(keys[j]) ==> SeenKeyword(keys[j]) != wanted
    requires !Aligned(png) ==> |Encode(Texts(keys, crc))| + 8 < SMALL
    requires !Aligned(png) ==> forall j :: 0 <= j < |keys| && Accepted(keys[j]) ==> 0 !in keys[j].0
    ensures Read(Spliced(png, Texts(keys, crc)), wanted, utf8) == Read(png, wanted, utf8)
  {
    if Aligned(png) {
      AlignedOthers(png, keys, crc, wanted, utf8);
    } else {
      forall j | 0 <= j < |keys| && Accepted(keys[j])
        ensures keys[j].0 != wanted
      {
        PlainText(keys[j], crc);
      }
      StrayOthers(png, keys, crc, wanted, utf8);
    }
  }

  lemma StrayOthers(png: seq<byte>, keys: seq<Entry>, crc: seq<byte> -> u32, wanted: seq<byte>,
                    utf8: seq<byte> -> bool)
    requires SIGNATURE <= png && 1 <= |Header(png[8..]).rest| < 8 && |Encode(Texts(keys, crc))| + 8 < SMALL
    requires forall j :: 0 <= j < |keys| && Accepted(keys[j]) ==> 0 !in keys[j].0 && keys[j].0 != wanted
    ensures Read(Spliced(png, Texts(keys, crc)), wanted, utf8) == Read(png, wanted, utf8)
  {
    PlainTexts(keys, crc, wanted);
    StrayUnread(png, Texts(keys, crc), wanted, utf8);
  }

  lemma AlignedOthers(png: seq<byte>, keys: seq<Entry>, crc: seq<byte> -> u32, wanted: seq<byte>,
                      utf8: seq<byte> -> bool)
    requires Aligned(png) && Sized(keys)
    requires forall j :: 0 <= j < |keys| && Accepted(keys[j]) ==> SeenKeyword(keys[j]) != wanted
    ensures Read(Spliced(png, Texts(keys, crc)), wanted, utf8) == Read(png, wanted, utf8)
  {
    var h := Header(png[8..]);
    TextsWellFormed(keys, crc);
    SplicedReads(png, Texts(keys, crc), wanted, utf8);
    ScanConcat(h.before + Texts(keys, crc), Readable(h.rest), wanted, utf8);
    ScanConcat(h.before, Texts(keys, crc), wanted, utf8);
    ScanConcat(h.before, Readable(h.rest), wanted, utf8);
    UnwantedPassed(keys, crc, wanted, utf8);
  }
}
