/** Packed sequences, bitmaps and front-coded dictionary sections
    (crates/graphy-hdt/src/section.rs). */
module Section {
  import opened Seqs
  import opened Terms
  import opened Arith
  import opened Codec

  // ------------------------------------------------------- packed sequences

  datatype LogSeq = LogSeq(bits: nat, n: nat, data: Bytes) {
    /** Position `k` lies inside the data; outside it the source panics. */
    predicate Has(k: nat) { k * bits >= 0 && k * bits + bits <= 8 * |data| }

    function Get(k: nat): nat
      requires Has(k)
    {
      Slice(data, k * bits, bits)
    }

    /** Every value of `vs` stands at its position. */
    ghost predicate Stores(vs: seq<nat>) {
      n == |vs| && forall k {:trigger Has(k)} :: 0 <= k < |vs| ==> Has(k) && Get(k) == vs[k]
    }
  }

  method Max(vs: seq<nat>) returns (m: nat)
    ensures forall v :: v in vs ==> v <= m
    ensures if vs == [] then m == 0 else m in vs
  {
    m := 0;
    for i := 0 to |vs|
      invariant forall j :: 0 <= j < i ==> vs[j] <= m
      invariant if i == 0 then m == 0 else m in vs[..i]
    {
      if i == 0 || vs[i] > m {
        m := vs[i];
      }
    }
  }

  method WriteLogSeq(vs: seq<nat>) returns (r: LogSeq)
    ensures r.Stores(vs)
  {
    var max := Max(vs);
    var bits := BitsFor(max);
    var payload := BitsPack(vs, bits);
    r := LogSeq(bits, |vs|, payload[..]);
    forall k | 0 <= k < |vs| ensures r.Has(k) && r.Get(k) == vs[k] {
      PackedAtMax(payload[..], vs, max, k);
    }
  }

  /** `LogSeq::get` on a sequence known to store `vs`. */
  method GetValue(q: LogSeq, k: nat, ghost vs: seq<nat>) returns (v: nat)
    requires q.Stores(vs) && k < |vs|
    ensures v == vs[k]
  {
    assert q.Has(k);
    v := BitsGet(q.data, q.bits, k);
  }

  // ------------------------------------------------------- bitmaps

  datatype Bitmap = Bitmap(nbits: nat, data: Bytes) {
    predicate Has(k: nat) { k < 8 * |data| }

    predicate Get(k: nat)
      requires Has(k)
    {
      StreamBit(data, k)
    }

    ghost predicate Stores(bs: seq<bool>) {
      nbits == |bs| && forall k {:trigger Has(k)} :: 0 <= k < |bs| ==> Has(k) && Get(k) == bs[k]
    }
  }

  method WriteBitmap(bits: seq<bool>) returns (r: Bitmap)
    ensures r.Stores(bits)
  {
    var payload := new Byte[(|bits| + 7) / 8](i => 0);
    forall p | 0 <= p < 8 * payload.Length ensures !StreamBit(payload[..], p) { ZeroBits(p % 8); }
    for k := 0 to |bits|
      invariant forall p :: 0 <= p < 8 * payload.Length ==> (StreamBit(payload[..], p) <==> p < k && bits[p])
    {
      ghost var before := payload[..];
      if bits[k] {
        SetBitByte(payload[k / 8], k % 8);
        payload[k / 8] := SetBit(payload[k / 8], k % 8);
      }
      BitmapStep(before, payload[..], bits, k);
    }
    r := Bitmap(|bits|, payload[..]);
  }

  lemma {:induction false} BitmapStep(before: Bytes, after: Bytes, bits: seq<bool>, k: nat)
    requires k < |bits| <= 8 * |before| && |after| == |before|
    requires after == if bits[k] then before[k / 8 := after[k / 8]] else before
    requires bits[k] ==> after[k / 8] == SetBit(before[k / 8], k % 8)
    requires forall p :: 0 <= p < 8 * |before| ==> (StreamBit(before, p) <==> p < k && bits[p])
    ensures forall p :: 0 <= p < 8 * |after| ==> (StreamBit(after, p) <==> p < k + 1 && bits[p])
  {
    forall p | 0 <= p < 8 * |after| ensures StreamBit(after, p) <==> p < k + 1 && bits[p] {
      assert StreamBit(before, p) <==> p < k && bits[p];
      if bits[k] && p / 8 == k / 8 { SetBitBits(before[k / 8], k % 8, p % 8); }
    }
  }

  /** `Bitmap::get` on a bitmap known to store `bs`. */
  method GetFlag(m: Bitmap, k: nat, ghost bs: seq<bool>) returns (b: bool)
    requires m.Stores(bs) && k < |bs|
    ensures b == bs[k]
  {
    assert m.Has(k);
    b := StreamBit(m.data, k);
  }

  // ------------------------------------------------------- front coding

  const BLOCK_SIZE: nat := 16

  datatype PfcSection = PfcSection(n: nat, blocksize: nat, blocks: LogSeq, data: Bytes)

  /** Length of the common prefix. */
  function Lcp(a: Bytes, b: Bytes): nat { LcpFrom(a, b, 0) }

  function LcpFrom(a: Bytes, b: Bytes, k: nat): (r: nat)
    ensures r >= k && (k <= |a| && k <= |b| ==> r <= |a| && r <= |b|)
    decreases |a| - k
  {
    if k < |a| && k < |b| && a[k] == b[k] then LcpFrom(a, b, k + 1) else k
  }

  lemma {:induction false} LcpShared(a: Bytes, b: Bytes, k: nat)
    requires k <= |a| && k <= |b| && a[..k] == b[..k]
    ensures a[..LcpFrom(a, b, k)] == b[..LcpFrom(a, b, k)]
    ensures var n := LcpFrom(a, b, k); n < |a| && n < |b| ==> a[n] != b[n]
    decreases |a| - k
  {
    if k < |a| && k < |b| && a[k] == b[k] {
      TakeNext(a, k);
      TakeNext(b, k);
      LcpShared(a, b, k + 1);
    }
  }

  /** The bytes of entry `i`: a block head in full, any other as the length it
      shares with its predecessor and the rest. */
  function Chunk(entries: seq<Bytes>, i: nat): Bytes {
    if i >= |entries| then []
    else if i % 16 == 0 then entries[i] + [0]
    else Suffixed(Lcp(Before(entries, i), entries[i]), entries[i])
  }

  function Suffixed(lcp: nat, e: Bytes): Bytes
    requires lcp <= |e|
  {
    VGroups(lcp) + e[lcp..] + [0]
  }

  function FirstChunks(entries: seq<Bytes>, n: nat): (r: seq<Bytes>)
    ensures |r| == n
  {
    if n == 0 then [] else FirstChunks(entries, n - 1) + [Chunk(entries, n - 1)]
  }

  lemma {:induction false} FirstChunkAt(entries: seq<Bytes>, n: nat, i: nat)
    requires i < n
    ensures FirstChunks(entries, n)[i] == Chunk(entries, i)
  {
    var init, c := FirstChunks(entries, n - 1), Chunk(entries, n - 1);
    assert FirstChunks(entries, n) == init + [c];
    if i < n - 1 {
      FirstChunkAt(entries, n - 1, i);
      assert (init + [c])[i] == init[i];
    } else {
      assert (init + [c])[i] == c;
    }
  }

  function Chunks(entries: seq<Bytes>): seq<Bytes> { FirstChunks(entries, |entries|) }

  /** The bytes of the first `i` chunks. */
  function Data(chunks: seq<Bytes>, i: nat): Bytes
    requires i <= |chunks|
  {
    if i == 0 then [] else Data(chunks, i - 1) + chunks[i - 1]
  }

  /** Block starts among the first `i` chunks. */
  function Offsets(chunks: seq<Bytes>, i: nat): (r: seq<nat>)
    requires i <= |chunks|
    ensures |r| == (i + 15) / 16
  {
    if i == 0 then []
    else if (i - 1) % 16 == 0 then Offsets(chunks, i - 1) + [|Data(chunks, i - 1)|]
    else Offsets(chunks, i - 1)
  }

  /** What `write` leaves behind. */
  ghost predicate Written(sec: PfcSection, entries: seq<Bytes>) {
    var chunks := Chunks(entries);
    && sec.n == |entries| && sec.blocksize == BLOCK_SIZE
    && sec.data == Data(chunks, |chunks|)
    && sec.blocks.Stores(Offsets(chunks, |chunks|) + [|sec.data|])
  }

  method LcpLoop(a: Bytes, b: Bytes) returns (k: nat)
    ensures k == Lcp(a, b)
  {
    k := 0;
    while k < |a| && k < |b| && a[k] == b[k]
      invariant k <= |a| && k <= |b| && Lcp(a, b) == LcpFrom(a, b, k)
    {
      k := k + 1;
    }
  }

  ghost predicate Built(chunks: seq<Bytes>, i: nat, data: Bytes, offsets: seq<nat>)
    requires i <= |chunks|
  {
    data == Data(chunks, i) && offsets == Offsets(chunks, i)
  }

  lemma {:induction false} BuiltNext(chunks: seq<Bytes>, i: nat, data: Bytes, offsets: seq<nat>, added: Bytes)
    requires i < |chunks| && Built(chunks, i, data, offsets) && added == chunks[i]
    ensures Built(chunks, i + 1, data + added, if i % 16 == 0 then offsets + [|data|] else offsets)
  {
  }

  method WriteSection(entries: seq<Bytes>) returns (sec: PfcSection)
    ensures Written(sec, entries)
  {
    var data: Bytes := [];
    var offsets: seq<nat> := [];
    var prev: Bytes := [];
    for i := 0 to |entries|
      invariant Built(Chunks(entries), i, data, offsets)
      invariant prev == Before(entries, i)
    {
      var e := entries[i];
      FirstChunkAt(entries, |entries|, i);
      if i % 16 == 0 {
        BuiltNext(Chunks(entries), i, data, offsets, e + [0]);
        offsets := offsets + [|data|];
        data := data + (e + [0]);
      } else {
        var lcp := LcpLoop(prev, e);
        var o := new Out();
        o.VByte(lcp);
        assert o.buf == VGroups(lcp);
        BuiltNext(Chunks(entries), i, data, offsets, Suffixed(lcp, e));
        data := data + (o.buf + e[lcp..] + [0]);
      }
      prev := e;
    }
    offsets := offsets + [|data|];
    var blocks := WriteLogSeq(offsets);
    sec := PfcSection(|entries|, BLOCK_SIZE, blocks, data);
  }

  /** First position from `at` on that holds a NUL, or the end. */
  function NulFrom(data: Bytes, at: nat): (end: nat)
    requires at <= |data|
    ensures at <= end <= |data| && (forall i :: at <= i < end ==> data[i] != 0) && (end < |data| ==> data[end] == 0)
    decreases |data| - at
  {
    if at == |data| || data[at] == 0 then at else NulFrom(data, at + 1)
  }

  datatype Item = Corrupt | Item(text: Bytes, end: nat)

  /** Text up to the next NUL and the position after it. */
  function Text(data: Bytes, at: nat): Item {
    if at > |data| then Corrupt
    else
      var end := NulFrom(data, at);
      if end == |data| then Corrupt else Item(data[at..end], end + 1)
  }

  /** One entry at `at`, given its predecessor unless it heads a block. */
  function Step(data: Bytes, at: nat, head: bool, cur: Bytes): Item {
    if head then Text(data, at) else Extended(data, VRead(data, at, 0), cur)
  }

  function Extended(data: Bytes, read: VResult, cur: Bytes): Item {
    match read
    case Fail => Corrupt
    case Got(lcp, from) =>
      match Text(data, from)
      case Corrupt => Corrupt
      case Item(suffix, next) => if lcp > |cur| then Corrupt else Item(cur[..lcp] + suffix, next)
  }

  /** Entry `k` of the block that starts at `start`, and the position behind it. */
  function Walk(data: Bytes, start: nat, k: nat): Item {
    if k == 0 then Step(data, start, true, [])
    else
      match Walk(data, start, k - 1)
      case Corrupt => Corrupt
      case Item(cur, at) => Step(data, at, false, cur)
  }

  /** Entry `i` by random access; `None` for an index past the end and for
      corrupt data. */
  function EntryAt(sec: PfcSection, i: nat): Option<Bytes> {
    if i >= sec.n || sec.blocksize == 0 || !sec.blocks.Has(i / sec.blocksize) then None
    else
      match Walk(sec.data, sec.blocks.Get(i / sec.blocksize), i % sec.blocksize)
      case Corrupt => None
      case Item(cur, _) => Some(cur)
  }

  method WalkLoop(data: Bytes, start: nat, last: nat) returns (r: Item)
    ensures r == Walk(data, start, last)
  {
    var at := start;
    var cur: Bytes := [];
    for k := 0 to last + 1
      invariant k == 0 ==> at == start && cur == []
      invariant k > 0 ==> Walk(data, start, k - 1) == Item(cur, at)
    {
      var entry := Step(data, at, k == 0, cur);
      if entry.Corrupt? {
        WalkFails(data, start, k, last);
        return Corrupt;
      }
      cur, at := entry.text, entry.end;
    }
    return Item(cur, at);
  }

  method Get(sec: PfcSection, i: nat) returns (r: Option<Bytes>)
    ensures r == EntryAt(sec, i)
  {
    if i >= sec.n || sec.blocksize == 0 || !sec.blocks.Has(i / sec.blocksize) {
      return None;
    }
    var entry := WalkLoop(sec.data, sec.blocks.Get(i / sec.blocksize), i % sec.blocksize);
    match entry
    case Corrupt => return None;
    case Item(cur, _) => return Some(cur);
  }

  lemma {:induction false} WalkFails(data: Bytes, start: nat, k: nat, last: nat)
    requires k <= last && Walk(data, start, k).Corrupt?
    ensures Walk(data, start, last).Corrupt?
    decreases last
  {
    if k < last { WalkFails(data, start, k, last - 1); }
  }

  // ------------------------------------------------------- agreement

  predicate NulFree(s: Bytes) { 0 !in s }

  /** What is left of an entry whose own NUL ends it. */
  function UpToNul(e: Bytes): Bytes { e[..NulFrom(e, 0)] }

  /** Entries a section can hold: no NUL, and lengths a vbyte can carry. */
  ghost predicate Storable(entries: seq<Bytes>) { Short(entries) && NulFreeIn(entries, 0, |entries|) }

  ghost predicate Short(entries: seq<Bytes>) { forall i :: 0 <= i < |entries| ==> |entries[i]| < TOP }

  ghost predicate NulFreeIn(entries: seq<Bytes>, lo: nat, hi: nat)
    requires hi <= |entries|
  {
    forall i :: lo <= i < hi ==> NulFree(entries[i])
  }

  lemma {:induction false} NulIsAt(data: Bytes, at: nat, end: nat)
    requires at <= end <= |data| && (end < |data| ==> data[end] == 0) && forall i :: at <= i < end ==> data[i] != 0
    ensures NulFrom(data, at) == end
    decreases end - at
  {
    if at < end { NulIsAt(data, at + 1, end); }
  }

  lemma {:induction false} UpToNulWhole(e: Bytes)
    ensures UpToNul(e) == e <==> NulFree(e)
    ensures |UpToNul(e)| == |e| ==> NulFree(e)
  {
    var end := NulFrom(e, 0);
    if end < |e| { assert e[end] in e; }
    if UpToNul(e) == e { assert end == |e|; }
  }

  lemma {:induction false} UpToNulFrom(e: Bytes, k: nat)
    requires k <= |e| && NulFree(e[..k])
    ensures UpToNul(e) == e[..k] + UpToNul(e[k..])
  {
    var rest, end := e[k..], k + NulFrom(e[k..], 0);
    forall i | 0 <= i < end ensures e[i] != 0 {
      if i < k { assert e[i] in e[..k]; } else { assert e[i] == rest[i - k]; }
    }
    if end < |e| { assert e[end] == rest[end - k]; }
    NulIsAt(e, 0, end);
  }

  /** Text is read back up to its own first NUL. */
  lemma {:induction false} TextReads(pre: Bytes, text: Bytes, post: Bytes)
    ensures Text(pre + (text + [0] + post), |pre|) == Item(UpToNul(text), |pre| + |UpToNul(text)| + 1)
  {
    var data, end := pre + (text + [0] + post), NulFrom(text, 0);
    forall i | |pre| <= i < |pre| + end ensures data[i] != 0 { assert data[i] == text[i - |pre|]; }
    assert data[|pre| + end] == (text + [0])[end];
    NulIsAt(data, |pre|, |pre| + end);
    assert data[|pre|..|pre| + end] == text[..end];
  }

  /** Reading an entry yields it up to its first NUL, and ends behind it if it has none. */
  ghost predicate Reads(r: Item, e: Bytes, end: nat) {
    r.Item? && r.text == UpToNul(e) && (NulFree(e) ==> r.text == e && r.end == end)
  }

  lemma {:induction false} DataPrefix(chunks: seq<Bytes>, i: nat, n: nat)
    requires i <= n <= |chunks|
    ensures Data(chunks, i) <= Data(chunks, n)
    decreases n
  {
    if i < n { DataPrefix(chunks, i, n - 1); }
  }

  lemma {:induction false} DataSplits(chunks: seq<Bytes>, i: nat) returns (post: Bytes)
    requires i < |chunks|
    ensures Data(chunks, |chunks|) == Data(chunks, i) + chunks[i] + post
  {
    DataPrefix(chunks, i + 1, |chunks|);
    post := Data(chunks, |chunks|)[|Data(chunks, i + 1)|..];
  }

  lemma {:induction false} SuffixReads(pre: Bytes, cur: Bytes, lcp: nat, e: Bytes, post: Bytes)
    requires lcp <= |cur| && lcp <= |e| && cur[..lcp] == e[..lcp] && lcp < TOP && NulFree(cur)
    ensures Reads(Step(pre + Suffixed(lcp, e) + post, |pre|, false, cur), e, |pre| + |Suffixed(lcp, e)|)
  {
    var groups, suffix := VGroups(lcp), e[lcp..];
    var data := pre + Suffixed(lcp, e) + post;
    assert data == pre + groups + (suffix + [0] + post);
    VByteRoundTrip(pre, lcp, suffix + [0] + post);
    assert data == (pre + groups) + (suffix + [0] + post);
    TextReads(pre + groups, suffix, post);
    assert forall x :: x in cur[..lcp] ==> x in cur;
    UpToNulFrom(e, lcp);
    UpToNulWhole(e);
  }

  lemma {:induction false} HeadReads(pre: Bytes, e: Bytes, post: Bytes, cur: Bytes)
    ensures Reads(Step(pre + (e + [0]) + post, |pre|, true, cur), e, |pre| + |e + [0]|)
  {
    assert pre + (e + [0]) + post == pre + (e + [0] + post);
    TextReads(pre, e, post);
    UpToNulWhole(e);
  }

  lemma {:induction false} ChunkReads(pre: Bytes, entries: seq<Bytes>, i: nat, post: Bytes, cur: Bytes)
    requires i < |entries| && |entries[i]| < TOP && (i % 16 == 0 || (cur == Before(entries, i) && NulFree(cur)))
    ensures Reads(Step(pre + Chunk(entries, i) + post, |pre|, i % 16 == 0, cur), entries[i],
                  |pre| + |Chunk(entries, i)|)
  {
    if i % 16 == 0 {
      HeadReads(pre, entries[i], post, cur);
    } else {
      LcpShared(cur, entries[i], 0);
      SuffixReads(pre, cur, Lcp(cur, entries[i]), entries[i], post);
    }
  }

  function Before(entries: seq<Bytes>, i: nat): Bytes {
    if 0 < i <= |entries| then entries[i - 1] else []
  }

  /** Entry `i` reads back where it was written. */
  ghost predicate StepsTo(data: Bytes, chunks: seq<Bytes>, entries: seq<Bytes>, i: nat)
    requires i < |entries| == |chunks|
  {
    Reads(Step(data, |Data(chunks, i)|, i % 16 == 0, Before(entries, i)), entries[i], |Data(chunks, i + 1)|)
  }

  lemma {:induction false} StepAt(data: Bytes, chunks: seq<Bytes>, entries: seq<Bytes>, i: nat, pre: Bytes, c: Bytes)
    requires i < |entries| == |chunks| && pre == Data(chunks, i) && c == chunks[i]
    requires Reads(Step(data, |pre|, i % 16 == 0, Before(entries, i)), entries[i], |pre| + |c|)
    ensures StepsTo(data, chunks, entries, i)
  {
    assert Data(chunks, i + 1) == pre + c;
  }

  lemma {:induction false} StepReads(data: Bytes, entries: seq<Bytes>, i: nat)
    requires data == Data(Chunks(entries), |entries|) && Short(entries) && i < |entries|
    requires i % 16 == 0 || NulFree(Before(entries, i))
    ensures StepsTo(data, Chunks(entries), entries, i)
  {
    var chunks := Chunks(entries);
    var post := DataSplits(chunks, i);
    var pre, c := Data(chunks, i), Chunk(entries, i);
    FirstChunkAt(entries, |entries|, i);
    assert Reads(Step(data, |pre|, i % 16 == 0, Before(entries, i)), entries[i], |pre| + |c|) by {
      ChunkReads(pre, entries, i, post, Before(entries, i));
      assert data == pre + c + post;
    }
    StepAt(data, chunks, entries, i, pre, c);
  }

  /** A block head does not depend on the entry before it. */
  lemma {:induction false} HeadIgnores(data: Bytes, at: nat, a: Bytes, b: Bytes)
    ensures Step(data, at, true, a) == Step(data, at, true, b)
  {
  }

  lemma {:induction false} OffsetAt(chunks: seq<Bytes>, b: nat, n: nat)
    requires b * 16 < n <= |chunks|
    ensures b < |Offsets(chunks, n)| && Offsets(chunks, n)[b] == |Data(chunks, b * 16)|
    decreases n
  {
    if n - 1 > b * 16 {
      OffsetAt(chunks, b, n - 1);
    } else {
      assert |Offsets(chunks, n - 1)| == b;
    }
  }

  lemma {:induction false} BlockStart(sec: PfcSection, entries: seq<Bytes>, block: nat)
    requires Written(sec, entries) && block * 16 < |entries|
    ensures sec.blocks.Has(block) && sec.blocks.Get(block) == |Data(Chunks(entries), block * 16)|
  {
    OffsetAt(Chunks(entries), block, |entries|);
    var all := Offsets(Chunks(entries), |entries|) + [|sec.data|];
    assert sec.blocks.Has(block) && all[block] == |Data(Chunks(entries), block * 16)|;
  }

  lemma {:induction false} DivideBy(i: nat, blocksize: nat)
    requires blocksize == 16
    ensures i / blocksize == i / 16 && i % blocksize == i % 16
  {
  }

  lemma {:induction false} WalkNext(data: Bytes, start: nat, j: nat, k: nat, cur: Bytes, at: nat, next: Item)
    requires k == j + 1 && Walk(data, start, j) == Item(cur, at) && Step(data, at, false, cur) == next
    ensures Walk(data, start, k) == next
  {
  }

  lemma {:induction false} StepInside(data: Bytes, chunks: seq<Bytes>, entries: seq<Bytes>, h: nat, i: nat, next: nat)
    requires i < |entries| == |chunks| && i == h + 1 && next == i + 1 && i % 16 != 0
             && StepsTo(data, chunks, entries, i)
    ensures Reads(Step(data, |Data(chunks, i)|, false, entries[h]), entries[i], |Data(chunks, next)|)
  {
  }

  lemma {:induction false} StepHead(data: Bytes, chunks: seq<Bytes>, entries: seq<Bytes>, i: nat)
    requires i < |entries| == |chunks| && i % 16 == 0 && StepsTo(data, chunks, entries, i)
    ensures Reads(Walk(data, |Data(chunks, i)|, 0), entries[i], |Data(chunks, i + 1)|)
  {
    HeadIgnores(data, |Data(chunks, i)|, [], Before(entries, i));
  }

  lemma {:induction false} InsideBlock(first: nat, k: nat, i: nat)
    requires first % 16 == 0 && k < 16 && i == first + k
    ensures i % 16 == k
  {
    DivUnique(i, first / 16, k, 16);
  }

  /** Walking a block reads every entry up to its first NUL, as long as no entry
      before it in the block holds one. */
  lemma {:induction false} WalkReads(data: Bytes, entries: seq<Bytes>, first: nat, k: nat, i: nat, next: nat)
    requires data == Data(Chunks(entries), |entries|) && Short(entries)
    requires first % 16 == 0 && k < 16 && i == first + k && next == i + 1 && i < |entries|
    requires NulFreeIn(entries, first, i)
    ensures Reads(Walk(data, |Data(Chunks(entries), first)|, k), entries[i], |Data(Chunks(entries), next)|)
    decreases k
  {
    var chunks := Chunks(entries);
    InsideBlock(first, k, i);
    if k > 0 {
      var h, j := i - 1, k - 1;
      WalkReads(data, entries, first, j, h, i);
      StepReads(data, entries, i);
      StepInside(data, chunks, entries, h, i, next);
      WalkNext(data, |Data(chunks, first)|, j, k, entries[h], |Data(chunks, i)|,
          Step(data, |Data(chunks, i)|, false, entries[h]));
    } else {
      StepReads(data, entries, i);
      StepHead(data, chunks, entries, first);
    }
  }

  lemma {:induction false} EntryFound(sec: PfcSection, i: nat, block: nat, k: nat, start: nat, entry: Bytes, end: nat)
    requires i < sec.n && sec.blocksize == 16 && block == i / 16 && k == i % 16
    requires sec.blocks.Has(block) && sec.blocks.Get(block) == start && Walk(sec.data, start, k) == Item(entry, end)
    ensures EntryAt(sec, i) == Some(entry)
  {
    DivideBy(i, sec.blocksize);
  }

  lemma {:induction false} InBlock(i: nat)
    ensures i == i / 16 * 16 + i % 16 && i / 16 * 16 % 16 == 0 && i % 16 < 16
  {
  }

  /** Random access returns an entry up to its first NUL, if the entries before it
      in its block hold none. */
  lemma {:induction false} GetReads(sec: PfcSection, entries: seq<Bytes>, i: nat)
    requires Written(sec, entries) && Short(entries) && i < |entries| && NulFreeIn(entries, i / 16 * 16, i)
    ensures EntryAt(sec, i) == Some(UpToNul(entries[i]))
  {
    var block, k := i / 16, i % 16;
    InBlock(i);
    assert |Chunks(entries)| == |entries|;
    BlockStart(sec, entries, block);
    WalkReads(sec.data, entries, block * 16, k, i, i + 1);
    var start := |Data(Chunks(entries), block * 16)|;
    EntryFound(sec, i, block, k, start, UpToNul(entries[i]), Walk(sec.data, start, k).end);
  }

  /** Random access returns the written entry, for every index. */
  lemma {:induction false} GetAgrees(sec: PfcSection, entries: seq<Bytes>, i: nat)
    requires Written(sec, entries) && Storable(entries)
    ensures EntryAt(sec, i) == if i < |entries| then Some(entries[i]) else None
  {
    if i < |entries| {
      GetReads(sec, entries, i);
      UpToNulWhole(entries[i]);
    }
  }

  lemma {:induction false} FirstWithNul(entries: seq<Bytes>, n: nat) returns (i: nat)
    requires n <= |entries| && !NulFreeIn(entries, 0, n)
    ensures i < n && !NulFree(entries[i]) && NulFreeIn(entries, 0, i)
  {
    if NulFreeIn(entries, 0, n - 1) { i := n - 1; } else { i := FirstWithNul(entries, n - 1); }
  }

  /** Random access returns every written entry exactly when none holds a NUL. */
  lemma {:induction false} AllReadIff(sec: PfcSection, entries: seq<Bytes>)
    requires Written(sec, entries) && Short(entries)
    ensures (forall i :: 0 <= i < |entries| ==> EntryAt(sec, i) == Some(entries[i])) <==> Storable(entries)
  {
    if Storable(entries) {
      forall i | 0 <= i < |entries| { GetAgrees(sec, entries, i); }
    } else {
      var i := FirstWithNul(entries, |entries|);
      GetReads(sec, entries, i);
      UpToNulWhole(entries[i]);
    }
  }

  /** One step of the iterator: from the recorded offset at a block head, from
      where it stands otherwise. */
  lemma {:induction false} NextReads(sec: PfcSection, entries: seq<Bytes>, i: nat, at: nat, cur: Bytes)
    requires Written(sec, entries) && Short(entries) && i < |entries|
    requires i % 16 != 0 ==> at == |Data(Chunks(entries), i)| && cur == Before(entries, i) && NulFree(cur)
    ensures i % 16 == 0 ==> sec.blocks.Has(i / 16)
    ensures Reads(Step(sec.data, if i % 16 == 0 then sec.blocks.Get(i / 16) else at, i % 16 == 0, cur), entries[i],
                  |Data(Chunks(entries), i + 1)|)
  {
    StepReads(sec.data, entries, i);
    if i % 16 == 0 {
      BlockStart(sec, entries, i / 16);
      HeadIgnores(sec.data, |Data(Chunks(entries), i)|, cur, Before(entries, i));
    }
  }

  /** The block-sequential iterator. */
  class PfcIter {
    const sec: PfcSection
    var next: nat
    var at: nat
    var cur: Bytes

    constructor (sec: PfcSection)
      ensures this.sec == sec && next == 0
    {
      this.sec := sec;
      next, at, cur := 0, 0, [];
    }

    /** Between items the iterator stands behind the last one it returned. */
    ghost predicate Follows(entries: seq<Bytes>)
      reads this
    {
      && Written(sec, entries) && Short(entries) && next <= |entries| && NulFreeIn(entries, 0, next)
      && (next > 0 ==> at == |Data(Chunks(entries), next)| && cur == Before(entries, next))
    }

    lemma {:induction false} FollowsReads(entries: seq<Bytes>)
      requires Follows(entries) && next < sec.n
      ensures sec.n == |entries| && sec.blocksize != 0
      ensures next % sec.blocksize == 0 ==> sec.blocks.Has(next / sec.blocksize)
      ensures var head := next % sec.blocksize == 0;
              Reads(Step(sec.data, if head then sec.blocks.Get(next / sec.blocksize) else at, head, cur), entries[next],
                    |Data(Chunks(entries), next + 1)|)
    {
      DivideBy(next, sec.blocksize);
      NextReads(sec, entries, next, at, cur);
    }

    /** `None` at the end, `Some(None)` for corrupt data; over a written section
        the written entries in turn, as far as the first that holds a NUL. */
    method Next(ghost entries: seq<Bytes>) returns (r: Option<Option<Bytes>>)
      modifies this
      ensures next == if r.None? then old(next) else old(next) + 1
      ensures old(Follows(entries)) ==>
                && r == (if old(next) < |entries| then Some(Some(UpToNul(entries[old(next)]))) else None)
                && (Follows(entries) <==> NulFreeIn(entries, 0, next))
    {
      if next >= sec.n || sec.blocksize == 0 {
        return None;
      }
      var head := next % sec.blocksize == 0;
      ghost var i := next;
      ghost var follows := Follows(entries);
      if follows { FollowsReads(entries); }
      var ok := Seek(head);
      if !ok {
        next := next + 1;
        return Some(None);
      }
      r := Advance(head);
      if follows {
        UpToNulWhole(entries[i]);
        if NulFree(entries[i]) { FollowsOn(entries, i); }
      }
    }

    lemma {:induction false} FollowsOn(entries: seq<Bytes>, i: nat)
      requires Written(sec, entries) && Short(entries) && i < |entries| && NulFreeIn(entries, 0, i + 1)
      requires next == i + 1 && cur == entries[i] && at == |Data(Chunks(entries), i + 1)|
      ensures Follows(entries)
    {
    }

    /** A block head is decoded from its recorded offset. */
    method Seek(head: bool) returns (ok: bool)
      requires sec.blocksize != 0
      modifies this
      ensures next == old(next) && cur == old(cur)
      ensures ok == (head ==> sec.blocks.Has(next / sec.blocksize))
      ensures ok ==> at == if head then sec.blocks.Get(next / sec.blocksize) else old(at)
    {
      if head {
        if !sec.blocks.Has(next / sec.blocksize) {
          return false;
        }
        at := sec.blocks.Get(next / sec.blocksize);
      }
      return true;
    }

    /** Decodes one entry where the iterator stands. */
    method Advance(head: bool) returns (r: Option<Option<Bytes>>)
      modifies this
      ensures next == old(next) + 1 && r.Some?
      ensures match Step(sec.data, old(at), head, old(cur))
              case Corrupt => r.value == None
              case Item(text, end) => r.value == Some(text) && cur == text && at == end
    {
      var step := Step(sec.data, at, head, cur);
      next := next + 1;
      if step.Corrupt? {
        return Some(None);
      }
      cur, at := step.text, step.end;
      return Some(Some(cur));
    }
  }

  ghost predicate Differs(out: seq<Bytes>, entries: seq<Bytes>) {
    exists i :: 0 <= i < |out| && i < |entries| && out[i] != entries[i]
  }

  lemma {:induction false} StillDiffers(before: seq<Bytes>, out: seq<Bytes>, entries: seq<Bytes>)
    requires before <= out && Differs(before, entries)
    ensures Differs(out, entries)
  {
    var i :| 0 <= i < |before| && i < |entries| && before[i] != entries[i];
    assert out[i] == before[i];
  }

  /** Collecting the iterator yields the written list exactly when no entry holds a NUL. */
  method Collect(sec: PfcSection, ghost entries: seq<Bytes>) returns (r: Option<seq<Bytes>>)
    ensures Written(sec, entries) && Short(entries) ==> (r == Some(entries) <==> Storable(entries))
  {
    var it := new PfcIter(sec);
    var out: seq<Bytes> := [];
    ghost var written := Written(sec, entries) && Short(entries);
    while it.next < sec.n
      invariant it.sec == sec && fresh(it)
      invariant written ==> (it.Follows(entries) && out == entries[..it.next]) ||
                            (Differs(out, entries) && !Storable(entries))
      decreases sec.n - it.next
    {
      ghost var i := it.next;
      if i < |entries| {
        TakeNext(entries, i);
        UpToNulWhole(entries[i]);
      }
      var item := it.Next(entries);
      if item.None? || item.value.None? {
        return None;
      }
      ghost var before := out;
      out := out + [item.value.value];
      if written {
        if Differs(before, entries) {
          StillDiffers(before, out, entries);
        } else {
          assert out[i] == UpToNul(entries[i]);
        }
      }
    }
    TakeAll(entries);
    return Some(out);
  }
}
