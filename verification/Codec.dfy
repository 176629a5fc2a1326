/** Byte buffers, variable-length integers and packed bit streams of the HDT
    format (crates/graphy-hdt/src/codec.rs). */
module Codec {
  import opened Seqs
  import opened Terms
  import opened Arith

  const TOP: int := 0x8000_0000_0000_0000

  // ------------------------------------------------------- vbyte

  /** Seven bits a byte, least significant first, high bit on the last. */
  function VGroups(v: nat): (r: Bytes)
    ensures |r| > 0
  {
    if v < 128 then [v + 128] else [v % 128] + VGroups(v / 128)
  }

  datatype VResult = Fail | Got(value: nat, end: nat)

  /** The value from `pos` on and the position after it, `k` bytes into it;
      `None` at the end of the data and from the tenth byte on. */
  function VRead(data: Bytes, pos: nat, k: nat): (r: VResult)
    ensures r.Got? ==> pos < r.end <= |data|
    decreases |data| - pos
  {
    if pos >= |data| || k >= 9 then Fail
    else if data[pos] >= 128 then Got(data[pos] - 128, pos + 1)
    else
      match VRead(data, pos + 1, k + 1)
      case Fail => Fail
      case Got(v, end) => Got(data[pos] + 128 * v, end)
  }

  /** What a reader that has accumulated `v` so far returns for the bytes left. */
  function Accumulated(v: nat, weight: nat, r: VResult): VResult {
    match r
    case Fail => Fail
    case Got(u, end) => Got(v + weight * u, end)
  }

  lemma {:induction false} AccumulateGroup(v: nat, weight: nat, d: nat, r: VResult)
    ensures v + weight * d >= 0 && weight * 128 >= 0
    ensures r.Got? ==>
              Accumulated(v, weight, Got(d + 128 * r.value, r.end)) == Accumulated(v + weight * d, weight * 128, r)
  {
    if r.Got? { GroupShift(weight, d, r.value); }
  }

  class Out {
    var buf: Bytes

    constructor ()
      ensures buf == []
    {
      buf := [];
    }

    method VByte(v: nat)
      modifies this
      ensures buf == old(buf) + VGroups(v)
    {
      var rest := v;
      while true
        invariant buf + VGroups(rest) == old(buf) + VGroups(v)
        decreases rest
      {
        var b := rest % 128;
        rest := rest / 128;
        if rest == 0 {
          buf := buf + [b + 128];
          return;
        }
        buf := buf + [b];
      }
    }
  }

  class Cur {
    const data: Bytes
    var pos: nat

    constructor (data: Bytes)
      ensures this.data == data && pos == 0
    {
      this.data := data;
      pos := 0;
    }

    method NextByte() returns (r: Option<Byte>)
      modifies this
      ensures old(pos) < |data| ==> r == Some(data[old(pos)]) && pos == old(pos) + 1
      ensures old(pos) >= |data| ==> r == None && pos == old(pos)
    {
      if pos >= |data| {
        return None;
      }
      r := Some(data[pos]);
      pos := pos + 1;
    }

    /** The cursor ends just behind the value it read. */
    method VByte() returns (r: Option<nat>)
      modifies this
      ensures var read := VRead(data, old(pos), 0);
              if read.Fail? then r == None else r == Some(read.value) && pos == read.end
    {
      var v: nat, weight: nat, k: nat := 0, 1, 0;
      ghost var goal := VRead(data, pos, 0);
      while true
        invariant k <= 9
        invariant goal == Accumulated(v, weight, VRead(data, pos, k))
        decreases 10 - k
      {
        var b := NextByte();
        if b.None? || k >= 9 {
          return None;
        }
        var d: nat := b.value % 128;
        AccumulateGroup(v, weight, d, VRead(data, pos, k + 1));
        v := v + weight * d;
        weight := weight * 128;
        k := k + 1;
        if b.value >= 128 {
          return Some(v);
        }
      }
    }
  }

  /** Values that fit in the bytes left when `k` are read. */
  function Cap(k: nat): nat
    decreases 9 - k
  {
    if k >= 9 then 0 else if k == 8 then 128 else Cap(k + 1) * 128
  }

  lemma {:induction false} CapIsTop()
    ensures Cap(0) == TOP
  {
    assert Cap(6) == 128 * 128 * 128;
    assert Cap(4) == 128 * 128 * 128 * 128 * 128;
    assert Cap(2) == 128 * 128 * 128 * 128 * 128 * 128 * 128;
  }

  lemma {:induction false} VReadGroups(data: Bytes, pos: nat, k: nat, x: nat, post: Bytes)
    requires k <= 9 && pos <= |data| && data[pos..] == VGroups(x) + post
    ensures VRead(data, pos, k) == if x < Cap(k) then Got(x, pos + |VGroups(x)|) else Fail
    decreases x
  {
    assert data[pos] == data[pos..][0] == VGroups(x)[0];
    if x < 128 {
      CapAtLeast(k);
    } else if k < 9 {
      assert data[pos + 1..] == data[pos..][1..];
      assert (VGroups(x) + post)[1..] == VGroups(x / 128) + post;
      VReadGroups(data, pos + 1, k + 1, x / 128, post);
    }
  }

  lemma {:induction false} CapAtLeast(k: nat)
    ensures k < 9 ==> Cap(k) >= 128
    decreases 9 - k
  {
    if k < 8 { CapAtLeast(k + 1); }
  }

  /** What is written reads back, consuming exactly the bytes written, when it is
      below 2^63; every larger value is refused. */
  lemma {:induction false} VByteRoundTrip(pre: Bytes, v: nat, post: Bytes)
    ensures VRead(pre + VGroups(v) + post, |pre|, 0)
            == if v < TOP then Got(v, |pre| + |VGroups(v)|) else Fail
  {
    CapIsTop();
    var data := pre + VGroups(v) + post;
    assert data[|pre|..] == VGroups(v) + post;
    VReadGroups(data, |pre|, 0, v, post);
  }

  // ------------------------------------------------------- packed bits

  /** `v >> j & 1 != 0`. */
  predicate Bit(v: nat, j: nat) {
    if j == 0 then v % 2 == 1 else Bit(v / 2, j - 1)
  }

  /** `v | 1 << j`. */
  function SetBit(v: nat, j: nat): nat {
    if j == 0 then v / 2 * 2 + 1 else 2 * SetBit(v / 2, j - 1) + v % 2
  }

  lemma {:induction false} SetBitBits(v: nat, j: nat, i: nat)
    ensures Bit(SetBit(v, j), i) <==> i == j || Bit(v, i)
  {
    if j > 0 && i > 0 { SetBitBits(v / 2, j - 1, i - 1); }
  }

  lemma {:induction false} SetBitBound(v: nat, j: nat, n: nat)
    requires j < n && v < Pow2(n)
    ensures SetBit(v, j) < Pow2(n)
  {
    var half := Pow2(n - 1);
    assert v / 2 < half;
    if j > 0 { SetBitBound(v / 2, j - 1, n - 1); }
  }

  lemma {:induction false} SetBitByte(b: Byte, j: nat)
    requires j < 8
    ensures SetBit(b, j) < 256
  {
    assert Pow2(4) == 16;
    SetBitBound(b, j, 8);
  }

  lemma {:induction false} ZeroBits(j: nat)
    ensures !Bit(0, j)
  {
    if j > 0 { ZeroBits(j - 1); }
  }

  /** Bit `p` of the stream: bit `p % 8` of byte `p / 8`. */
  predicate StreamBit(buf: Bytes, p: nat)
    requires p < 8 * |buf|
  {
    Bit(buf[p / 8], p % 8)
  }

  /** The `w` bits from `base` on as a number, least significant first. */
  function Slice(buf: Bytes, base: nat, w: nat): nat
    requires base + w <= 8 * |buf|
    decreases w
  {
    if w == 0 then 0 else (if StreamBit(buf, base) then 1 else 0) + 2 * Slice(buf, base + 1, w - 1)
  }

  lemma {:induction false} OneBit(weight: nat, rest: nat)
    ensures weight * (1 + 2 * rest) == weight + weight * 2 * rest
    ensures weight * (2 * rest) == weight * 2 * rest
  {
  }

  method ReadBits(buf: Bytes, base: nat, w: nat) returns (v: nat)
    requires base + w <= 8 * |buf|
    ensures v == Slice(buf, base, w)
  {
    v := 0;
    var weight: nat := 1;
    for j := 0 to w
      invariant Slice(buf, base, w) == v + weight * Slice(buf, base + j, w - j)
    {
      OneBit(weight, Slice(buf, base + j + 1, w - j - 1));
      if StreamBit(buf, base + j) {
        v := v + weight;
      }
      weight := weight * 2;
    }
  }

  method BitsGet(buf: Bytes, w: nat, k: nat) returns (v: nat)
    requires k * w >= 0 && k * w + w <= 8 * |buf|
    ensures v == Slice(buf, k * w, w)
  {
    v := ReadBits(buf, k * w, w);
  }

  /** Bit `p` of the stream that packs `vs` at width `w`. */
  predicate WantBit(vs: seq<nat>, w: nat, p: nat)
    requires w > 0
  {
    p / w < |vs| && Bit(vs[p / w], p % w)
  }

  /** The stream holds the bits of `vs` below position `end` and zeros above. */
  ghost predicate Holds(buf: Bytes, vs: seq<nat>, w: nat, end: nat)
    requires w > 0
  {
    forall p :: 0 <= p < 8 * |buf| ==> (StreamBit(buf, p) <==> p < end && WantBit(vs, w, p))
  }

  lemma {:induction false} Locate(i: nat, j: nat, w: nat)
    requires j < w
    ensures i * w >= 0 && (i * w + j) / w == i && (i * w + j) % w == j
  {
    DivUnique(i * w + j, i, j, w);
  }

  /** Value `k` of `n` lies inside the stream. */
  lemma {:induction false} Inside(k: nat, n: nat, w: nat)
    requires k < n
    ensures 0 <= k * w && k * w + w <= n * w
  {
    assert n * w == k * w + w + (n - k - 1) * w;
  }

  /** One round of the inner loop. */
  lemma {:induction false} PackStep(old_: Bytes, new_: Bytes, vs: seq<nat>, w: nat, i: nat, j: nat, end: nat)
    requires j < w && i < |vs| && end == i * w + j && end < 8 * |old_| && |new_| == |old_|
    requires Holds(old_, vs, w, end)
    requires new_ == if Bit(vs[i], j) then old_[end / 8 := new_[end / 8]] else old_
    requires Bit(vs[i], j) ==> new_[end / 8] == SetBit(old_[end / 8], end % 8)
    ensures Holds(new_, vs, w, end + 1)
  {
    Locate(i, j, w);
    forall p | 0 <= p < 8 * |new_| ensures StreamBit(new_, p) <==> p < end + 1 && WantBit(vs, w, p) {
      assert StreamBit(old_, p) <==> p < end && WantBit(vs, w, p);
      if Bit(vs[i], j) && p / 8 == end / 8 {
        SetBitBits(old_[end / 8], end % 8, p % 8);
      }
    }
  }

  /** The inner loop of `bits_pack`: the bits of value `i`. */
  method PackValue(buf: array<Byte>, vs: seq<nat>, w: nat, i: nat, base: nat)
    requires w > 0 && i < |vs| && base == i * w && base + w <= 8 * buf.Length
    requires Holds(buf[..], vs, w, base)
    modifies buf
    ensures Holds(buf[..], vs, w, base + w)
  {
    for j := 0 to w
      invariant Holds(buf[..], vs, w, base + j)
    {
      ghost var before := buf[..];
      var bit := base + j;
      if Bit(vs[i], j) {
        SetBitByte(buf[bit / 8], bit % 8);
        buf[bit / 8] := SetBit(buf[bit / 8], bit % 8);
      }
      PackStep(before, buf[..], vs, w, i, j, bit);
    }
  }

  lemma {:induction false} ZeroHolds(buf: Bytes, vs: seq<nat>, w: nat)
    requires w > 0 && forall i :: 0 <= i < |buf| ==> buf[i] == 0
    ensures Holds(buf, vs, w, 0)
  {
    forall p | 0 <= p < 8 * |buf| ensures !StreamBit(buf, p) { ZeroBits(p % 8); }
  }

  /** `bits_pack`: the bytes hold exactly the bits of the values, in order. */
  method BitsPack(vs: seq<nat>, w: nat) returns (buf: array<Byte>)
    requires w > 0
    ensures fresh(buf)
    ensures |vs| * w >= 0 && buf.Length == (|vs| * w + 7) / 8
    ensures Holds(buf[..], vs, w, |vs| * w)
  {
    var bits: nat := |vs| * w;
    buf := new Byte[(bits + 7) / 8](i => 0);
    ZeroHolds(buf[..], vs, w);
    var base: nat := 0;
    for i := 0 to |vs|
      invariant base == i * w
      invariant Holds(buf[..], vs, w, base)
    {
      Inside(i, |vs|, w);
      assert base + w <= bits <= 8 * buf.Length;
      PackValue(buf, vs, w, i, base);
      base := base + w;
    }
  }

  lemma {:induction false} SliceIs(buf: Bytes, base: nat, w: nat, v: nat)
    requires base + w <= 8 * |buf| && v < Pow2(w)
    requires forall j :: 0 <= j < w ==> (StreamBit(buf, base + j) <==> Bit(v, j))
    ensures Slice(buf, base, w) == v
    decreases w
  {
    if w > 0 {
      assert StreamBit(buf, base + 0) <==> Bit(v, 0);
      forall j | 0 <= j < w - 1 ensures StreamBit(buf, base + 1 + j) <==> Bit(v / 2, j) {
        assert StreamBit(buf, base + (j + 1)) <==> Bit(v, j + 1);
      }
      SliceIs(buf, base + 1, w - 1, v / 2);
    }
  }

  /** Reading position `k` of a packed stream gives back value `k`, for every
      width and every list of values that fit. */
  lemma {:induction false} PackedReads(buf: Bytes, vs: seq<nat>, w: nat, k: nat)
    requires w > 0 && k < |vs| && vs[k] < Pow2(w)
    requires |vs| * w <= 8 * |buf| && Holds(buf, vs, w, |vs| * w)
    ensures k * w >= 0 && k * w + w <= 8 * |buf| && Slice(buf, k * w, w) == vs[k]
  {
    Inside(k, |vs|, w);
    forall j | 0 <= j < w ensures StreamBit(buf, k * w + j) <==> Bit(vs[k], j) {
      Locate(k, j, w);
    }
    SliceIs(buf, k * w, w, vs[k]);
  }

  /** `bits_for`: the least positive width that holds `max`. */
  function BitsFor(max: nat): (w: nat)
    ensures w >= 1 && max < Pow2(w)
  {
    if max < 2 then 1 else BitsFor(max / 2) + 1
  }

  /** No narrower width does. */
  lemma {:induction false} BitsForLeast(max: nat, u: nat)
    requires 1 <= u < BitsFor(max)
    ensures max >= Pow2(u)
  {
    if u > 1 { BitsForLeast(max / 2, u - 1); }
  }

  /** Packing at the width of the maximum loses nothing. */
  lemma {:induction false} PackedAtMax(buf: Bytes, vs: seq<nat>, max: nat, k: nat)
    requires k < |vs| && forall v :: v in vs ==> v <= max
    requires |vs| * BitsFor(max) <= 8 * |buf| && Holds(buf, vs, BitsFor(max), |vs| * BitsFor(max))
    ensures var w := BitsFor(max); k * w >= 0 && k * w + w <= 8 * |buf| && Slice(buf, k * w, w) == vs[k]
  {
    assert vs[k] in vs;
    PackedReads(buf, vs, BitsFor(max), k);
  }
}
