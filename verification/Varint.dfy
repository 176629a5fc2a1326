/** LEB128 lengths inside concise triple terms (crates/graphy-core/src/lib.rs). */
module Varint {
  import opened Seqs
  import opened Terms
  import opened Arith

  const U64: int := 0x1_0000_0000_0000_0000

  /** The groups of `v`, least significant first, high bit on all but the last. */
  function Groups(v: nat): (r: Bytes)
    ensures |r| > 0
  {
    if v < 128 then [v] else [v % 128 + 128] + Groups(v / 128)
  }

  method Write(buf: Bytes, v: nat) returns (out: Bytes)
    ensures out == buf + Groups(v)
  {
    out := buf;
    var rest := v;
    while true
      invariant out + Groups(rest) == buf + Groups(v)
      decreases rest
    {
      var byte := rest % 128;
      if rest / 128 == 0 {
        return out + [byte];
      }
      out := out + [byte + 128];
      rest := rest / 128;
    }
  }

  /** Value of the groups from index `i` on and the index after them;
      `None` on truncation or overflow of 64 bits. */
  function ReadAt(buf: Bytes, i: nat): (r: Option<(nat, nat)>)
    ensures r.Some? ==> i < r.value.1 <= |buf|
    decreases |buf| - i
  {
    if i >= 10 || i >= |buf| then None
    else if buf[i] < 128 then
      if i == 9 && buf[i] > 1 then None else Some((buf[i], i + 1))
    else
      match ReadAt(buf, i + 1)
      case None => None
      case Some(r) => Some((buf[i] - 128 + 128 * r.0, r.1))
  }

  /** What a reader that has accumulated `v` so far returns for the groups left. */
  function Accumulated(v: nat, weight: nat, r: Option<(nat, nat)>): Option<(nat, nat)> {
    match r
    case None => None
    case Some(x) => Some((v + weight * x.0, x.1))
  }

  /** Values that still fit in the 64 bits when the next group is number `i`. */
  function Room(i: nat): (n: nat)
    requires i <= 9
    decreases 9 - i
  {
    if i == 9 then 2 else Room(i + 1) * 128
  }

  lemma {:induction false} RoomIsU64()
    ensures Room(0) == U64
  {
    assert Room(7) == 2 * 128 * 128;
    assert Room(5) == 2 * 128 * 128 * 128 * 128;
    assert Room(3) == 2 * 128 * 128 * 128 * 128 * 128 * 128;
    assert Room(1) == 2 * 128 * 128 * 128 * 128 * 128 * 128 * 128 * 128;
  }

  lemma {:induction false} ReadGroups(buf: Bytes, i: nat, x: nat, rest: Bytes)
    requires i <= 9 && i <= |buf| && buf[i..] == Groups(x) + rest
    requires x < Room(i)
    ensures ReadAt(buf, i) == Some((x, i + |Groups(x)|))
    decreases x
  {
    assert buf[i] == buf[i..][0] == Groups(x)[0];
    if x >= 128 {
      assert buf[i + 1..] == buf[i..][1..];
      assert (Groups(x) + rest)[1..] == Groups(x / 128) + rest;
      ReadGroups(buf, i + 1, x / 128, rest);
    }
  }

  /** Every u64 reads back as itself, consuming exactly what was written. */
  lemma {:induction false} RoundTrip(x: nat, rest: Bytes)
    requires x < U64
    ensures ReadAt(Groups(x) + rest, 0) == Some((x, |Groups(x)|))
  {
    RoomIsU64();
    var buf := Groups(x) + rest;
    assert buf[0..] == buf;
    ReadGroups(buf, 0, x, rest);
  }

  lemma {:induction false} ReadRoom(buf: Bytes, i: nat)
    requires i <= 9 && ReadAt(buf, i).Some?
    ensures ReadAt(buf, i).value.0 < Room(i)
    decreases 9 - i
  {
    if buf[i] >= 128 {
      ReadRoom(buf, i + 1);
    } else if i < 9 {
      RoomGrows(i);
    }
  }

  lemma {:induction false} RoomGrows(i: nat)
    requires i < 9
    ensures Room(i) >= 256
    decreases 9 - i
  {
    if i < 8 { RoomGrows(i + 1); }
  }

  /** A read never yields more than 64 bits. */
  lemma {:induction false} ReadIsU64(buf: Bytes)
    requires ReadAt(buf, 0).Some?
    ensures ReadAt(buf, 0).value.0 < U64
  {
    RoomIsU64();
    ReadRoom(buf, 0);
  }

  /** The accumulating loop; what it returns fits 64 bits. */
  method Read(buf: Bytes) returns (r: Option<(nat, nat)>)
    ensures r == ReadAt(buf, 0) && (r.Some? ==> r.value.0 < U64)
  {
    if ReadAt(buf, 0).Some? { ReadIsU64(buf); }
    var v: nat, weight: nat := 0, 1;
    var i: nat := 0;
    while i < |buf| && i < 10
      invariant i <= 10 && i <= |buf|
      invariant ReadAt(buf, 0) == Accumulated(v, weight, ReadAt(buf, i))
    {
      var b: nat := buf[i];
      if b < 128 {
        if i == 9 && b > 1 {
          return None;
        }
        return Some((v + weight * b, i + 1));
      }
      ghost var later := ReadAt(buf, i + 1);
      GroupShift(weight, b - 128, if later.Some? then later.value.0 else 0);
      v := v + weight * (b - 128);
      weight := weight * 128;
      i := i + 1;
    }
    return None;
  }

  /** The bytes consumed are the written form of the value exactly when the last
      of several groups is not zero; the reader does not check that. */
  lemma {:induction false} MinimalIff(buf: Bytes, i: nat)
    requires ReadAt(buf, i).Some?
    ensures var r := ReadAt(buf, i).value;
            buf[i..r.1] == Groups(r.0) <==> r.1 == i + 1 || buf[r.1 - 1] != 0
    decreases 10 - i
  {
    var r := ReadAt(buf, i).value;
    if buf[i] < 128 {
      assert buf[i..r.1] == [buf[i]];
    } else {
      MinimalIff(buf, i + 1);
      var u := ReadAt(buf, i + 1).value;
      assert buf[i..r.1] == [buf[i]] + buf[i + 1..r.1];
      if u.0 == 0 {
        ZeroTail(buf, i + 1);
        assert Groups(r.0) == [r.0];
        assert |buf[i..r.1]| > 1;
      } else {
        assert Groups(r.0) == [buf[i]] + Groups(u.0);
        assert buf[i..r.1][1..] == buf[i + 1..r.1];
        assert Groups(r.0)[1..] == Groups(u.0);
        if u.1 == i + 2 { assert buf[i + 1] == u.0; }
      }
    }
  }

  lemma {:induction false} ZeroTail(buf: Bytes, i: nat)
    requires ReadAt(buf, i).Some? && ReadAt(buf, i).value.0 == 0
    ensures buf[ReadAt(buf, i).value.1 - 1] == 0
    decreases 10 - i
  {
    if buf[i] >= 128 { ZeroTail(buf, i + 1); }
  }
}
