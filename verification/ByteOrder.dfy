/** Byte-string order and ordered sets of byte strings (`BTreeSet<Vec<u8>>`). */
module ByteOrder {
  import opened Seqs
  import opened Terms

  predicate Less(a: Bytes, b: Bytes) {
    b != [] && (a == [] || a[0] < b[0] || (a[0] == b[0] && Less(a[1..], b[1..])))
  }

  lemma {:induction false} LessTotal(a: Bytes, b: Bytes)
    ensures a == b || Less(a, b) || Less(b, a)
    ensures !(Less(a, b) && Less(b, a)) && !Less(a, a)
  {
    if a != [] && b != [] && a[0] == b[0] {
      LessTotal(a[1..], b[1..]);
      assert a == [a[0]] + a[1..] && b == [b[0]] + b[1..];
    }
    if a != [] { LessIrreflexive(a); }
  }

  lemma {:induction false} LessIrreflexive(a: Bytes)
    ensures !Less(a, a)
  {
    if a != [] { LessIrreflexive(a[1..]); }
  }

  lemma {:induction false} LessTransitive(a: Bytes, b: Bytes, c: Bytes)
    requires Less(a, b) && Less(b, c)
    ensures Less(a, c)
  {
    if a != [] && a[0] == b[0] && b[0] == c[0] { LessTransitive(a[1..], b[1..], c[1..]); }
  }

  /** Strictly ascending: the iteration order of an ordered set. */
  ghost predicate Sorted(s: seq<Bytes>) {
    forall i, j :: 0 <= i < j < |s| ==> Less(s[i], s[j])
  }

  lemma {:induction false} SortedNoDup(s: seq<Bytes>)
    requires Sorted(s)
    ensures NoDup(s)
  {
    forall i, j | 0 <= i < j < |s| ensures s[i] != s[j] {
      assert Less(s[i], s[j]);
      LessIrreflexive(s[i]);
    }
  }

  /** `BTreeSet::insert`. */
  function Insert(x: Bytes, s: seq<Bytes>): seq<Bytes> {
    if s == [] then [x]
    else if x == s[0] then s
    else if Less(x, s[0]) then [x] + s
    else [s[0]] + Insert(x, s[1..])
  }

  lemma {:induction false} InsertMembers(x: Bytes, s: seq<Bytes>, y: Bytes)
    ensures y in Insert(x, s) <==> y == x || y in s
  {
    if s != [] {
      assert y in s <==> y == s[0] || y in s[1..];
      InsertMembers(x, s[1..], y);
    }
  }

  lemma {:induction false} InsertSorted(x: Bytes, s: seq<Bytes>)
    requires Sorted(s)
    ensures Sorted(Insert(x, s))
  {
    if s != [] && x != s[0] {
      LessTotal(x, s[0]);
      if Less(x, s[0]) {
        forall j | 0 <= j < |s| ensures Less(x, s[j]) {
          if j > 0 { LessTransitive(x, s[0], s[j]); }
        }
      } else {
        var rest := s[1..];
        InsertSorted(x, rest);
        forall j | 0 <= j < |Insert(x, rest)| ensures Less(s[0], Insert(x, rest)[j]) {
          var y := Insert(x, rest)[j];
          InsertMembers(x, rest, y);
          if y != x {
            var i :| 0 <= i < |rest| && rest[i] == y;
            assert rest[i] == s[i + 1];
          }
        }
      }
    }
  }

  /** The empty string, if present, comes first. */
  lemma {:induction false} EmptyFirst(s: seq<Bytes>)
    requires Sorted(s)
    ensures forall i :: 0 < i < |s| ==> s[i] != []
  {
    forall i | 0 < i < |s| ensures s[i] != [] { assert Less(s[0], s[i]); }
  }

  function Index(s: seq<Bytes>, x: Bytes): (i: nat)
    requires x in s
    ensures i < |s| && s[i] == x
  {
    if s[0] == x then 0 else Index(s[1..], x) + 1
  }

  lemma {:induction false} IndexUnique(s: seq<Bytes>, x: Bytes, i: nat)
    requires NoDup(s) && i < |s| && s[i] == x
    ensures Index(s, x) == i
  {
  }
}
