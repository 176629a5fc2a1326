/** Writing and reading HDTQ (crates/graphy-hdt/src/writer.rs, `add_quad` and
    `write_to`; crates/graphy-hdt/src/reader.rs, `each_quad_ids` and `each_quad`). */
module HdtFile {
  import opened Seqs
  import opened Terms
  import opened Concise
  import opened HdtTerm
  import opened Codec
  import opened Section
  import opened BitmapTriples
  import opened ByteOrder
  import opened QuadIds

  /** A quad as HDT strings; the default graph is the empty string. */
  datatype Raw = Raw(s: Bytes, p: Bytes, o: Bytes, g: Bytes)

  datatype TermQuad = TermQuad(s: Term, p: Term, o: Term, g: Option<Term>)

  // ------------------------------------------------------- strings of a quad

  function GraphString(g: Option<Term>): Option<Bytes> {
    match g
    case None => Some([])
    case Some(t) => ToHdt(t)
  }

  function RawOf(q: TermQuad): Option<Raw> {
    var s, p, o, g := ToHdt(q.s), ToHdt(q.p), ToHdt(q.o), GraphString(q.g);
    if s.Some? && p.Some? && o.Some? && g.Some? then Some(Raw(s.value, p.value, o.value, g.value)) else None
  }

  /** How a reader turns strings into terms: `hdt_to_concise`. */
  type Decoder = Bytes -> Option<Term>

  function DecoderOf(c: Checks): Decoder { (s: Bytes) => FromHdt(c, s) }

  function GraphTerm(decode: Decoder, g: Bytes): Option<Option<Term>> {
    if g == [] then Some(None)
    else
      match decode(g)
      case None => None
      case Some(t) => Some(Some(t))
  }

  function QuadOf(decode: Decoder, r: Raw): Option<TermQuad> {
    var s, p, o, g := decode(r.s), decode(r.p), decode(r.o), GraphTerm(decode, r.g);
    if s.Some? && p.Some? && o.Some? && g.Some? then Some(TermQuad(s.value, p.value, o.value, g.value)) else None
  }

  /** A term whose string a section can hold. */
  ghost predicate Holdable(c: Checks, t: Term) {
    TermOk(c, t, 0) && (ToHdt(t).Some? ==> NulFree(ToHdt(t).value) && |ToHdt(t).value| < TOP)
  }

  ghost predicate QuadOk(c: Checks, q: TermQuad) {
    Holdable(c, q.s) && Holdable(c, q.p) && Holdable(c, q.o) && (q.g.Some? ==> Holdable(c, q.g.value))
  }

  lemma {:induction false} StringNotEmpty(c: Checks, t: Term)
    requires Sane(c) && TermOk(c, t, 0) && ToHdt(t).Some?
    ensures ToHdt(t).value != []
  {
  }

  /** The strings of a quad decode to the quad. */
  lemma {:induction false} RawRoundTrip(c: Checks, q: TermQuad)
    requires Sane(c) && QuadOk(c, q) && RawOf(q).Some?
    ensures QuadOf(DecoderOf(c), RawOf(q).value) == Some(q)
  {
    HdtRoundTrip(c, q.s);
    HdtRoundTrip(c, q.p);
    HdtRoundTrip(c, q.o);
    if q.g.Some? {
      HdtRoundTrip(c, q.g.value);
      StringNotEmpty(c, q.g.value);
    }
  }

  // ------------------------------------------------------- the dictionary

  /** The five sections: shared terms, other subjects, predicates, other objects, graphs. */
  datatype Dict = Dict(shared: seq<Bytes>, subjects: seq<Bytes>, predicates: seq<Bytes>, objects: seq<Bytes>,
                       graphs: seq<Bytes>)

  /** The members of an ordered set that are (or are not) in another. */
  function Where(s: seq<Bytes>, other: seq<Bytes>, wanted: bool): seq<Bytes> {
    if s == [] then []
    else if (s[0] in other) == wanted then [s[0]] + Where(s[1..], other, wanted)
    else Where(s[1..], other, wanted)
  }

  lemma {:induction false} WhereMembers(s: seq<Bytes>, other: seq<Bytes>, wanted: bool, x: Bytes)
    ensures x in Where(s, other, wanted) <==> x in s && (x in other) == wanted
  {
    if s != [] {
      assert x in s <==> x == s[0] || x in s[1..];
      WhereMembers(s[1..], other, wanted, x);
    }
  }

  lemma {:induction false} WhereNoDup(s: seq<Bytes>, other: seq<Bytes>, wanted: bool)
    requires NoDup(s)
    ensures NoDup(Where(s, other, wanted))
  {
    if s != [] {
      var rest := s[1..];
      WhereNoDup(rest, other, wanted);
      WhereMembers(rest, other, wanted, s[0]);
      assert forall i :: 0 <= i < |rest| ==> rest[i] == s[i + 1];
      NoDupConcat([s[0]], Where(rest, other, wanted));
    }
  }

  function DictOf(subjects: seq<Bytes>, predicates: seq<Bytes>, objects: seq<Bytes>, graphs: seq<Bytes>): Dict {
    Dict(Where(subjects, objects, true), Where(subjects, objects, false), predicates,
         Where(objects, Where(subjects, objects, true), false), graphs)
  }

  function SubjectId(d: Dict, x: Bytes): nat
    requires x in d.shared || x in d.subjects
  {
    if x in d.shared then Index(d.shared, x) + 1 else |d.shared| + Index(d.subjects, x) + 1
  }

  function ObjectId(d: Dict, x: Bytes): nat
    requires x in d.shared || x in d.objects
  {
    if x in d.shared then Index(d.shared, x) + 1 else |d.shared| + Index(d.objects, x) + 1
  }

  predicate Covered(d: Dict, r: Raw) {
    && (r.s in d.shared || r.s in d.subjects) && r.p in d.predicates && (r.o in d.shared || r.o in d.objects)
    && (if d.graphs == [] then r.g == [] else r.g in d.graphs)
  }

  /** The ids of a quad; layer 0 when no graphs are written. */
  function IdsOf(d: Dict, r: Raw): Quad
    requires Covered(d, r)
  {
    Quad(Ids(SubjectId(d, r.s), Index(d.predicates, r.p) + 1, ObjectId(d, r.o)),
         if d.graphs == [] then 0 else Index(d.graphs, r.g))
  }

  predicate InDict(d: Dict, q: Quad) {
    && 1 <= q.t.s <= |d.shared| + |d.subjects| && 1 <= q.t.p <= |d.predicates|
    && 1 <= q.t.o <= |d.shared| + |d.objects|
    && (if d.graphs == [] then q.g == 0 else q.g < |d.graphs|)
  }

  function SubjectAt(d: Dict, id: nat): Bytes
    requires 1 <= id <= |d.shared| + |d.subjects|
  {
    if id <= |d.shared| then d.shared[id - 1] else d.subjects[id - |d.shared| - 1]
  }

  function ObjectAt(d: Dict, id: nat): Bytes
    requires 1 <= id <= |d.shared| + |d.objects|
  {
    if id <= |d.shared| then d.shared[id - 1] else d.objects[id - |d.shared| - 1]
  }

  function RawAt(d: Dict, q: Quad): Raw
    requires InDict(d, q)
  {
    Raw(SubjectAt(d, q.t.s), d.predicates[q.t.p - 1], ObjectAt(d, q.t.o), if d.graphs == [] then [] else d.graphs[q.g])
  }

  /** Ids name the strings they were assigned to. */
  lemma {:induction false} IdsName(d: Dict, r: Raw)
    requires Covered(d, r)
    ensures InDict(d, IdsOf(d, r)) && RawAt(d, IdsOf(d, r)) == r
  {
  }

  // ------------------------------------------------------- the writer

  datatype HdtFile = HdtFile(
    shared: PfcSection, subjects: PfcSection, predicates: PfcSection, objects: PfcSection, graphs: Option<PfcSection>,
    ey: Bitmap, ez: Bitmap, sy: LogSeq, sz: LogSeq, annex: Option<Annex>)

  ghost predicate Members(xs: seq<Bytes>, ys: set<Bytes>) { forall x :: x in xs <==> x in ys }

  /** Ids of the triples, sorted and without repeats. */
  ghost predicate Assigned(d: Dict, triples: seq<Raw>, qs: seq<Quad>) {
    && Ascending(qs)
    && (forall r :: r in triples ==> Covered(d, r) && IdsOf(d, r) in qs)
    && (forall q :: q in qs ==> InDict(d, q) && RawAt(d, q) in triples && IdsOf(d, RawAt(d, q)) == q)
  }

  function LayerCount(d: Dict, quads: bool): nat { if quads then |d.graphs| else 1 }

  /** What a file written for `qs` holds. */
  ghost predicate Describes(f: HdtFile, d: Dict, qs: seq<Quad>, quads: bool, parts: Parts) {
    && Written(f.shared, d.shared) && Written(f.subjects, d.subjects)
    && Written(f.predicates, d.predicates) && Written(f.objects, d.objects)
    && (if quads then f.graphs.Some? && Written(f.graphs.value, d.graphs) else f.graphs.None?)
    && (forall q :: q in qs ==> q.g < LayerCount(d, quads))
    && parts == Split(qs, |qs|, LayerCount(d, quads))
    && Holding(f, Filled(parts.triples, |parts.triples|))
    && (if quads then f.annex.Some? && QuadIds.Stores(f.annex.value, parts.layers) else f.annex.None?)
  }

  ghost predicate Holding(f: HdtFile, a: Arrays) {
    f.sy.Stores(a.sy) && f.ey.Stores(a.ey) && f.sz.Stores(a.sz) && f.ez.Stores(a.ez)
  }

  /** `id.insert(t, from + i)` over a list. */
  method Number(list: seq<Bytes>, from: nat, ids: map<Bytes, nat>) returns (r: map<Bytes, nat>)
    requires NoDup(list)
    ensures forall x :: x in r <==> x in ids || x in list
    ensures forall x :: x in list ==> r[x] == from + Index(list, x)
    ensures forall x :: x in ids && x !in list ==> r[x] == ids[x]
  {
    r := ids;
    for i := 0 to |list|
      invariant forall x :: x in r <==> x in ids || x in list[..i]
      invariant forall x :: x in list[..i] ==> r[x] == from + Index(list, x)
      invariant forall x :: x in ids && x !in list[..i] ==> r[x] == ids[x]
    {
      TakeNext(list, i);
      IndexUnique(list, list[i], i);
      r := r[list[i] := from + i];
    }
    TakeAll(list);
  }

  lemma {:induction false} SubjectIdUnique(d: Dict, x: nat)
    requires NoDup(d.shared) && NoDup(d.subjects) && 1 <= x <= |d.shared| + |d.subjects|
    requires forall b :: b in d.shared ==> b !in d.subjects
    ensures var b := SubjectAt(d, x); (b in d.shared || b in d.subjects) && SubjectId(d, b) == x
  {
    if x <= |d.shared| {
      IndexUnique(d.shared, d.shared[x - 1], x - 1);
    } else {
      IndexUnique(d.subjects, d.subjects[x - |d.shared| - 1], x - |d.shared| - 1);
    }
  }

  /** Every subject id is used, because every subject came with a triple. */
  lemma {:induction false} AssignedCovers(d: Dict, triples: seq<Raw>, qs: seq<Quad>)
    requires Assigned(d, triples, qs) && NoDup(d.shared) && NoDup(d.subjects)
    requires forall b :: b in d.shared ==> b !in d.subjects
    requires forall b :: b in d.shared || b in d.subjects ==> b in set r | r in triples :: r.s
    ensures Covers(qs, |d.shared| + |d.subjects|)
  {
    forall x | 1 <= x <= |d.shared| + |d.subjects| ensures Occurs(qs, x) {
      SubjectIdUnique(d, x);
      var b := SubjectAt(d, x);
      var r :| r in triples && r.s == b;
      assert IdsOf(d, r) in qs;
      var i :| 0 <= i < |qs| && qs[i] == IdsOf(d, r);
      assert qs[i].t.s == x;
    }
  }

  /** The ordered sets hold exactly the components of the triples. */
  ghost predicate SetsOf(subjects: seq<Bytes>, predicates: seq<Bytes>, objects: seq<Bytes>, triples: seq<Raw>) {
    && Sorted(subjects) && Sorted(predicates) && Sorted(objects)
    && Members(subjects, set r | r in triples :: r.s)
    && Members(predicates, set r | r in triples :: r.p)
    && Members(objects, set r | r in triples :: r.o)
  }

  lemma {:induction false} SetsAdd(subjects: seq<Bytes>, predicates: seq<Bytes>, objects: seq<Bytes>,
                                   triples: seq<Raw>, raw: Raw)
    requires SetsOf(subjects, predicates, objects, triples)
    ensures SetsOf(Insert(raw.s, subjects), Insert(raw.p, predicates), Insert(raw.o, objects), triples + [raw])
  {
    InsertKeeps(raw.s, subjects, set r | r in triples :: r.s);
    InsertKeeps(raw.p, predicates, set r | r in triples :: r.p);
    InsertKeeps(raw.o, objects, set r | r in triples :: r.o);
    assert (set r | r in triples + [raw] :: r.s) == (set r | r in triples :: r.s) + {raw.s};
    assert (set r | r in triples + [raw] :: r.p) == (set r | r in triples :: r.p) + {raw.p};
    assert (set r | r in triples + [raw] :: r.o) == (set r | r in triples :: r.o) + {raw.o};
  }

  /** The triples are the strings of the quads. */
  ghost predicate StringsOf(triples: seq<Raw>, quads: seq<TermQuad>) {
    |quads| == |triples| && forall i :: 0 <= i < |quads| ==> RawOf(quads[i]) == Some(triples[i])
  }

  /** The graphs dictionary holds the graph strings of a quad file and nothing otherwise. */
  ghost predicate GraphsFor(graphs: seq<Bytes>, triples: seq<Raw>, quads: bool) {
    if quads then Members(graphs, set r | r in triples :: r.g) else graphs == []
  }

  /** A map holds the ids of a section behind the shared ones. */
  ghost predicate Enumerates(ids: map<Bytes, nat>, shared: seq<Bytes>, own: seq<Bytes>, first: nat) {
    forall x {:trigger x in ids} ::
      && (x in ids <==> x in shared || x in own)
      && (x in ids ==> ids[x] == if x in shared then Index(shared, x) + first else |shared| + Index(own, x) + first)
  }

  lemma {:induction false} LookUp(d: Dict, r: Raw, s: map<Bytes, nat>, p: map<Bytes, nat>, o: map<Bytes, nat>,
                                  g: map<Bytes, nat>)
    requires Covered(d, r)
    requires Enumerates(s, d.shared, d.subjects, 1) && Enumerates(o, d.shared, d.objects, 1)
    requires Enumerates(p, [], d.predicates, 1) && Enumerates(g, [], d.graphs, 0)
    ensures r.s in s && r.p in p && r.o in o
    ensures Quad(Ids(s[r.s], p[r.p], o[r.o]), if r.g in g then g[r.g] else 0) == IdsOf(d, r)
  {
  }

  class HdtWriter {
    var subjects: seq<Bytes>
    var predicates: seq<Bytes>
    var objects: seq<Bytes>
    var triples: seq<Raw>
    var quads: bool
    ghost var added: seq<TermQuad>

    constructor ()
      ensures Valid() && added == []
    {
      subjects, predicates, objects, triples, quads, added := [], [], [], [], false, [];
    }

    ghost predicate Valid()
      reads this
    {
      && SetsOf(subjects, predicates, objects, triples)
      && StringsOf(triples, added)
      && (!quads ==> forall r :: r in triples ==> r.g == [])
    }

    /** A quad with a triple term is refused; only a refused graph term leaves a
        trace, the switch to HDTQ. */
    method AddQuad(q: TermQuad) returns (ok: bool)
      requires Valid()
      modifies this
      ensures Valid()
      ensures ok == RawOf(q).Some? && added == if ok then old(added) + [q] else old(added)
      ensures quads == (old(quads) || (q.g.Some? && ToHdt(q.s).Some? && ToHdt(q.p).Some? && ToHdt(q.o).Some?))
    {
      var s, p, o := ToHdt(q.s), ToHdt(q.p), ToHdt(q.o);
      if s.None? || p.None? || o.None? {
        return false;
      }
      var g: Bytes := [];
      if q.g.Some? {
        quads := true;
        var named := ToHdt(q.g.value);
        if named.None? {
          return false;
        }
        g := named.value;
      }
      var raw := Raw(s.value, p.value, o.value, g);
      SetsAdd(subjects, predicates, objects, triples, raw);
      subjects := Insert(raw.s, subjects);
      predicates := Insert(raw.p, predicates);
      objects := Insert(raw.o, objects);
      triples := triples + [raw];
      added := added + [q];
      return true;
    }

    /** The graphs dictionary: every graph string when any quad was named. */
    method Graphs() returns (graphs: seq<Bytes>)
      requires Valid()
      ensures Sorted(graphs) && GraphsFor(graphs, triples, quads)
    {
      graphs := [];
      if quads {
        for i := 0 to |triples|
          invariant Sorted(graphs) && Members(graphs, set r | r in triples[..i] :: r.g)
        {
          InsertKeeps(triples[i].g, graphs, set r | r in triples[..i] :: r.g);
          TakeNext(triples, i);
          assert (set r | r in triples[..i + 1] :: r.g) == (set r | r in triples[..i] :: r.g) + {triples[i].g};
          graphs := Insert(triples[i].g, graphs);
        }
        TakeAll(triples);
      }
    }

    /** Id of every string, from 1 on: shared terms first, then the section's own. */
    static method Enumerate(shared: seq<Bytes>, own: seq<Bytes>, first: nat) returns (ids: map<Bytes, nat>)
      requires NoDup(shared) && NoDup(own) && forall b :: b in shared ==> b !in own
      ensures Enumerates(ids, shared, own, first)
    {
      ids := Number(shared, first, map[]);
      ids := Number(own, |shared| + first, ids);
    }

    static method MapIds(d: Dict, triples: seq<Raw>, s: map<Bytes, nat>, p: map<Bytes, nat>, o: map<Bytes, nat>,
                         g: map<Bytes, nat>)
      returns (ids: seq<Quad>)
      requires forall j :: 0 <= j < |triples| ==> Covered(d, triples[j])
      requires Enumerates(s, d.shared, d.subjects, 1) && Enumerates(o, d.shared, d.objects, 1)
      requires Enumerates(p, [], d.predicates, 1) && Enumerates(g, [], d.graphs, 0)
      ensures |ids| == |triples| && forall j :: 0 <= j < |ids| ==> ids[j] == IdsOf(d, triples[j])
    {
      ids := [];
      for i := 0 to |triples|
        invariant |ids| == i && forall j :: 0 <= j < i ==> ids[j] == IdsOf(d, triples[j])
      {
        var r := triples[i];
        LookUp(d, r, s, p, o, g);
        ids := ids + [Quad(Ids(s[r.s], p[r.p], o[r.o]), if r.g in g then g[r.g] else 0)];
      }
    }

    /** The id assignment, sorted and without repeats. */
    method Assign(d: Dict) returns (qs: seq<Quad>)
      requires Valid() && DictFor(d, subjects, predicates, objects, triples, quads)
      ensures Assigned(d, triples, qs)
    {
      DictParts(d, subjects, predicates, objects, triples, quads);
      var subjectId := Enumerate(d.shared, d.subjects, 1);
      var objectId := Enumerate(d.shared, d.objects, 1);
      var predicateId := Enumerate([], d.predicates, 1);
      var layer := Enumerate([], d.graphs, 0);
      AllCovered(d, subjects, predicates, objects, triples, quads);
      var ids := MapIds(d, triples, subjectId, predicateId, objectId, layer);
      qs := SortDedup(ids);
      AssignedBy(d, triples, ids, qs);
    }

    method WriteTo() returns (f: HdtFile, ghost d: Dict, ghost qs: seq<Quad>, ghost parts: Parts)
      requires Valid()
      ensures DictFor(d, subjects, predicates, objects, triples, quads)
      ensures Assigned(d, triples, qs) && Describes(f, d, qs, quads, parts) && Dense(parts.triples)
    {
      var graphs := Graphs();
      var dict := DictOf(subjects, predicates, objects, graphs);
      var ids := Assign(dict);
      d, qs := dict, ids;
      LayersInRange(d, triples, ids, quads);
      var split := SplitLoop(ids, |graphs|, quads);
      parts := Split(ids, |ids|, LayerCount(d, quads));
      DictParts(d, subjects, predicates, objects, triples, quads);
      AssignedCovers(d, triples, ids);
      SplitDense(ids, |ids|, LayerCount(d, quads), |d.shared| + |d.subjects|);
      var a := Fill(split.triples);
      var shared := WriteSection(dict.shared);
      var subjectsOnly := WriteSection(dict.subjects);
      var predicateSection := WriteSection(dict.predicates);
      var objectsOnly := WriteSection(dict.objects);
      var graphSection: Option<PfcSection> := None;
      if quads {
        var section := WriteSection(graphs);
        graphSection := Some(section);
      }
      var ey := WriteBitmap(a.ey);
      var ez := WriteBitmap(a.ez);
      var sy := WriteLogSeq(a.sy);
      var sz := WriteLogSeq(a.sz);
      var annex: Option<Annex> := None;
      if quads {
        SplitJoin(ids, |graphs|);
        var written := WriteAnnex(split.layers, |split.triples|);
        annex := Some(written);
      }
      f := HdtFile(shared, subjectsOnly, predicateSection, objectsOnly, graphSection, ey, ez, sy, sz, annex);
    }
  }

  /** The dictionary `write_to` lays out for the sets and triples. */
  ghost predicate DictFor(d: Dict, subjects: seq<Bytes>, predicates: seq<Bytes>, objects: seq<Bytes>,
                          triples: seq<Raw>, quads: bool) {
    && SetsOf(subjects, predicates, objects, triples)
    && d == DictOf(subjects, predicates, objects, d.graphs)
    && Sorted(d.graphs) && GraphsFor(d.graphs, triples, quads)
    && (!quads ==> forall r :: r in triples ==> r.g == [])
  }

  lemma {:induction false} DictParts(d: Dict, subjects: seq<Bytes>, predicates: seq<Bytes>, objects: seq<Bytes>,
                                     triples: seq<Raw>, quads: bool)
    requires DictFor(d, subjects, predicates, objects, triples, quads)
    ensures NoDup(d.shared) && NoDup(d.subjects) && NoDup(d.predicates) && NoDup(d.objects) && NoDup(d.graphs)
    ensures forall b :: b in d.shared ==> b !in d.subjects && b !in d.objects
    ensures forall b :: b in d.shared || b in d.subjects ==> b in set r | r in triples :: r.s
  {
    SortedNoDup(subjects);
    SortedNoDup(predicates);
    SortedNoDup(objects);
    SortedNoDup(d.graphs);
    WhereNoDup(subjects, objects, true);
    WhereNoDup(subjects, objects, false);
    WhereNoDup(objects, d.shared, false);
    forall b ensures b in d.shared ==> b !in d.subjects && b !in d.objects
             ensures b in d.shared || b in d.subjects ==> b in subjects {
      WhereMembers(subjects, objects, true, b);
      WhereMembers(subjects, objects, false, b);
      WhereMembers(objects, d.shared, false, b);
    }
  }

  lemma {:induction false} WhereSorted(s: seq<Bytes>, other: seq<Bytes>, wanted: bool)
    requires Sorted(s)
    ensures Sorted(Where(s, other, wanted))
  {
    if s != [] {
      var rest := s[1..];
      assert forall i :: 0 <= i < |rest| ==> rest[i] == s[i + 1];
      WhereSorted(rest, other, wanted);
      forall x | x in Where(rest, other, wanted) ensures Less(s[0], x) {
        WhereMembers(rest, other, wanted, x);
        var i :| 0 <= i < |rest| && rest[i] == x;
        assert Less(s[0], s[i + 1]);
      }
      var kept := Where(rest, other, wanted);
      assert forall i :: 0 <= i < |kept| ==> kept[i] in kept;
    }
  }

  ghost predicate IsSubject(triples: seq<Raw>, x: Bytes) { exists r :: r in triples && r.s == x }

  ghost predicate IsObject(triples: seq<Raw>, x: Bytes) { exists r :: r in triples && r.o == x }

  /** The sections in order: strings that are both subject and object are shared, the
      other subjects and objects stand in their own sections. */
  lemma {:induction false} DictHolds(d: Dict, subjects: seq<Bytes>, predicates: seq<Bytes>, objects: seq<Bytes>,
                                     triples: seq<Raw>, quads: bool, x: Bytes)
    requires DictFor(d, subjects, predicates, objects, triples, quads)
    ensures Sorted(d.shared) && Sorted(d.subjects) && Sorted(d.predicates) && Sorted(d.objects) && Sorted(d.graphs)
    ensures x in d.shared <==> IsSubject(triples, x) && IsObject(triples, x)
    ensures x in d.subjects <==> IsSubject(triples, x) && !IsObject(triples, x)
    ensures x in d.objects <==> IsObject(triples, x) && !IsSubject(triples, x)
    ensures x in d.predicates <==> exists r :: r in triples && r.p == x
    ensures x in d.graphs <==> quads && exists r :: r in triples && r.g == x
  {
    WhereMembers(subjects, objects, true, x);
    WhereMembers(subjects, objects, false, x);
    WhereMembers(objects, d.shared, false, x);
    WhereSorted(subjects, objects, true);
    WhereSorted(subjects, objects, false);
    WhereSorted(objects, d.shared, false);
    assert x in subjects <==> x in set r | r in triples :: r.s;
    assert x in objects <==> x in set r | r in triples :: r.o;
    assert x in predicates <==> x in set r | r in triples :: r.p;
    if quads { assert x in d.graphs <==> x in set r | r in triples :: r.g; }
  }

  lemma {:induction false} DictCovers(d: Dict, subjects: seq<Bytes>, predicates: seq<Bytes>, objects: seq<Bytes>,
                                      triples: seq<Raw>, quads: bool, r: Raw)
    requires DictFor(d, subjects, predicates, objects, triples, quads) && r in triples
    ensures Covered(d, r)
  {
    WhereMembers(subjects, objects, true, r.s);
    WhereMembers(subjects, objects, false, r.s);
    WhereMembers(objects, d.shared, false, r.o);
    assert r.s in set r | r in triples :: r.s;
    assert r.p in set r | r in triples :: r.p;
    assert r.o in set r | r in triples :: r.o;
    assert r.g in set r | r in triples :: r.g;
    if quads { assert r.g in d.graphs; }
  }

  lemma {:induction false} AllCovered(d: Dict, subjects: seq<Bytes>, predicates: seq<Bytes>, objects: seq<Bytes>,
                                      triples: seq<Raw>, quads: bool)
    requires DictFor(d, subjects, predicates, objects, triples, quads)
    ensures forall j :: 0 <= j < |triples| ==> Covered(d, triples[j])
  {
    forall j | 0 <= j < |triples| ensures Covered(d, triples[j]) {
      DictCovers(d, subjects, predicates, objects, triples, quads, triples[j]);
    }
  }

  lemma {:induction false} AssignedBy(d: Dict, triples: seq<Raw>, ids: seq<Quad>, qs: seq<Quad>)
    requires |ids| == |triples| && forall j :: 0 <= j < |ids| ==>
             Covered(d, triples[j]) && ids[j] == IdsOf(d, triples[j])
    requires Ascending(qs) && forall q :: q in qs <==> q in ids
    ensures Assigned(d, triples, qs)
  {
    forall r | r in triples ensures Covered(d, r) && IdsOf(d, r) in qs {
      var j :| 0 <= j < |triples| && triples[j] == r;
      assert ids[j] in ids;
    }
    forall q | q in qs ensures InDict(d, q) && RawAt(d, q) in triples && IdsOf(d, RawAt(d, q)) == q {
      var j :| 0 <= j < |ids| && ids[j] == q;
      IdsName(d, triples[j]);
    }
  }

  lemma {:induction false} LayersInRange(d: Dict, triples: seq<Raw>, qs: seq<Quad>, quads: bool)
    requires Assigned(d, triples, qs) && GraphsFor(d.graphs, triples, quads)
    ensures forall q :: q in qs ==> q.g < LayerCount(d, quads)
  {
    forall q | q in qs ensures q.g < LayerCount(d, quads) {
      var r := RawAt(d, q);
      if quads {
        assert r.g in set r | r in triples :: r.g;
        assert r.g in d.graphs;
      }
    }
  }

  lemma {:induction false} InsertKeeps(x: Bytes, s: seq<Bytes>, members: set<Bytes>)
    requires Sorted(s) && Members(s, members)
    ensures Sorted(Insert(x, s)) && Members(Insert(x, s), members + {x})
  {
    InsertSorted(x, s);
    forall y ensures y in Insert(x, s) <==> y in members + {x} { InsertMembers(x, s, y); }
  }
}
