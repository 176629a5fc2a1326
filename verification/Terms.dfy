/** RDF terms and byte strings (crates/graphy-core/src/term.rs, vocab.rs). */
module Terms {
  import opened Seqs

  type Byte = b: int | 0 <= b < 256
  type Bytes = seq<Byte>

  /** The byte spelling of an ASCII string constant. */
  function Ascii(s: string): (r: Bytes)
    ensures |r| == |s|
    ensures forall i :: 0 <= i < |s| ==> r[i] == if s[i] < 256 as char then s[i] as int else 0
  {
    seq(|s|, i requires 0 <= i < |s| => if s[i] < 256 as char then s[i] as int else 0)
  }

  /** Position of the first `b`, or the length. */
  function Find(s: Bytes, b: Byte): (i: nat)
    ensures i <= |s|
  {
    if s == [] || s[0] == b then 0 else Find(s[1..], b) + 1
  }

  lemma {:induction false} FindIsFirst(s: Bytes, b: Byte)
    ensures b !in s[..Find(s, b)] && (Find(s, b) < |s| ==> s[Find(s, b)] == b)
  {
    if s != [] && s[0] != b {
      FindIsFirst(s[1..], b);
      assert s[..Find(s, b)] == [s[0]] + s[1..][..Find(s[1..], b)];
    }
  }

  lemma {:induction false} FindFirst(pre: Bytes, b: Byte, post: Bytes)
    requires b !in pre
    ensures Find(pre + [b] + post, b) == |pre|
    ensures (pre + [b] + post)[..|pre|] == pre && (pre + [b] + post)[|pre| + 1..] == post
  {
    if pre != [] {
      FindFirst(pre[1..], b, post);
      assert (pre + [b] + post)[1..] == pre[1..] + [b] + post;
    }
  }

  lemma {:induction false} FindNone(s: Bytes, b: Byte)
    requires b !in s
    ensures Find(s, b) == |s|
  {
    if s != [] { FindNone(s[1..], b); }
  }

  predicate IsAscii(s: Bytes) { forall i :: 0 <= i < |s| ==> s[i] < 128 }

  lemma {:induction false} AsciiConcat(s: Bytes, t: Bytes)
    requires IsAscii(s) && IsAscii(t)
    ensures IsAscii(s + t)
  {
  }

  predicate IsUpper(b: Byte) { 65 <= b <= 90 }

  function LowerByte(b: Byte): Byte { if IsUpper(b) then b + 32 else b }

  lemma {:induction false} LowerIs(b: Byte)
    ensures LowerByte(b) == if 'A' <= b as char <= 'Z' then b + ('a' as int - 'A' as int) else b
  {
  }

  /** ASCII lower case. */
  function Lower(s: Bytes): (r: Bytes)
    ensures |r| == |s| && forall i :: 0 <= i < |s| ==> r[i] == LowerByte(s[i])
  {
    seq(|s|, i requires 0 <= i < |s| => LowerByte(s[i]))
  }

  datatype Dir = Ltr | Rtl

  datatype Term =
    | Iri(iri: Bytes)
    | Blank(name: Bytes)
    | Simple(lex: Bytes)
    | Lang(lex: Bytes, tag: Bytes, dir: Option<Dir>)
    | Typed(lex: Bytes, dt: Bytes)
    | TripleTerm(s: Term, p: Term, o: Term)

  const XSD: string := "http://www.w3.org/2001/XMLSchema#"
  const RDF: string := "http://www.w3.org/1999/02/22-rdf-syntax-ns#"
  const XSD_STRING: Bytes := Ascii(XSD + "string")
  const XSD_BOOLEAN: Bytes := Ascii(XSD + "boolean")
  const XSD_INTEGER: Bytes := Ascii(XSD + "integer")
  const XSD_DECIMAL: Bytes := Ascii(XSD + "decimal")
  const XSD_DOUBLE: Bytes := Ascii(XSD + "double")
  const XSD_FLOAT: Bytes := Ascii(XSD + "float")
  const XSD_DATE_TIME: Bytes := Ascii(XSD + "dateTime")
  const XSD_DATE: Bytes := Ascii(XSD + "date")
  const RDF_LANG_STRING: Bytes := Ascii(RDF + "langString")
  const RDF_DIR_LANG_STRING: Bytes := Ascii(RDF + "dirLangString")

  const TRUE: Bytes := Ascii("true")
  const FALSE: Bytes := Ascii("false")

  lemma {:induction false} BooleanIsNotInteger()
    ensures XSD_BOOLEAN != XSD_INTEGER
  {
    var n := |XSD|;
    assert (XSD + "boolean")[n] == 'b' && (XSD + "integer")[n] == 'i';
    assert XSD_BOOLEAN[n] == 98 && XSD_INTEGER[n] == 105;
  }
}
