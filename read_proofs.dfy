/** The other direction of the round trip: whatever the readers of src/p3d.rs
    accept is something their writers can write back, so a document read from
    any stream, written and read again, comes back equal. */
module ReadProofs {
  import opened Stream
  import opened Io
  import opened P3dFormat
  import opened P3dProofs
  import opened TagProofs
  import opened LodProofs

  /** Face::read returns 3 or 4 vertices and names without a 0x00, which
      read_cstring stops at. */
  lemma FaceReadValid(data: seq<byte>, p: nat)
    ensures ParseFace(data, p).Done? ==> ValidFace(ParseFace(data, p).value)
  {
    var verts := ParseFaceVertices(data, p);
    if verts.Done? && ParseFaceTail(data, verts.next).Done? {
      var flags := ReadU32(data, verts.next);
      CStringContents(data, flags.next);
      CStringContents(data, ParseCString(data, flags.next).next);
    }
  }

  lemma FaceYields(data: seq<byte>)
    ensures Yields(data, ParseFace, ValidFace)
  {
    forall q: nat
      ensures ParseFace(data, q).Done? ==> ValidFace(ParseFace(data, q).value)
    {
      FaceReadValid(data, q);
    }
  }

  /** One tag entry as LOD::read reads it: the name stops at a 0x00, and the payload
      length came from a u32. */
  lemma TagEntryFits(data: seq<byte>, p: nat)
    ensures ParseTagEntry(data, p).Done? ==> FitsEntry(ParseTagEntry(data, p).value)
  {
    if p < |data| {
      CStringContents(data, SkipUpTo(data, p, 1));
    }
  }

  /** Inserting into the table keeps every entry one that fits. */
  lemma InsertFits(acc: seq<Tag>, t: Tag)
    requires FitsEntry(t) && forall i :: 0 <= i < |acc| ==> FitsEntry(acc[i])
    ensures forall i :: 0 <= i < |Insert(acc, t)| ==> FitsEntry(Insert(acc, t)[i])
  {
    var next := Insert(acc, t);
    forall i | 0 <= i < |next|
      ensures FitsEntry(next[i])
    {
      InsertMap(acc, t, next[i]);
      if next[i] != t {
        var j :| 0 <= j < |acc| && acc[j] == next[i];
      }
    }
  }

  /** The tag loop inserts only entries that fit. */
  lemma {:induction false} TagLoopFits(data: seq<byte>, p: nat, acc: seq<Tag>,
                                       entry: (seq<byte>, nat) -> Parsed<Tag>)
    requires p <= |data| && Advances(data, entry) && Yields(data, entry, FitsEntry)
    requires forall i :: 0 <= i < |acc| ==> FitsEntry(acc[i])
    ensures TagLoop(data, p, acc, entry).Done?
            ==> forall i :: 0 <= i < |TagLoop(data, p, acc, entry).value|
                            ==> FitsEntry(TagLoop(data, p, acc, entry).value[i])
    decreases |data| - p
  {
    var e := entry(data, p);
    if e.Done? && e.value.name != END_OF_FILE {
      InsertFits(acc, e.value);
      TagLoopFits(data, e.next, Insert(acc, e.value), entry);
    }
  }

  /** The table LOD::read returns is one LOD::write can write back: distinct,
      NUL-free names other than "#EndOfFile#", payloads that fit the u32 field. */
  lemma TagsReadValid(data: seq<byte>, p: nat)
    requires p <= |data|
    ensures ParseTags(data, p, []).Done? ==> ValidTable(ParseTags(data, p, []).value)
  {
    TagEntryAdvances(data);
    forall q: nat
      ensures ParseTagEntry(data, q).Done? ==> FitsEntry(ParseTagEntry(data, q).value)
    {
      TagEntryFits(data, q);
    }
    TagLoopFits(data, p, [], ParseTagEntry);
    TagsWellFormed(data, p);
    var r := ParseTags(data, p, []);
    if r.Done? {
      forall i | 0 <= i < |r.value|
        ensures ValidTag(r.value[i])
      {
        NameSetHas(r.value, r.value[i]);
      }
    }
  }

  lemma TailReadValid(data: seq<byte>, p: nat)
    ensures ParseLodTail(data, p).Done? ==> ValidTable(ParseLodTail(data, p).value.0)
  {
    if ParseLodTail(data, p).Done? {
      TagsReadValid(data, p + 4);
    }
  }

  lemma ArraysReadValid(data: seq<byte>, p: nat, h: LodHeader)
    ensures ParseLodArrays(data, p, h).Done?
            ==> forall i :: 0 <= i < |ParseLodArrays(data, p, h).value.2|
                            ==> ValidFace(ParseLodArrays(data, p, h).value.2[i])
  {
    var points := ParseMany(data, p, h.numPoints, [], ParsePoint);
    if points.Done? {
      var normals := ParseMany(data, points.next, h.numNormals, [], ParseNormal);
      if normals.Done? {
        FaceYields(data);
        ParseManyYields(data, normals.next, h.numFaces, [], ParseFace, ValidFace);
      }
    }
  }

  /** Every LOD that LOD::read accepts satisfies what LOD::write needs to write it
      back faithfully. */
  lemma LodReadValid(data: seq<byte>, p: nat)
    ensures ParseLod(data, p).Done? ==> ValidLod(ParseLod(data, p).value)
  {
    var h := ParseLodHeader(data, p);
    if h.Done? {
      var arrays := ParseLodArrays(data, h.next, h.value);
      if arrays.Done? {
        TailReadValid(data, arrays.next);
        ArraysReadValid(data, h.next, h.value);
        LodArraysFacts(data, h.next, h.value);
      }
    }
  }

  lemma LodYields(data: seq<byte>)
    ensures Yields(data, ParseLod, ValidLod)
  {
    forall q: nat
      ensures ParseLod(data, q).Done? ==> ValidLod(ParseLod(data, q).value)
    {
      LodReadValid(data, q);
    }
  }

  /** Every document that P3D::read accepts satisfies what P3D::write needs. */
  lemma P3dReadValid(data: seq<byte>, p: nat)
    ensures ParseP3d(data, p).Done? ==> ValidP3d(ParseP3d(data, p).value)
  {
    P3dReadFacts(data, p);
    if ParseP3d(data, p).Done? {
      LodYields(data);
      ParseManyYields(data, p + 12, U32At(data, p + 8), [], ParseLod, ValidLod);
    }
  }

  /** A face read from any stream, written by Face::write and read again, comes back equal. */
  lemma FaceReadWriteRead(data: seq<byte>, p: nat, f: Face, q: nat)
    requires ParseFace(data, p) == Done(f, q)
    ensures ParseFace(EncodeFace(f), 0) == Done(f, |EncodeFace(f)|)
  {
    FaceReadValid(data, p);
    FaceRoundTrip(EncodeFace(f), 0, f);
  }

  /** A LOD read from any stream, written by LOD::write and read again, comes back equal. */
  lemma LodReadWriteRead(data: seq<byte>, p: nat, l: Lod, q: nat)
    requires ParseLod(data, p) == Done(l, q)
    ensures ParseLod(EncodeLod(l), 0) == Done(l, |EncodeLod(l)|)
  {
    LodReadValid(data, p);
    LodRoundTrip(EncodeLod(l), 0, l);
  }

  /** A document read from any stream, written by P3D::write and read again,
      comes back equal. */
  lemma P3dReadWriteRead(data: seq<byte>, p: nat, doc: P3d, q: nat)
    requires ParseP3d(data, p) == Done(doc, q)
    ensures ParseP3d(EncodeP3d(doc), 0) == Done(doc, |EncodeP3d(doc)|)
  {
    P3dReadValid(data, p);
    P3dFileRoundTrip(doc);
  }
}
