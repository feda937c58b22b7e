/** What src/p3d.rs promises about whole LODs and documents: LOD::read reads back
    what LOD::write wrote (header counts, the three record arrays, the tag table
    up to its sentinel and the resolution), P3D::read reads back what P3D::write
    wrote, and a wrong "TAGG" magic after the geometry is an error. */
module LodProofs {
  import opened Stream
  import opened Io
  import opened P3dFormat
  import opened P3dProofs
  import opened TagProofs

  // ---------------------------------------------------------------------------
  // The three stages of a LOD

  /** A written LOD is its geometry followed by its tail. */
  lemma LodParts(data: seq<byte>, p: nat, s: nat, l: Lod)
    requires s == p + |EncodeLodGeometry(l)|
    requires At(data, p, EncodeLod(l))
    ensures At(data, p, EncodeLodGeometry(l))
    ensures At(data, s, EncodeLodTail(l))
    ensures p + |EncodeLod(l)| == s + |EncodeLodTail(l)|
  {
    AtConcat(data, p, EncodeLodGeometry(l), EncodeLodTail(l));
  }

  /** Where the header and the three record arrays of a written geometry lie. */
  lemma GeometryParts(data: seq<byte>, p: nat, q0: nat, q1: nat, q2: nat, q3: nat, l: Lod)
    requires q0 == p + |EncodeLodHeader(HeaderOf(l))|
    requires q1 == q0 + |Flatten(l.points, EncodePoint)|
    requires q2 == q1 + |Flatten(l.faceNormals, EncodeNormal)|
    requires q3 == q2 + |Flatten(l.faces, EncodeFace)|
    requires At(data, p, EncodeLodGeometry(l))
    ensures At(data, p, EncodeLodHeader(HeaderOf(l)))
    ensures At(data, q0, Flatten(l.points, EncodePoint))
    ensures At(data, q1, Flatten(l.faceNormals, EncodeNormal))
    ensures At(data, q2, Flatten(l.faces, EncodeFace))
    ensures p + |EncodeLodGeometry(l)| == q3
  {
    At4(data, p, EncodeLodHeader(HeaderOf(l)), Flatten(l.points, EncodePoint),
        Flatten(l.faceNormals, EncodeNormal), Flatten(l.faces, EncodeFace));
  }

  /** The header fields, read back from where LOD::write put them; the reserved
      field is skipped whole. */
  lemma HeaderRoundTrip(data: seq<byte>, p: nat, h: LodHeader)
    requires At(data, p, EncodeLodHeader(h))
    ensures ParseLodHeader(data, p) == Done(h, p + 28)
  {
    var front := P3DM + LeBytes(h.versionMajor) + LeBytes(h.versionMinor) + LeBytes(h.numPoints);
    At4(data, p, front, LeBytes(h.numNormals), LeBytes(h.numFaces), RESERVED);
    At4(data, p, P3DM, LeBytes(h.versionMajor), LeBytes(h.versionMinor), LeBytes(h.numPoints));
    ReadU32At(data, p + 4, h.versionMajor);
    ReadU32At(data, p + 8, h.versionMinor);
    ReadU32At(data, p + 12, h.numPoints);
    ReadU32At(data, p + 16, h.numNormals);
    ReadU32At(data, p + 20, h.numFaces);
  }

  /** LOD::read's three counted loops put together. */
  lemma ArraysSteps(data: seq<byte>, p: nat, q1: nat, q2: nat, q3: nat, h: LodHeader,
                    pts: seq<Point>, ns: seq<Normal>, fs: seq<Face>)
    requires h.numPoints == |pts| && h.numNormals == |ns| && h.numFaces == |fs|
    requires ParseMany(data, p, |pts|, [], ParsePoint) == Done(pts, q1)
    requires ParseMany(data, q1, |ns|, [], ParseNormal) == Done(ns, q2)
    requires ParseMany(data, q2, |fs|, [], ParseFace) == Done(fs, q3)
    ensures ParseLodArrays(data, p, h) == Done((pts, ns, fs), q3)
  {
  }

  /** The three arrays, read back from where LOD::write put them, by the counts it wrote. */
  lemma ArraysRoundTrip(data: seq<byte>, p: nat, q1: nat, q2: nat, q3: nat, h: LodHeader,
                        pts: seq<Point>, ns: seq<Normal>, fs: seq<Face>)
    requires h.numPoints == |pts| && h.numNormals == |ns| && h.numFaces == |fs|
    requires forall i :: 0 <= i < |fs| ==> ValidFace(fs[i])
    requires q1 == p + |Flatten(pts, EncodePoint)|
    requires q2 == q1 + |Flatten(ns, EncodeNormal)|
    requires q3 == q2 + |Flatten(fs, EncodeFace)|
    requires At(data, p, Flatten(pts, EncodePoint))
    requires At(data, q1, Flatten(ns, EncodeNormal))
    requires At(data, q2, Flatten(fs, EncodeFace))
    ensures ParseLodArrays(data, p, h) == Done((pts, ns, fs), q3)
  {
    PointsRoundTrip(data, p, q1, pts);
    NormalsRoundTrip(data, q1, q2, ns);
    FacesRoundTrip(data, q2, q3, fs);
    ArraysSteps(data, p, q1, q2, q3, h, pts, ns, fs);
  }

  /** The header and the arrays of a written geometry, read back in order. */
  lemma GeometryRoundTrip(data: seq<byte>, p: nat, s: nat, l: Lod)
    requires ValidLod(l)
    requires s == p + |EncodeLodGeometry(l)|
    requires At(data, p, EncodeLodGeometry(l))
    ensures ParseLodHeader(data, p) == Done(HeaderOf(l), p + 28)
    ensures ParseLodArrays(data, p + 28, HeaderOf(l)) == Done((l.points, l.faceNormals, l.faces), s)
  {
    var q1 := p + 28 + |Flatten(l.points, EncodePoint)|;
    var q2 := q1 + |Flatten(l.faceNormals, EncodeNormal)|;
    GeometryParts(data, p, p + 28, q1, q2, s, l);
    HeaderRoundTrip(data, p, HeaderOf(l));
    ArraysRoundTrip(data, p + 28, q1, q2, s, HeaderOf(l), l.points, l.faceNormals, l.faces);
  }

  /** "TAGG", the tag table and the resolution, read back from where LOD::write put them. */
  lemma TailRoundTrip(data: seq<byte>, q: nat, e: nat, l: Lod)
    requires ValidTable(l.taggs)
    requires e == q + |EncodeLodTail(l)|
    requires At(data, q, EncodeLodTail(l))
    ensures ParseLodTail(data, q) == Done((l.taggs, l.resolution), e)
  {
    var r := q + 4 + |EncodeTaggs(l.taggs)|;
    At3(data, q, TAGG, EncodeTaggs(l.taggs), EncodeF32(l.resolution));
    TagsRoundTrip(data, q + 4, l.taggs);
    U32AtOf(data, r, l.resolution.bits);
  }

  /** LOD::read's three stages put together. */
  lemma LodSteps(data: seq<byte>, p: nat, q: nat, s: nat, e: nat, l: Lod)
    requires ParseLodHeader(data, p) == Done(HeaderOf(l), q)
    requires ParseLodArrays(data, q, HeaderOf(l)) == Done((l.points, l.faceNormals, l.faces), s)
    requires ParseLodTail(data, s) == Done((l.taggs, l.resolution), e)
    ensures ParseLod(data, p) == Done(l, e)
  {
  }

  /** LOD::read reads back what LOD::write wrote, for a LOD whose counts fit u32,
      whose faces have 3 or 4 vertices and NUL-free names, and whose tag names
      are distinct, NUL-free and not the sentinel's; it consumes exactly those bytes. */
  lemma LodRoundTrip(data: seq<byte>, p: nat, l: Lod)
    requires ValidLod(l)
    requires At(data, p, EncodeLod(l))
    ensures ParseLod(data, p) == Done(l, p + |EncodeLod(l)|)
  {
    var s := p + |EncodeLodGeometry(l)|;
    var e := p + |EncodeLod(l)|;
    LodParts(data, p, s, l);
    GeometryRoundTrip(data, p, s, l);
    TailRoundTrip(data, s, e, l);
    LodSteps(data, p, p + 28, s, e, l);
  }

  /** LOD::read rejects a LOD whose header and arrays read but are not followed by "TAGG". */
  lemma LodRejectsBadTagg(data: seq<byte>, p: nat, q: nat, s: nat, h: LodHeader,
                          arrays: (seq<Point>, seq<Normal>, seq<Face>))
    requires ParseLodHeader(data, p) == Done(h, q)
    requires ParseLodArrays(data, q, h) == Done(arrays, s)
    requires s + 4 <= |data| && data[s..s + 4] != TAGG
    ensures ParseLod(data, p) == Fail(BadMagic(data[s..s + 4]))
  {
    LodTailFacts(data, s);
  }

  lemma LodInverts(data: seq<byte>)
    ensures Inverts(data, EncodeLod, ParseLod, ValidLod)
  {
    forall l: Lod, q: nat
      ensures ValidLod(l) && At(data, q, EncodeLod(l)) ==> ParseLod(data, q) == Done(l, q + |EncodeLod(l)|)
    {
      if ValidLod(l) && At(data, q, EncodeLod(l)) {
        LodRoundTrip(data, q, l);
      }
    }
  }

  /** P3D::read's LOD loop reads back the LODs P3D::write wrote one after the other. */
  lemma LodsRoundTrip(data: seq<byte>, p: nat, q: nat, lods: seq<Lod>)
    requires forall i :: 0 <= i < |lods| ==> ValidLod(lods[i])
    requires q == p + |Flatten(lods, EncodeLod)|
    requires At(data, p, Flatten(lods, EncodeLod))
    ensures ParseMany(data, p, |lods|, [], ParseLod) == Done(lods, q)
  {
    LodInverts(data);
    ParseManyFlatten(data, p, lods, [], EncodeLod, ParseLod, ValidLod);
    assert [] + lods == lods;
  }

  // ---------------------------------------------------------------------------
  // Documents

  /** Where the header fields and the LODs of a written document lie. */
  lemma P3dParts(data: seq<byte>, p: nat, doc: P3d)
    requires At(data, p, EncodeP3d(doc))
    ensures At(data, p, MLOD)
    ensures At(data, p + 4, LeBytes(doc.version))
    ensures At(data, p + 8, LeBytes(Truncate32(|doc.lods|)))
    ensures At(data, p + 12, Flatten(doc.lods, EncodeLod))
    ensures p + |EncodeP3d(doc)| == p + 12 + |Flatten(doc.lods, EncodeLod)|
  {
    At4(data, p, MLOD, LeBytes(doc.version), LeBytes(Truncate32(|doc.lods|)),
        Flatten(doc.lods, EncodeLod));
  }

  /** P3D::read's steps put together. */
  lemma P3dSteps(data: seq<byte>, p: nat, e: nat, doc: P3d)
    requires At(data, p, MLOD)
    requires ReadU32(data, p + 4) == Done(doc.version, p + 8)
    requires ReadU32(data, p + 8) == Done(|doc.lods|, p + 12)
    requires ParseMany(data, p + 12, |doc.lods|, [], ParseLod) == Done(doc.lods, e)
    ensures ParseP3d(data, p) == Done(doc, e)
  {
  }

  /** P3D::read reads back what P3D::write wrote, for a document whose LODs are
      valid and whose LOD count fits u32, and consumes exactly those bytes. */
  lemma P3dRoundTrip(data: seq<byte>, p: nat, doc: P3d)
    requires ValidP3d(doc)
    requires At(data, p, EncodeP3d(doc))
    ensures ParseP3d(data, p) == Done(doc, p + |EncodeP3d(doc)|)
  {
    P3dParts(data, p, doc);
    ReadU32At(data, p + 4, doc.version);
    ReadU32At(data, p + 8, |doc.lods|);
    LodsRoundTrip(data, p + 12, p + |EncodeP3d(doc)|, doc.lods);
    P3dSteps(data, p, p + |EncodeP3d(doc)|, doc);
  }

  /** A whole file written by P3D::write is read back by P3D::read to its last byte. */
  lemma P3dFileRoundTrip(doc: P3d)
    requires ValidP3d(doc)
    ensures ParseP3d(EncodeP3d(doc), 0) == Done(doc, |EncodeP3d(doc)|)
  {
    var bs := EncodeP3d(doc);
    assert bs[0..|bs|] == bs;
    P3dRoundTrip(bs, 0, doc);
  }
}
