/** What src/p3d.rs promises about its readers and writers: each reader reads back
    what the matching writer wrote and consumes exactly those bytes; counts,
    padding and the tag sentinel sit where the format puts them; a wrong magic
    or vertex count is an error. */
module P3dProofs {
  import opened Stream
  import opened Io
  import opened P3dFormat

  // ---------------------------------------------------------------------------
  // Splitting a written record into its fields

  lemma At3(data: seq<byte>, p: nat, a: seq<byte>, b: seq<byte>, c: seq<byte>)
    requires At(data, p, a + b + c)
    ensures At(data, p, a) && At(data, p + |a|, b) && At(data, p + |a| + |b|, c)
  {
    AtConcat(data, p, a + b, c);
    AtConcat(data, p, a, b);
  }

  lemma At4(data: seq<byte>, p: nat, a: seq<byte>, b: seq<byte>, c: seq<byte>, d: seq<byte>)
    requires At(data, p, a + b + c + d)
    ensures At(data, p, a) && At(data, p + |a|, b) && At(data, p + |a| + |b|, c)
            && At(data, p + |a| + |b| + |c|, d)
  {
    AtConcat(data, p, a + b + c, d);
    At3(data, p, a, b, c);
  }

  lemma U32AtOf(data: seq<byte>, p: nat, x: u32)
    requires At(data, p, LeBytes(x))
    ensures p + 4 <= |data| && U32At(data, p) == x
  {
    ReadU32At(data, p, x);
  }

  /** read_f32 reads back the bit pattern write_f32 wrote, and advances by four. */
  lemma F32RoundTrip(data: seq<byte>, p: nat, f: F32)
    requires At(data, p, EncodeF32(f))
    ensures ParseF32(data, p) == Done(f, p + 4)
  {
    U32AtOf(data, p, f.bits);
  }

  // ---------------------------------------------------------------------------
  // Fixed-size records

  /** Point::read reads back the 16 bytes Point::write wrote. */
  lemma PointRoundTrip(data: seq<byte>, p: nat, pt: Point)
    requires At(data, p, EncodePoint(pt))
    ensures ParsePoint(data, p) == Done(pt, p + |EncodePoint(pt)|)
  {
    var (x, y, z) := pt.coords;
    At4(data, p, EncodeF32(x), EncodeF32(y), EncodeF32(z), LeBytes(pt.flags));
    U32AtOf(data, p, x.bits);
    U32AtOf(data, p + 4, y.bits);
    U32AtOf(data, p + 8, z.bits);
    U32AtOf(data, p + 12, pt.flags);
  }

  /** Vertex::read reads back the 16 bytes Vertex::write wrote. */
  lemma VertexRoundTrip(data: seq<byte>, p: nat, v: Vertex)
    requires At(data, p, EncodeVertex(v))
    ensures ParseVertex(data, p) == Done(v, p + |EncodeVertex(v)|)
  {
    At4(data, p, LeBytes(v.pointIndex), LeBytes(v.normalIndex), EncodeF32(v.uv.0), EncodeF32(v.uv.1));
    U32AtOf(data, p, v.pointIndex);
    U32AtOf(data, p + 4, v.normalIndex);
    U32AtOf(data, p + 8, v.uv.0.bits);
    U32AtOf(data, p + 12, v.uv.1.bits);
  }

  /** The three f32 of a face normal, read back as written. */
  lemma NormalRoundTrip(data: seq<byte>, p: nat, n: Normal)
    requires At(data, p, EncodeNormal(n))
    ensures ParseNormal(data, p) == Done(n, p + |EncodeNormal(n)|)
  {
    At3(data, p, EncodeF32(n.0), EncodeF32(n.1), EncodeF32(n.2));
    U32AtOf(data, p, n.0.bits);
    U32AtOf(data, p + 4, n.1.bits);
    U32AtOf(data, p + 8, n.2.bits);
  }

  predicate AnyVertex(v: Vertex) { true }
  predicate AnyPoint(pt: Point) { true }
  predicate AnyNormal(n: Normal) { true }

  lemma VertexInverts(data: seq<byte>)
    ensures Inverts(data, EncodeVertex, ParseVertex, AnyVertex)
  {
    forall v: Vertex, q: nat | AnyVertex(v) && At(data, q, EncodeVertex(v))
      ensures ParseVertex(data, q) == Done(v, q + |EncodeVertex(v)|)
    {
      VertexRoundTrip(data, q, v);
    }
  }

  lemma PointInverts(data: seq<byte>)
    ensures Inverts(data, EncodePoint, ParsePoint, AnyPoint)
  {
    forall pt: Point, q: nat | AnyPoint(pt) && At(data, q, EncodePoint(pt))
      ensures ParsePoint(data, q) == Done(pt, q + |EncodePoint(pt)|)
    {
      PointRoundTrip(data, q, pt);
    }
  }

  lemma NormalInverts(data: seq<byte>)
    ensures Inverts(data, EncodeNormal, ParseNormal, AnyNormal)
  {
    forall n: Normal, q: nat | AnyNormal(n) && At(data, q, EncodeNormal(n))
      ensures ParseNormal(data, q) == Done(n, q + |EncodeNormal(n)|)
    {
      NormalRoundTrip(data, q, n);
    }
  }

  /** Reading `|xs|` fixed-size records written back to back gives them back. */
  lemma VerticesRoundTrip(data: seq<byte>, p: nat, vs: seq<Vertex>)
    requires At(data, p, Flatten(vs, EncodeVertex))
    ensures ParseMany(data, p, |vs|, [], ParseVertex) == Done(vs, p + |Flatten(vs, EncodeVertex)|)
  {
    VertexInverts(data);
    ParseManyFlatten(data, p, vs, [], EncodeVertex, ParseVertex, AnyVertex);
    assert [] + vs == vs;
  }

  lemma PointsRoundTrip(data: seq<byte>, p: nat, q: nat, pts: seq<Point>)
    requires q == p + |Flatten(pts, EncodePoint)|
    requires At(data, p, Flatten(pts, EncodePoint))
    ensures ParseMany(data, p, |pts|, [], ParsePoint) == Done(pts, q)
  {
    PointInverts(data);
    ParseManyFlatten(data, p, pts, [], EncodePoint, ParsePoint, AnyPoint);
    assert [] + pts == pts;
  }

  lemma NormalsRoundTrip(data: seq<byte>, p: nat, q: nat, ns: seq<Normal>)
    requires q == p + |Flatten(ns, EncodeNormal)|
    requires At(data, p, Flatten(ns, EncodeNormal))
    ensures ParseMany(data, p, |ns|, [], ParseNormal) == Done(ns, q)
  {
    NormalInverts(data);
    ParseManyFlatten(data, p, ns, [], EncodeNormal, ParseNormal, AnyNormal);
    assert [] + ns == ns;
  }

  // ---------------------------------------------------------------------------
  // Faces

  /** The part of a face up to its flags: count, vertices and the padding slot. */
  function FaceHead(f: Face): seq<byte> {
    LeBytes(Truncate32(|f.vertices|))
    + Flatten(f.vertices, EncodeVertex)
    + (if |f.vertices| == 3 then EncodeVertex(ZERO_VERTEX) else [])
  }

  lemma FaceSplit(f: Face)
    ensures EncodeFace(f) == FaceHead(f) + LeBytes(f.flags) + EncodeCString(f.texture)
                             + EncodeCString(f.material)
  {
  }

  /** Every vertex record is 16 bytes, so the vertices of a face take 16 per vertex. */
  lemma VerticesLength(vs: seq<Vertex>)
    ensures |Flatten(vs, EncodeVertex)| == 16 * |vs|
  {
    FlattenLength(vs, EncodeVertex, 16);
  }

  /** Face::write: a face takes four vertex slots whether it has three or four
      vertices, and a triangle's fourth slot is sixteen zero bytes. */
  lemma FacePadding(f: Face)
    requires |f.vertices| == 3 || |f.vertices| == 4
    ensures |FaceHead(f)| == 4 + 4 * 16
    ensures |EncodeFace(f)| == 4 + 4 * 16 + 4 + |f.texture| + 1 + |f.material| + 1
    ensures |f.vertices| == 3 ==> FaceHead(f)[4 + 3 * 16..] == seq(16, _ => 0)
    ensures |f.vertices| == 3 ==> EncodeFace(f)[4 + 3 * 16..4 + 4 * 16] == seq(16, _ => 0)
  {
    VerticesLength(f.vertices);
    FaceSplit(f);
    if |f.vertices| == 3 {
      var head := FaceHead(f);
      var front := LeBytes(Truncate32(3)) + Flatten(f.vertices, EncodeVertex);
      assert head == front + EncodeVertex(ZERO_VERTEX);
      assert head[|front|..] == EncodeVertex(ZERO_VERTEX);
      assert EncodeVertex(ZERO_VERTEX) == seq(16, _ => 0);
      assert EncodeFace(f)[4 + 3 * 16..4 + 4 * 16] == head[4 + 3 * 16..];
    }
  }

  /** Face::read skips exactly the slot Face::write added after a triangle. */
  lemma FaceVerticesRoundTrip(data: seq<byte>, p: nat, f: Face)
    requires |f.vertices| == 3 || |f.vertices| == 4
    requires At(data, p, FaceHead(f))
    ensures ParseFaceVertices(data, p) == Done(f.vertices, p + |FaceHead(f)|)
  {
    var n := |f.vertices|;
    var pad := if n == 3 then EncodeVertex(ZERO_VERTEX) else [];
    var vs := Flatten(f.vertices, EncodeVertex);
    At3(data, p, LeBytes(Truncate32(n)), vs, pad);
    ReadU32At(data, p, n);
    VerticesRoundTrip(data, p + 4, f.vertices);
    if n == 3 {
      VertexRoundTrip(data, p + 4 + |vs|, ZERO_VERTEX);
    }
  }

  /** The flags and the two names that follow the vertex slots read back as written. */
  lemma FaceTailRoundTrip(data: seq<byte>, q: nat, flags: u32, texture: seq<byte>, material: seq<byte>)
    requires 0 !in texture && 0 !in material
    requires At(data, q, LeBytes(flags)) && At(data, q + 4, EncodeCString(texture))
    requires At(data, q + 4 + |texture| + 1, EncodeCString(material))
    ensures ParseFaceTail(data, q)
            == Done((flags, texture, material), q + 4 + |texture| + 1 + |material| + 1)
  {
    ReadU32At(data, q, flags);
    CStringRoundTrip(data, q + 4, texture);
    CStringRoundTrip(data, q + 4 + |texture| + 1, material);
  }

  /** Face::read, read as its two halves. */
  lemma FaceSteps(data: seq<byte>, p: nat, q: nat, s: nat, f: Face)
    requires ParseFaceVertices(data, p) == Done(f.vertices, q)
    requires ParseFaceTail(data, q) == Done((f.flags, f.texture, f.material), s)
    ensures ParseFace(data, p) == Done(f, s)
  {
  }

  /** Where each field of a written face lies; `q` is where the flags start. */
  lemma FaceParts(data: seq<byte>, p: nat, q: nat, f: Face)
    requires q == p + |FaceHead(f)|
    requires At(data, p, EncodeFace(f))
    ensures At(data, p, FaceHead(f))
    ensures At(data, q, LeBytes(f.flags))
    ensures At(data, q + 4, EncodeCString(f.texture))
    ensures At(data, q + 4 + |f.texture| + 1, EncodeCString(f.material))
    ensures p + |EncodeFace(f)| == q + 4 + |f.texture| + 1 + |f.material| + 1
  {
    FaceSplit(f);
    At4(data, p, FaceHead(f), LeBytes(f.flags), EncodeCString(f.texture), EncodeCString(f.material));
  }

  /** The fields after the vertex slots, read back from where Face::write put them. */
  lemma FaceFieldsRoundTrip(data: seq<byte>, p: nat, q: nat, f: Face)
    requires ValidFace(f)
    requires ParseFaceVertices(data, p) == Done(f.vertices, q)
    requires At(data, q, LeBytes(f.flags))
    requires At(data, q + 4, EncodeCString(f.texture))
    requires At(data, q + 4 + |f.texture| + 1, EncodeCString(f.material))
    ensures ParseFace(data, p) == Done(f, q + 4 + |f.texture| + 1 + |f.material| + 1)
  {
    FaceTailRoundTrip(data, q, f.flags, f.texture, f.material);
    FaceSteps(data, p, q, q + 4 + |f.texture| + 1 + |f.material| + 1, f);
  }

  /** Face::read reads back what Face::write wrote, for a face with 3 or 4 vertices
      and NUL-free names, and consumes exactly those bytes. */
  lemma FaceRoundTrip(data: seq<byte>, p: nat, f: Face)
    requires ValidFace(f)
    requires At(data, p, EncodeFace(f))
    ensures ParseFace(data, p) == Done(f, p + |EncodeFace(f)|)
  {
    var q := p + |FaceHead(f)|;
    FaceParts(data, p, q, f);
    FaceVerticesRoundTrip(data, p, f);
    FaceFieldsRoundTrip(data, p, q, f);
  }

  /** Face::read rejects a vertex count other than 3 or 4 before reading any vertex. */
  lemma FaceRejectsBadCount(data: seq<byte>, p: nat, count: u32)
    requires At(data, p, LeBytes(count)) && count != 3 && count != 4
    ensures ParseFace(data, p) == Fail(BadVertexCount(count))
  {
    ReadU32At(data, p, count);
    assert ParseFaceVertices(data, p) == Fail(BadVertexCount(count));
  }

  lemma FaceInverts(data: seq<byte>)
    ensures Inverts(data, EncodeFace, ParseFace, ValidFace)
  {
    forall f: Face, q: nat | ValidFace(f) && At(data, q, EncodeFace(f))
      ensures ParseFace(data, q) == Done(f, q + |EncodeFace(f)|)
    {
      FaceRoundTrip(data, q, f);
    }
  }

  lemma FacesRoundTrip(data: seq<byte>, p: nat, q: nat, fs: seq<Face>)
    requires forall i :: 0 <= i < |fs| ==> ValidFace(fs[i])
    requires q == p + |Flatten(fs, EncodeFace)|
    requires At(data, p, Flatten(fs, EncodeFace))
    ensures ParseMany(data, p, |fs|, [], ParseFace) == Done(fs, q)
  {
    FaceInverts(data);
    ParseManyFlatten(data, p, fs, [], EncodeFace, ParseFace, ValidFace);
    assert [] + fs == fs;
  }

}
