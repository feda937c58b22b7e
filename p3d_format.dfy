/** The MLOD/P3DM container of src/p3d.rs as data: the document, its LODs and their
    records, and, for each, the bytes its writer emits (`Encode…`) and what its
    reader makes of a stream (`Parse…`). All fields are little-endian.

      document  "MLOD" | u32 version | u32 lod count | LOD…
      LOD       "P3DM" | u32 major | u32 minor | u32 points | u32 normals | u32 faces
                | 4 reserved bytes | Point… | normal… | Face… | "TAGG" | tag entry…
                | f32 resolution
      Point     3 × f32 coordinates | u32 flags
      Vertex    u32 point index | u32 normal index | 2 × f32 uv
      Face      u32 vertex count (3 or 4) | Vertex… | padding Vertex if 3 | u32 flags
                | cstring texture | cstring material
      tag entry 0x01 | cstring name | u32 payload length | payload;
                the entry named "#EndOfFile#" ends the table */
module P3dFormat {
  import opened Stream
  import opened Io

  /** An f32 the codec only copies: kept as its 32-bit pattern, which
      read_f32 / write_f32 move as a little-endian u32. */
  datatype F32 = F32(bits: u32)

  datatype Point = Point(coords: (F32, F32, F32), flags: u32)

  datatype Vertex = Vertex(pointIndex: u32, normalIndex: u32, uv: (F32, F32))

  type Normal = (F32, F32, F32)

  datatype Face = Face(vertices: seq<Vertex>, flags: u32, texture: seq<byte>, material: seq<byte>)

  /** One entry of a LOD's tag table; the table is a sequence in insertion order. */
  datatype Tag = Tag(name: seq<byte>, payload: seq<byte>)

  datatype Lod = Lod(versionMajor: u32, versionMinor: u32, resolution: F32,
                     points: seq<Point>, faceNormals: seq<Normal>, faces: seq<Face>,
                     taggs: seq<Tag>)

  datatype P3d = P3d(version: u32, lods: seq<Lod>)

  const MLOD: seq<byte> := [0x4D, 0x4C, 0x4F, 0x44]
  const P3DM: seq<byte> := [0x50, 0x33, 0x44, 0x4D]
  const TAGG: seq<byte> := [0x54, 0x41, 0x47, 0x47]
  /** "#EndOfFile#", the name of the entry that ends a tag table. */
  const END_OF_FILE: seq<byte> := [0x23, 0x45, 0x6E, 0x64, 0x4F, 0x66, 0x46, 0x69, 0x6C, 0x65, 0x23]
  /** What the LOD writer puts in the reserved field. */
  const RESERVED: seq<byte> := [0, 0, 0, 0]
  /** Vertex::new(), written as the padding slot of a triangle. */
  const ZERO_VERTEX: Vertex := Vertex(0, 0, (F32(0), F32(0)))

  /** read_exact of four bytes, then the source's `assert_eq!` against the magic. */
  function ReadMagic(data: seq<byte>, p: nat, magic: seq<byte>): (r: Parsed<seq<byte>>)
    requires |magic| == 4
    ensures r.Done? <==> p + 4 <= |data| && data[p..p + 4] == magic
    ensures r.Done? ==> r.next == p + 4
    ensures p + 4 <= |data| && data[p..p + 4] != magic ==> r == Fail(BadMagic(data[p..p + 4]))
    ensures p + 4 > |data| ==> r == Fail(UnexpectedEof)
  {
    var found :- ReadExact(data, p, 4);
    if found.0 == magic then Done(found.0, found.1) else Fail(BadMagic(found.0))
  }

  // ---------------------------------------------------------------------------
  // Fixed-size records

  /** write_f32::<LittleEndian>: the four little-endian bytes of the bit pattern. */
  function EncodeF32(f: F32): seq<byte> {
    LeBytes(f.bits)
  }

  /** The f32 whose bit pattern is the u32 stored at `p`. */
  function F32At(data: seq<byte>, p: nat): F32
    requires p + 4 <= |data|
  {
    F32(U32At(data, p))
  }

  function ParseF32(data: seq<byte>, p: nat): (r: Parsed<F32>)
    ensures r.Done? <==> p + 4 <= |data|
    ensures r.Done? ==> r.next == p + 4
  {
    if p + 4 <= |data| then Done(F32At(data, p), p + 4) else Fail(UnexpectedEof)
  }

  /** Point::write. */
  function EncodePoint(pt: Point): (bs: seq<byte>)
    ensures |bs| == 16
  {
    EncodeF32(pt.coords.0) + EncodeF32(pt.coords.1) + EncodeF32(pt.coords.2) + LeBytes(pt.flags)
  }

  /** Point::read: four 4-byte fields, so it fails exactly when fewer than 16 bytes remain. */
  function ParsePoint(data: seq<byte>, p: nat): (r: Parsed<Point>)
    ensures r.Done? <==> p + 16 <= |data|
    ensures r.Done? ==> r.next == p + 16
  {
    if p + 16 <= |data| then
      Done(Point((F32At(data, p), F32At(data, p + 4), F32At(data, p + 8)), U32At(data, p + 12)), p + 16)
    else
      Fail(UnexpectedEof)
  }

  /** Vertex::write. */
  function EncodeVertex(v: Vertex): (bs: seq<byte>)
    ensures |bs| == 16
  {
    LeBytes(v.pointIndex) + LeBytes(v.normalIndex) + EncodeF32(v.uv.0) + EncodeF32(v.uv.1)
  }

  /** Vertex::read. */
  function ParseVertex(data: seq<byte>, p: nat): (r: Parsed<Vertex>)
    ensures r.Done? <==> p + 16 <= |data|
    ensures r.Done? ==> r.next == p + 16
  {
    if p + 16 <= |data| then
      Done(Vertex(U32At(data, p), U32At(data, p + 4), (F32At(data, p + 8), F32At(data, p + 12))), p + 16)
    else
      Fail(UnexpectedEof)
  }

  /** A face normal as LOD::write emits it: three f32. */
  function EncodeNormal(n: Normal): (bs: seq<byte>)
    ensures |bs| == 12
  {
    EncodeF32(n.0) + EncodeF32(n.1) + EncodeF32(n.2)
  }

  /** A face normal as LOD::read reads it. */
  function ParseNormal(data: seq<byte>, p: nat): (r: Parsed<Normal>)
    ensures r.Done? <==> p + 12 <= |data|
    ensures r.Done? ==> r.next == p + 12
  {
    if p + 12 <= |data| then
      Done((F32At(data, p), F32At(data, p + 4), F32At(data, p + 8)), p + 12)
    else
      Fail(UnexpectedEof)
  }

  // ---------------------------------------------------------------------------
  // Faces

  /** Face::write: the count is `vertices.len() as u32`; a triangle gets one
      ZERO_VERTEX after its three vertices. Any other count is written as it is. */
  function EncodeFace(f: Face): seq<byte> {
    LeBytes(Truncate32(|f.vertices|))
    + Flatten(f.vertices, EncodeVertex)
    + (if |f.vertices| == 3 then EncodeVertex(ZERO_VERTEX) else [])
    + LeBytes(f.flags)
    + EncodeCString(f.texture)
    + EncodeCString(f.material)
  }

  /** The first half of Face::read: a vertex count that is neither 3 nor 4 is an
      error (the source asserts); a triangle's fourth slot is read and dropped. */
  function ParseFaceVertices(data: seq<byte>, p: nat): (r: Parsed<seq<Vertex>>)
    ensures r.Done? ==> |r.value| == 3 || |r.value| == 4
  {
    var count :- ReadU32(data, p);
    var n := count.0;
    if n != 3 && n != 4 then Fail(BadVertexCount(n))
    else
      var verts :- ParseMany(data, count.1, n, [], ParseVertex);
      var padded :- if n == 3 then ParseVertex(data, verts.1) else Done(ZERO_VERTEX, verts.1);
      Done(verts.0, padded.1)
  }

  /** The second half of Face::read: the flags, then the texture and material names. */
  function ParseFaceTail(data: seq<byte>, p: nat): (r: Parsed<(u32, seq<byte>, seq<byte>)>)
    ensures r.Done? ==> p + 4 <= r.next <= |data|
  {
    var flags :- ReadU32(data, p);
    var texture := ParseCString(data, flags.1);
    var material := ParseCString(data, texture.next);
    Done((flags.0, texture.value, material.value), material.next)
  }

  /** Face::read: the vertices, then the flags and the texture and material names. */
  function ParseFace(data: seq<byte>, p: nat): (r: Parsed<Face>)
    ensures r.Done? ==> |r.value.vertices| == 3 || |r.value.vertices| == 4
    ensures r.Done? ==> r.next <= |data|
  {
    var verts :- ParseFaceVertices(data, p);
    var tail :- ParseFaceTail(data, verts.1);
    var (flags, texture, material) := tail.0;
    Done(Face(verts.0, flags, texture, material), tail.1)
  }

  /** Face::read takes its vertex count from the u32 at `p` and accepts only 3 and 4. */
  lemma FaceVertexCount(data: seq<byte>, p: nat)
    ensures ReadU32(data, p).Done? && ReadU32(data, p).value != 3 && ReadU32(data, p).value != 4
            ==> ParseFace(data, p) == Fail(BadVertexCount(ReadU32(data, p).value))
    ensures ParseFace(data, p).Done?
            ==> p + 4 <= |data| && |ParseFace(data, p).value.vertices| == U32At(data, p)
  {
  }

  /** What the round trip needs of a face: 3 or 4 vertices and NUL-free strings. */
  predicate ValidFace(f: Face) {
    (|f.vertices| == 3 || |f.vertices| == 4) && 0 !in f.texture && 0 !in f.material
  }

  // ---------------------------------------------------------------------------
  // Tag tables

  function NameSet(ts: seq<Tag>): set<seq<byte>> {
    if ts == [] then {} else {ts[0].name} + NameSet(ts[1..])
  }

  predicate DistinctNames(ts: seq<Tag>) {
    ts == [] || (ts[0].name !in NameSet(ts[1..]) && DistinctNames(ts[1..]))
  }

  /** The table without the entry named `name`, the others in their order. */
  function Without(ts: seq<Tag>, name: seq<byte>): (r: seq<Tag>)
    ensures NameSet(r) == NameSet(ts) - {name}
    ensures DistinctNames(ts) ==> DistinctNames(r)
    ensures name !in NameSet(ts) ==> r == ts
  {
    if ts == [] then []
    else if ts[0].name == name then Without(ts[1..], name)
    else [ts[0]] + Without(ts[1..], name)
  }

  lemma {:induction false} NameSetSnoc(ts: seq<Tag>, t: Tag)
    ensures NameSet(ts + [t]) == NameSet(ts) + {t.name}
  {
    if ts != [] {
      assert (ts + [t])[1..] == ts[1..] + [t];
      NameSetSnoc(ts[1..], t);
    } else {
      assert [t][1..] == [];
    }
  }

  lemma {:induction false} DistinctSnoc(ts: seq<Tag>, t: Tag)
    ensures DistinctNames(ts) && t.name !in NameSet(ts) ==> DistinctNames(ts + [t])
  {
    if ts == [] {
      assert [t][1..] == [];
    } else if DistinctNames(ts) && t.name !in NameSet(ts) {
      assert (ts + [t])[1..] == ts[1..] + [t];
      NameSetSnoc(ts[1..], t);
      DistinctSnoc(ts[1..], t);
    }
  }

  /** LinkedHashMap::insert: a new name is appended; an existing name has its
      entry replaced and moved to the back, as the map's insert relinks the node. */
  function Insert(ts: seq<Tag>, t: Tag): (r: seq<Tag>)
    ensures NameSet(r) == NameSet(ts) + {t.name}
    ensures DistinctNames(ts) ==> DistinctNames(r)
    ensures t.name !in NameSet(ts) ==> r == ts + [t]
  {
    NameSetSnoc(Without(ts, t.name), t);
    DistinctSnoc(Without(ts, t.name), t);
    Without(ts, t.name) + [t]
  }

  /** What the reader can produce: distinct names, none of them the sentinel's. */
  predicate WellFormedTable(ts: seq<Tag>) {
    DistinctNames(ts) && END_OF_FILE !in NameSet(ts)
  }

  /** What the round trip needs of an entry: a NUL-free name that is not the
      sentinel's, and a payload whose length fits the u32 field. */
  predicate ValidTag(t: Tag) {
    0 !in t.name && t.name != END_OF_FILE && |t.payload| < U32_LIMIT
  }

  predicate ValidTable(ts: seq<Tag>) {
    DistinctNames(ts) && forall i :: 0 <= i < |ts| ==> ValidTag(ts[i])
  }

  /** One iteration of LOD::write's tag loop. */
  function EncodeTag(t: Tag): (bs: seq<byte>)
    ensures |bs| == 6 + |t.name| + |t.payload| && bs[0] == 0x01
  {
    [0x01] + EncodeCString(t.name) + LeBytes(Truncate32(|t.payload|)) + t.payload
  }

  /** The closing entry, written as the cstring "\x01#EndOfFile#" and a u32 0. */
  const SENTINEL: seq<byte> := EncodeCString([0x01] + END_OF_FILE) + LeBytes(0)

  /** The tag section after "TAGG": every entry in table order, then the sentinel. */
  function EncodeTaggs(ts: seq<Tag>): seq<byte> {
    Flatten(ts, EncodeTag) + SENTINEL
  }

  /** One iteration of LOD::read's tag loop before the sentinel test: the marker byte
      is dropped unchecked (`bytes().next()`), then name, length and payload. At the
      end of the stream the name is empty and the length read fails. */
  function ParseTagEntry(data: seq<byte>, p: nat): (r: Parsed<Tag>)
    ensures r.Done? ==> p < r.next <= |data|
  {
    if |data| <= p then Fail(UnexpectedEof)
    else
      var name := ParseCString(data, SkipUpTo(data, p, 1));
      var size :- ReadU32(data, name.next);
      var payload :- ReadExact(data, size.1, size.0);
      Done(Tag(name.value, payload.0), payload.1)
  }

  /** An entry reader that, wherever it succeeds, moves forward within the stream. */
  ghost predicate Advances(data: seq<byte>, entry: (seq<byte>, nat) -> Parsed<Tag>) {
    forall q: nat :: entry(data, q).Done? ==> q < entry(data, q).next <= |data|
  }

  /** LOD::read's tag loop over the entries that `entry` reads, with `acc` the
      entries inserted so far: it ends at the entry named "#EndOfFile#", which is
      not inserted. */
  function TagLoop(data: seq<byte>, p: nat, acc: seq<Tag>,
                   entry: (seq<byte>, nat) -> Parsed<Tag>): (r: Parsed<seq<Tag>>)
    requires p <= |data| && Advances(data, entry)
    ensures r.Done? ==> p < r.next <= |data|
    decreases |data| - p
  {
    var e :- entry(data, p);
    if e.0.name == END_OF_FILE then Done(acc, e.1)
    else TagLoop(data, e.1, Insert(acc, e.0), entry)
  }

  lemma TagEntryAdvances(data: seq<byte>)
    ensures Advances(data, ParseTagEntry)
  {
  }

  /** LOD::read's tag loop. */
  function ParseTags(data: seq<byte>, p: nat, acc: seq<Tag>): (r: Parsed<seq<Tag>>)
    requires p <= |data|
    ensures r.Done? ==> p < r.next <= |data|
  {
    TagEntryAdvances(data);
    TagLoop(data, p, acc, ParseTagEntry)
  }

  /** The loop keeps the table a map: names stay distinct, and the sentinel's name,
      which ends the loop, is never inserted. */
  lemma {:induction false} TagLoopWellFormed(data: seq<byte>, p: nat, acc: seq<Tag>,
                                             entry: (seq<byte>, nat) -> Parsed<Tag>)
    requires p <= |data| && Advances(data, entry) && WellFormedTable(acc)
    ensures TagLoop(data, p, acc, entry).Done? ==> WellFormedTable(TagLoop(data, p, acc, entry).value)
    decreases |data| - p
  {
    var e := entry(data, p);
    if e.Done? && e.value.name != END_OF_FILE {
      var next := Insert(acc, e.value);
      assert END_OF_FILE !in NameSet(next);
      TagLoopWellFormed(data, e.next, next, entry);
    }
  }

  lemma TagsWellFormed(data: seq<byte>, p: nat)
    requires p <= |data|
    ensures ParseTags(data, p, []).Done? ==> WellFormedTable(ParseTags(data, p, []).value)
  {
    TagEntryAdvances(data);
    TagLoopWellFormed(data, p, [], ParseTagEntry);
  }

  // ---------------------------------------------------------------------------
  // LODs

  /** The fields of the 28-byte LOD header; the reserved field is not kept. */
  datatype LodHeader = LodHeader(versionMajor: u32, versionMinor: u32,
                                 numPoints: u32, numNormals: u32, numFaces: u32)

  /** The header LOD::write emits for `l`: the counts are the array lengths as u32. */
  function HeaderOf(l: Lod): (h: LodHeader)
    ensures h.versionMajor == l.versionMajor && h.versionMinor == l.versionMinor
    ensures |l.points| < U32_LIMIT ==> h.numPoints == |l.points|
    ensures |l.faceNormals| < U32_LIMIT ==> h.numNormals == |l.faceNormals|
    ensures |l.faces| < U32_LIMIT ==> h.numFaces == |l.faces|
  {
    LodHeader(l.versionMajor, l.versionMinor,
              Truncate32(|l.points|), Truncate32(|l.faceNormals|), Truncate32(|l.faces|))
  }

  /** LOD::write's header; the reserved field is four zero bytes. */
  function EncodeLodHeader(h: LodHeader): (bs: seq<byte>)
    ensures |bs| == 28
  {
    P3DM
    + LeBytes(h.versionMajor) + LeBytes(h.versionMinor)
    + LeBytes(h.numPoints) + LeBytes(h.numNormals) + LeBytes(h.numFaces)
    + RESERVED
  }

  /** LOD::write up to (not including) "TAGG". */
  function EncodeLodGeometry(l: Lod): seq<byte> {
    EncodeLodHeader(HeaderOf(l))
    + Flatten(l.points, EncodePoint)
    + Flatten(l.faceNormals, EncodeNormal)
    + Flatten(l.faces, EncodeFace)
  }

  /** LOD::write from "TAGG" on: the tag table and the resolution. */
  function EncodeLodTail(l: Lod): seq<byte> {
    TAGG + EncodeTaggs(l.taggs) + EncodeF32(l.resolution)
  }

  /** LOD::write. */
  function EncodeLod(l: Lod): seq<byte> {
    EncodeLodGeometry(l) + EncodeLodTail(l)
  }

  /** LOD::read up to the points: the magic, five u32 fields, then the reserved
      field drained through `bytes()`, which a short stream does not make fail. */
  function ParseLodHeader(data: seq<byte>, p: nat): (r: Parsed<LodHeader>)
    ensures r.Done? ==> p + 24 <= r.next <= |data|
  {
    var magic :- ReadMagic(data, p, P3DM);
    var major :- ReadU32(data, magic.1);
    var minor :- ReadU32(data, major.1);
    var numPoints :- ReadU32(data, minor.1);
    var numNormals :- ReadU32(data, numPoints.1);
    var numFaces :- ReadU32(data, numNormals.1);
    Done(LodHeader(major.0, minor.0, numPoints.0, numNormals.0, numFaces.0),
         SkipUpTo(data, numFaces.1, 4))
  }

  /** LOD::read's three counted loops: as many points, normals and faces as the header says. */
  function ParseLodArrays(data: seq<byte>, p: nat, h: LodHeader)
    : (r: Parsed<(seq<Point>, seq<Normal>, seq<Face>)>)
  {
    var points :- ParseMany(data, p, h.numPoints, [], ParsePoint);
    var normals :- ParseMany(data, points.1, h.numNormals, [], ParseNormal);
    var faces :- ParseMany(data, normals.1, h.numFaces, [], ParseFace);
    Done((points.0, normals.0, faces.0), faces.1)
  }

  /** LOD::read from "TAGG" on: the magic, the tag table and the resolution. */
  function ParseLodTail(data: seq<byte>, p: nat): (r: Parsed<(seq<Tag>, F32)>)
    ensures r.Done? ==> p + 4 < r.next <= |data|
  {
    var tagg :- ReadMagic(data, p, TAGG);
    var taggs :- ParseTags(data, tagg.1, []);
    var resolution :- ParseF32(data, taggs.1);
    Done((taggs.0, resolution.0), resolution.1)
  }

  /** LOD::read. */
  function ParseLod(data: seq<byte>, p: nat): (r: Parsed<Lod>)
  {
    var h :- ParseLodHeader(data, p);
    var arrays :- ParseLodArrays(data, h.1, h.0);
    var tail :- ParseLodTail(data, arrays.1);
    var (points, normals, faces) := arrays.0;
    var (taggs, resolution) := tail.0;
    Done(Lod(h.0.versionMajor, h.0.versionMinor, resolution, points, normals, faces, taggs),
         tail.1)
  }

  /** The header reader checks the magic first, reads whenever 24 bytes start with
      "P3DM", takes each field from its place, and ends after the four reserved
      bytes, or at the end of a stream too short to hold them. */
  lemma LodHeaderFacts(data: seq<byte>, p: nat)
    ensures p + 4 <= |data| && data[p..p + 4] != P3DM
            ==> ParseLodHeader(data, p) == Fail(BadMagic(data[p..p + 4]))
    ensures p + 24 <= |data| && data[p..p + 4] == P3DM ==> ParseLodHeader(data, p).Done?
    ensures ParseLodHeader(data, p).Done?
            ==> ParseLodHeader(data, p).next == if p + 28 <= |data| then p + 28 else |data|
    ensures var r := ParseLodHeader(data, p);
      r.Done? ==> && p + 24 <= |data| && data[p..p + 4] == P3DM
                  && r.value == LodHeader(U32At(data, p + 4), U32At(data, p + 8), U32At(data, p + 12),
                                          U32At(data, p + 16), U32At(data, p + 20))
  {
  }

  /** The arrays reader returns exactly as many records of each kind as the header says. */
  lemma LodArraysFacts(data: seq<byte>, p: nat, h: LodHeader)
    ensures var r := ParseLodArrays(data, p, h);
      r.Done? ==> && |r.value.0| == h.numPoints && |r.value.1| == h.numNormals
                  && |r.value.2| == h.numFaces
  {
  }

  /** The tail reader checks "TAGG" first and returns a well-formed tag table. */
  lemma LodTailFacts(data: seq<byte>, p: nat)
    ensures p + 4 <= |data| && data[p..p + 4] != TAGG
            ==> ParseLodTail(data, p) == Fail(BadMagic(data[p..p + 4]))
    ensures ParseLodTail(data, p).Done? ==> WellFormedTable(ParseLodTail(data, p).value.0)
  {
    if ParseLodTail(data, p).Done? {
      TagsWellFormed(data, p + 4);
    }
  }

  /** LOD::read checks the magic first, takes its three counts from the header and
      returns a tag table with distinct names, none of them the sentinel's. */
  lemma LodReadFacts(data: seq<byte>, p: nat)
    ensures p + 4 <= |data| && data[p..p + 4] != P3DM
            ==> ParseLod(data, p) == Fail(BadMagic(data[p..p + 4]))
    ensures var r := ParseLod(data, p);
      r.Done? ==> && p + 24 <= |data| && data[p..p + 4] == P3DM
                  && |r.value.points| == U32At(data, p + 12)
                  && |r.value.faceNormals| == U32At(data, p + 16)
                  && |r.value.faces| == U32At(data, p + 20)
                  && WellFormedTable(r.value.taggs)
  {
    LodHeaderFacts(data, p);
    var h := ParseLodHeader(data, p);
    if h.Done? {
      LodArraysFacts(data, h.next, h.value);
      var arrays := ParseLodArrays(data, h.next, h.value);
      if arrays.Done? {
        LodTailFacts(data, arrays.next);
      }
    }
  }

  /** What the round trip needs of a LOD: counts that fit u32, valid faces and tags. */
  predicate ValidLod(l: Lod) {
    |l.points| < U32_LIMIT && |l.faceNormals| < U32_LIMIT && |l.faces| < U32_LIMIT
    && (forall i :: 0 <= i < |l.faces| ==> ValidFace(l.faces[i]))
    && ValidTable(l.taggs)
  }

  // ---------------------------------------------------------------------------
  // Documents

  /** P3D::write. */
  function EncodeP3d(doc: P3d): seq<byte> {
    MLOD + LeBytes(doc.version) + LeBytes(Truncate32(|doc.lods|)) + Flatten(doc.lods, EncodeLod)
  }

  /** P3D::read: all declared LODs or an error, never part of a document. */
  function ParseP3d(data: seq<byte>, p: nat): (r: Parsed<P3d>)
  {
    var magic :- ReadMagic(data, p, MLOD);
    var version :- ReadU32(data, magic.1);
    var numLods :- ReadU32(data, version.1);
    var lods :- ParseMany(data, numLods.1, numLods.0, [], ParseLod);
    Done(P3d(version.0, lods.0), lods.1)
  }

  /** P3D::read checks the magic first and reads as many LODs as the header declares. */
  lemma P3dReadFacts(data: seq<byte>, p: nat)
    ensures p + 4 <= |data| && data[p..p + 4] != MLOD
            ==> ParseP3d(data, p) == Fail(BadMagic(data[p..p + 4]))
    ensures ParseP3d(data, p).Done?
            ==> p + 12 <= |data| && data[p..p + 4] == MLOD
                && |ParseP3d(data, p).value.lods| == U32At(data, p + 8)
  {
  }

  predicate ValidP3d(doc: P3d) {
    |doc.lods| < U32_LIMIT && forall i :: 0 <= i < |doc.lods| ==> ValidLod(doc.lods[i])
  }
}
