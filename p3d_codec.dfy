/** The loops of src/p3d.rs: each reader method walks the stream as the source's
    `for` and `loop` statements do and is proved to compute its `Parse…` function;
    each writer method appends what the source writes and is proved to produce
    its `Encode…` function. The output stream is modelled as the bytes written. */
module P3dCodec {
  import opened Stream
  import opened Io
  import opened P3dFormat

  // ---------------------------------------------------------------------------
  // Readers

  /** `for _i in 0..n { items.push(read(input)?) }`: the counted loops of Face::read,
      LOD::read and P3D::read. The record reader is given as the function it computes;
      ReadFace and ReadLod below are the loops that compute ParseFace and ParseLod. */
  method ReadRecords<T>(data: seq<byte>, pos: nat, n: nat,
                        parse: (seq<byte>, nat) -> Parsed<T>) returns (r: Parsed<seq<T>>)
    ensures r == ParseMany(data, pos, n, [], parse)
  {
    var items: seq<T> := [];
    var p := pos;
    for i := 0 to n
      invariant ParseMany(data, pos, n, [], parse) == ParseMany(data, p, n - i, items, parse)
    {
      var x := parse(data, p);
      if x.Fail? {
        ParseManyFail(data, p, n - i - 1, items, parse);
        return Fail(x.error);
      }
      ParseManyStep(data, p, n - i - 1, items, parse, x.value, x.next);
      items := items + [x.value];
      p := x.next;
    }
    return Done(items, p);
  }

  /** Face::read up to the flags: count check, the vertex loop, the padding slot. */
  method ReadFaceVertices(data: seq<byte>, pos: nat) returns (r: Parsed<seq<Vertex>>)
    ensures r == ParseFaceVertices(data, pos)
  {
    var count := ReadU32(data, pos);
    if count.Fail? {
      return Fail(count.error);
    }
    var n := count.value;
    if n != 3 && n != 4 {
      return Fail(BadVertexCount(n));
    }
    var verts := ReadRecords(data, count.next, n, ParseVertex);
    if verts.Fail? {
      return Fail(verts.error);
    }
    var p := verts.next;
    if n == 3 {
      var padding := ParseVertex(data, p);
      if padding.Fail? {
        return Fail(padding.error);
      }
      p := padding.next;
    }
    return Done(verts.value, p);
  }

  /** Face::read after the vertex slots: the flags and the two names. */
  method ReadFaceTail(data: seq<byte>, pos: nat) returns (r: Parsed<(u32, seq<byte>, seq<byte>)>)
    ensures r == ParseFaceTail(data, pos)
  {
    var flags := ReadU32(data, pos);
    if flags.Fail? {
      return Fail(flags.error);
    }
    var texture := ReadCString(data, flags.next);
    var material := ReadCString(data, texture.next);
    return Done((flags.value, texture.value, material.value), material.next);
  }

  /** Face::read. */
  method ReadFace(data: seq<byte>, pos: nat) returns (r: Parsed<Face>)
    ensures r == ParseFace(data, pos)
  {
    var verts := ReadFaceVertices(data, pos);
    if verts.Fail? {
      return Fail(verts.error);
    }
    var tail := ReadFaceTail(data, verts.next);
    if tail.Fail? {
      return Fail(tail.error);
    }
    var (flags, texture, material) := tail.value;
    return Done(Face(verts.value, flags, texture, material), tail.next);
  }

  /** The tag loop of LOD::read: skip the marker byte, read name, size and payload,
      stop at "#EndOfFile#", otherwise insert and go on. */
  method ReadTags(data: seq<byte>, pos: nat) returns (r: Parsed<seq<Tag>>)
    requires pos <= |data|
    ensures r == ParseTags(data, pos, [])
  {
    var taggs: seq<Tag> := [];
    var p := pos;
    TagEntryAdvances(data);
    while true
      invariant p <= |data|
      invariant ParseTags(data, pos, []) == TagLoop(data, p, taggs, ParseTagEntry)
      decreases |data| - p
    {
      var name := ReadCString(data, SkipUpTo(data, p, 1));
      var size := ReadU32(data, name.next);
      if size.Fail? {
        return Fail(size.error);
      }
      var payload := ReadExact(data, size.next, size.value);
      if payload.Fail? {
        return Fail(payload.error);
      }
      if name.value == END_OF_FILE {
        return Done(taggs, payload.next);
      }
      taggs := Insert(taggs, Tag(name.value, payload.value));
      p := payload.next;
    }
  }

  /** LOD::read's header: the magic, five u32 fields and the reserved field. */
  method ReadLodHeader(data: seq<byte>, pos: nat) returns (r: Parsed<LodHeader>)
    ensures r == ParseLodHeader(data, pos)
  {
    var magic := ReadMagic(data, pos, P3DM);
    if magic.Fail? {
      return Fail(magic.error);
    }
    var major := ReadU32(data, magic.next);
    if major.Fail? {
      return Fail(major.error);
    }
    var minor := ReadU32(data, major.next);
    if minor.Fail? {
      return Fail(minor.error);
    }
    var numPoints := ReadU32(data, minor.next);
    if numPoints.Fail? {
      return Fail(numPoints.error);
    }
    var numNormals := ReadU32(data, numPoints.next);
    if numNormals.Fail? {
      return Fail(numNormals.error);
    }
    var numFaces := ReadU32(data, numNormals.next);
    if numFaces.Fail? {
      return Fail(numFaces.error);
    }
    var h := LodHeader(major.value, minor.value, numPoints.value, numNormals.value, numFaces.value);
    return Done(h, SkipUpTo(data, numFaces.next, 4));
  }

  /** LOD::read's three counted loops. */
  method ReadLodArrays(data: seq<byte>, pos: nat, h: LodHeader)
    returns (r: Parsed<(seq<Point>, seq<Normal>, seq<Face>)>)
    ensures r == ParseLodArrays(data, pos, h)
  {
    var points := ReadRecords(data, pos, h.numPoints, ParsePoint);
    if points.Fail? {
      return Fail(points.error);
    }
    var normals := ReadRecords(data, points.next, h.numNormals, ParseNormal);
    if normals.Fail? {
      return Fail(normals.error);
    }
    var faces := ReadRecords(data, normals.next, h.numFaces, ParseFace);
    if faces.Fail? {
      return Fail(faces.error);
    }
    return Done((points.value, normals.value, faces.value), faces.next);
  }

  /** LOD::read from "TAGG" on. */
  method ReadLodTail(data: seq<byte>, pos: nat) returns (r: Parsed<(seq<Tag>, F32)>)
    ensures r == ParseLodTail(data, pos)
  {
    var tagg := ReadMagic(data, pos, TAGG);
    if tagg.Fail? {
      return Fail(tagg.error);
    }
    var taggs := ReadTags(data, tagg.next);
    if taggs.Fail? {
      return Fail(taggs.error);
    }
    var resolution := ParseF32(data, taggs.next);
    if resolution.Fail? {
      return Fail(resolution.error);
    }
    return Done((taggs.value, resolution.value), resolution.next);
  }

  /** LOD::read. */
  method ReadLod(data: seq<byte>, pos: nat) returns (r: Parsed<Lod>)
    ensures r == ParseLod(data, pos)
  {
    var h := ReadLodHeader(data, pos);
    if h.Fail? {
      return Fail(h.error);
    }
    var arrays := ReadLodArrays(data, h.next, h.value);
    if arrays.Fail? {
      return Fail(arrays.error);
    }
    var tail := ReadLodTail(data, arrays.next);
    if tail.Fail? {
      return Fail(tail.error);
    }
    var (points, normals, faces) := arrays.value;
    var (taggs, resolution) := tail.value;
    var lod := Lod(h.value.versionMajor, h.value.versionMinor, resolution, points, normals,
                   faces, taggs);
    return Done(lod, tail.next);
  }

  /** P3D::read. */
  method ReadP3d(data: seq<byte>, pos: nat) returns (r: Parsed<P3d>)
    ensures r == ParseP3d(data, pos)
  {
    var magic := ReadMagic(data, pos, MLOD);
    if magic.Fail? {
      return Fail(magic.error);
    }
    var version := ReadU32(data, magic.next);
    if version.Fail? {
      return Fail(version.error);
    }
    var numLods := ReadU32(data, version.next);
    if numLods.Fail? {
      return Fail(numLods.error);
    }
    var lods := ReadRecords(data, numLods.next, numLods.value, ParseLod);
    if lods.Fail? {
      return Fail(lods.error);
    }
    return Done(P3d(version.value, lods.value), lods.next);
  }

  // ---------------------------------------------------------------------------
  // Writers

  /** `for x in xs { x.write(output)? }`: the loops of Face::write, LOD::write and
      P3D::write. WriteFace and WriteLod below are the writers EncodeFace and
      EncodeLod stand for. */
  method WriteRecords<T>(xs: seq<T>, enc: T -> seq<byte>) returns (out: seq<byte>)
    ensures out == Flatten(xs, enc)
  {
    out := [];
    for i := 0 to |xs|
      invariant out == Flatten(xs[..i], enc)
    {
      FlattenPrefix(xs, i, enc);
      out := out + enc(xs[i]);
    }
    assert xs[..|xs|] == xs;
  }

  /** Face::write. */
  method WriteFace(f: Face) returns (out: seq<byte>)
    ensures out == EncodeFace(f)
  {
    var verts := WriteRecords(f.vertices, EncodeVertex);
    out := LeBytes(Truncate32(|f.vertices|)) + verts;
    if |f.vertices| == 3 {
      out := out + EncodeVertex(ZERO_VERTEX);
    }
    out := out + LeBytes(f.flags) + EncodeCString(f.texture) + EncodeCString(f.material);
  }

  /** LOD::write. */
  method WriteLod(l: Lod) returns (out: seq<byte>)
    ensures out == EncodeLod(l)
  {
    var points := WriteRecords(l.points, EncodePoint);
    var normals := WriteRecords(l.faceNormals, EncodeNormal);
    var faces := WriteRecords(l.faces, EncodeFace);
    var taggs := WriteRecords(l.taggs, EncodeTag);
    out := P3DM
      + LeBytes(l.versionMajor) + LeBytes(l.versionMinor)
      + LeBytes(Truncate32(|l.points|))
      + LeBytes(Truncate32(|l.faceNormals|))
      + LeBytes(Truncate32(|l.faces|))
      + RESERVED;
    out := out + points + normals + faces;
    out := out + (TAGG + (taggs + SENTINEL) + EncodeF32(l.resolution));
  }


  /** P3D::write. */
  method WriteP3d(doc: P3d) returns (out: seq<byte>)
    ensures out == EncodeP3d(doc)
  {
    var lods := WriteRecords(doc.lods, EncodeLod);
    out := MLOD + LeBytes(doc.version) + LeBytes(Truncate32(|doc.lods|)) + lods;
  }
}
