# A3-Signmaker P3D codec in Dafny

This project models the binary codec that A3-Signmaker uses to read and write
MLOD model files (`.p3d`), and proves that reader and writer fit together.

- An MLOD **document** is the magic "MLOD", a u32 version and a u32 LOD count,
  followed by that many LODs.
- A **LOD** starts with the magic "P3DM". Then come:
  - five u32 fields (major and minor version, point, normal and face counts);
  - four reserved bytes;
  - the points, the face normals and the faces;
  - the magic "TAGG" and a tag table;
  - an f32 resolution.
- A **face** holds 3 or 4 vertices in four 16-byte vertex slots, then u32 flags
  and two NUL-terminated names (texture and material). A triangle's fourth slot
  is a zero vertex.
- The **tag table** is a sequence of entries, each a marker byte 0x01, a
  NUL-terminated name, a u32 payload length and the payload. An entry named
  `#EndOfFile#` closes the table.
- Two byte helpers sit underneath: NUL-terminated strings and the base-128
  "compressed integer" (7-bit groups, low group first, bit 0x80 meaning "more
  follows").

How the model is laid out:

- The stream is a `seq<byte>` with a cursor. A reader is a function from
  `(data, p)` to `Done(value, next)` or `Fail(error)`. A writer is the
  sequence of bytes it emits.
- Each reader and writer of the source is a specification function
  (`Parse…`/`Encode…`), in module `P3dFormat` and module `Io`.
- Each one with a loop also has a method with that loop (`Read…`/`Write…`), in
  `P3dCodec` and `Io`. The method's `ensures` ties its result to the
  specification function.
- The properties are proved about the specification functions, in `P3dProofs`,
  `TagProofs` and `LodProofs`: round trips, the count and magic checks, triangle
  padding, and the tag table's order and sentinel.
- `ReadProofs` proves the other direction: whatever the readers accept, the
  writers write back so that it reads again unchanged.
- The source's `|`, `&` and `<<` on u32 are defined bit by bit in `Io`
  (`BitOr`, `BitAnd`, `Shl32`). Lemmas there show that the arithmetic the model
  uses for the compressed integer is those operators.
- The methods are proved against the specification functions one by one, and
  they compose through them. `P3dCodec.ReadLodArrays` passes the function `ParseFace`
  to the loop `ReadRecords`, not the method `ReadFace`, and `WriteLod` emits
  `EncodeFace`, not the output of `WriteFace`. Since `ReadFace` computes
  `ParseFace` and `WriteFace` emits `EncodeFace`, the result is the same. The
  same holds one level up for `ReadP3d` and `WriteP3d`.
- The counted `for` loops are one generic loop. It is `Stream.ParseMany` for
  reading and `P3dCodec.WriteRecords` for writing, with the record codec passed
  as a function. Its round trip (`Stream.ParseManyFlatten`) is proved once, for
  any record parser that inverts its encoder (`Stream.Inverts`).

Where the source panics, the model fails with an error instead:

| Source behaviour | Model error |
|---|---|
| `assert!` on the vertex count panics | `BadVertexCount` |
| `assert_eq!` on a magic panics | `BadMagic` |
| a compressed integer with a sixth byte: the shift by 35 panics when overflow checks are on, and is otherwise masked to a shift by 3 while the loop reads on | `VarintOverflow` |

A read past the end of the stream is not a panic in the source. `read_u32` and
`read_exact` return an `UnexpectedEof` error there, and `?` passes it up
(src/p3d.rs:101,146). The model's `UnexpectedEof` is that error.

Positions are the model's logical cursor: the number of bytes the reader has
taken from the stream it was given. P3D::read takes them through a `BufReader`
(src/p3d.rs:249), which may fetch more bytes from the underlying input than it
hands on.

## Model

| member | source | states |
|---|---|---|
| `Stream.LeBytes` | src/p3d.rs:57-63 | write_u32::<LittleEndian> emits four bytes; LeValueOfLeBytes and LeBytesOfLeValue state that they are the little-endian digits |
| `Stream.U32At` | src/p3d.rs:101 | the u32 whose little-endian bytes stand at `p`; ReadU32Bytes ties it to LeBytes |
| `Stream.Flatten` | src/p3d.rs:214-226 | the bytes of writer loops: each record's encoding, back to back in order; ParseManyFlatten reads them back |
| `Stream.Truncate32` | src/p3d.rs:209-211 | `n as u32` keeps every length below 2^32 unchanged |
| `Stream.LeValueOfLeBytes` | src/p3d.rs:53 | the four little-endian bytes of a u32 decode to that u32 |
| `Stream.LeBytesOfLeValue` | src/p3d.rs:61 | any four bytes are the little-endian encoding of the u32 they decode to |
| `Stream.ReadU32` | src/p3d.rs:101 | read_u32 succeeds exactly when four bytes remain and then advances by four; otherwise it fails with UnexpectedEof |
| `Stream.ReadU32Bytes` | src/p3d.rs:149-154 | the u32 read at `p` is the one whose little-endian bytes stand at `p` |
| `Stream.ReadU32At` | src/p3d.rs:149-154 | read_u32 reads back the u32 written by write_u32 and advances by four |
| `Stream.ReadExact` | src/p3d.rs:184-185 | read_exact of `n` bytes succeeds exactly when `n` bytes remain, returns those bytes and advances by `n` |
| `Stream.SkipUpTo` | src/p3d.rs:156 | draining through `bytes()` skips exactly `k` bytes when they are there, and otherwise stops at the end of the stream without an error |
| `Stream.ParseMany` | src/p3d.rs:162-172 | a counted read loop that succeeds returns exactly `n` more records |
| `Stream.ParseManyStep` | src/p3d.rs:105-107 | one turn of the counted loop: the first record is pushed and the loop continues after it |
| `Stream.ParseManyFail` | src/p3d.rs:259-261 | a failing record aborts the whole loop with that record's error, so no partial array is returned |
| `Stream.ParseManyFlatten` | src/p3d.rs:214-226 | reading as many records as `xs` holds, where their encodings were written back to back, returns `xs`, for any reader that inverts its writer |
| `Stream.ParseManyYields` | src/p3d.rs:162-172 | when every record the record reader can return satisfies a property, so does every record of a counted loop that succeeds |
| `Io.EncodeCString` | src/io.rs:95-99 | write_cstring emits one byte more than the string, and the last byte is 0x00 |
| `Io.NulIndex` | src/io.rs:57-65 | read_cstring's scan stops within the stream, and where it stops before the end there is a 0x00 |
| `Io.NulIndexScan` | src/io.rs:57-65 | no 0x00 lies before the position the string scan stops at; a 0x00 at the start stops it at once |
| `Io.NulIndexAt` | src/io.rs:57-65 | the scan stops at the first 0x00 |
| `Io.ParseCString` | src/io.rs:55-68 | read_cstring never fails, and it stays within the stream |
| `Io.CStringContents` | src/io.rs:55-68 | read_cstring returns the NUL-free bytes up to the first 0x00 and consumes that 0x00; if the stream ends first it returns every remaining byte |
| `Io.ReadCString` | src/io.rs:55-68 | the push loop computes ParseCString |
| `Io.CStringRoundTrip` | src/io.rs:55-99 | read_cstring after write_cstring(s) returns `s` for a NUL-free `s`, with the cursor just after the terminator |
| `Io.CStringExample` | src/io.rs:95-99 | "abc" is written as 61 62 63 00 and read back as "abc" |
| `Io.EncodeVarint` | src/io.rs:101-114 | write_compressed_int emits at least one byte |
| `Io.VarintShape` | src/io.rs:105-112 | every byte but the last has 0x80 set, and the last is below 0x80 |
| `Io.VarintGroupsSpellValue` | src/io.rs:105-112 | the 7-bit groups written, low group first, spell `x` in base 128 |
| `Io.VarintLength` | src/io.rs:105-110 | a value below 2^(7(k+1)) takes at most k+1 bytes |
| `Io.VarintAtMostFiveBytes` | src/io.rs:117-128 | every u32 takes between one and five bytes |
| `Io.WriteCompressedInt` | src/io.rs:101-114 | the while loop emits EncodeVarint(x) and returns the number of bytes it emitted |
| `Io.CompressedIntLen` | src/io.rs:117-128 | compressed_int_len equals the length of write_compressed_int's output, and lies in 1..5 |
| `Io.BitOr` | src/io.rs:76 | the source's `BITOR` on u32, bit by bit from the lowest bit; BitExamples, BitOrDisjoint and BitOrComm state its behaviour |
| `Io.BitAnd` | src/io.rs:76 | the source's `BITAND` on u32, bit by bit; BitExamples and BitAndLow state its behaviour |
| `Io.Shl32` | src/io.rs:76 | the source's `<<` on u32: multiply by 2^k and keep the low 32 bits; ShiftGroupsIsShift and TopGroupOr state its behaviour |
| `Io.BitExamples` | src/io.rs:76 | on small values the three definitions give what Rust's operators give: 0xC OR 0xA is 0xE, 0xC AND 0xA is 0x8, and 3 shifted by 7 is 0x180 |
| `Io.OrGroup` | src/io.rs:76 | below the fifth byte, the new result is the old one plus the group placed `7 * i` bits up, and stays below 2^(7(i+1)); OrGroupIsOr ties it to the bit operators |
| `Io.ShiftGroupsIsShift` | src/io.rs:76 | placing a group `i` places up is multiplying by 2^(7i), the shift by `i * 7` |
| `Io.BitOrDisjoint` | src/io.rs:76 | OR of a value below 2^k with a multiple of 2^k is their sum |
| `Io.BitAndLow` | src/io.rs:76 | AND with 2^k - 1 keeps the value modulo 2^k |
| `Io.MaskLowGroup` | src/io.rs:76 | `b & 0x7f` is the low seven bits of `b` |
| `Io.LowGroupOr` | src/io.rs:76 | for the first four bytes, OR-ing the group shifted by `7 * i` on u32 into a result below 2^(7i) adds the placed group |
| `Io.TopGroupOr` | src/io.rs:76 | at the fifth byte, OR-ing the group shifted by 28 on u32 adds only its low four bits, placed at bit 28 |
| `Io.OrGroupIsOr` | src/io.rs:76 | OrGroup equals `result BITOR ((b BITAND 0x7f) << (i * 7))` on u32, with the operators defined bit by bit, for every result the loop can hold |
| `Io.TopGroupIsOr` | src/io.rs:76 | the fifth-byte case of OrGroupIsOr |
| `Io.ContinuationByte` | src/io.rs:106 | `0x80 BITOR temp BITAND 0x7f` is 0x80 plus the low seven bits of `temp` |
| `Io.OrGroupWraps` | src/io.rs:76 | the accumulation is the u32 sum of the result and the shifted group, with bits past bit 31 lost |
| `Io.TopGroupWraps` | src/io.rs:76 | a shift by 28 on u32 keeps only the low four bits of the fifth group |
| `Io.ParseVarintFrom` | src/io.rs:74-85 | the loop only fails with VarintOverflow, and stays within the stream |
| `Io.VarintScan` | src/io.rs:74-85 | the read stops right after the first byte below 0x80 or at the end of the stream; it fails exactly when five continuation bytes are followed by a sixth byte |
| `Io.ParseVarint` | src/io.rs:70-86 | read_compressed_int stays within the stream and fails only with VarintOverflow; VarintScan says where it stops |
| `Io.ReadCompressedInt` | src/io.rs:70-86 | the accumulator loop computes ParseVarint |
| `Io.VarintLastGroup` | src/io.rs:76-80 | a byte below 0x80 adds its group and ends the read |
| `Io.VarintMoreGroup` | src/io.rs:76-82 | a byte with 0x80 set adds its group and moves on to the next place |
| `Io.ParseVarintFromEncoding` | src/io.rs:70-114 | read from any group place, the remaining written groups add up to the value they encode |
| `Io.VarintRoundTrip` | src/io.rs:70-114 | read_compressed_int after write_compressed_int(x) yields `x` for every u32, consuming exactly the bytes written |
| `Io.VarintExample` | src/io.rs:101-114 | 300 is written as AC 02 and read back as 300 |
| `P3dFormat.ReadMagic` | src/p3d.rs:145-147 | reading a magic succeeds exactly when those four bytes are next; otherwise it fails with BadMagic of the bytes found, or with UnexpectedEof |
| `P3dFormat.EncodeF32` | src/p3d.rs:58-60 | write_f32::<LittleEndian> emits the four little-endian bytes of the bit pattern; F32RoundTrip reads them back |
| `P3dFormat.F32At` | src/p3d.rs:52 | the f32 whose bit pattern is the u32 at `p`, as read_f32::<LittleEndian> decodes it |
| `P3dFormat.ParseF32` | src/p3d.rs:192 | read_f32 succeeds exactly when four bytes remain, and advances by four |
| `P3dFormat.EncodePoint` | src/p3d.rs:57-63 | a point record is 16 bytes |
| `P3dFormat.ParsePoint` | src/p3d.rs:50-55 | Point::read succeeds exactly when 16 bytes remain, and advances by 16 |
| `P3dFormat.EncodeVertex` | src/p3d.rs:80-86 | a vertex record is 16 bytes |
| `P3dFormat.ParseVertex` | src/p3d.rs:72-78 | Vertex::read succeeds exactly when 16 bytes remain, and advances by 16 |
| `P3dFormat.EncodeNormal` | src/p3d.rs:218-222 | a face normal is 12 bytes |
| `P3dFormat.ParseNormal` | src/p3d.rs:166-168 | a face normal reads exactly when 12 bytes remain, and advances by 12 |
| `P3dFormat.EncodeFace` | src/p3d.rs:125-140 | the bytes of Face::write; FacePadding, FaceParts and FaceRoundTrip state their layout and that they read back |
| `P3dFormat.ParseFaceVertices` | src/p3d.rs:101-111 | a face that reads has 3 or 4 vertices |
| `P3dFormat.ParseFaceTail` | src/p3d.rs:113-115 | the flags and the two names read within the stream |
| `P3dFormat.ParseFace` | src/p3d.rs:100-123 | Face::read returns 3 or 4 vertices and stays within the stream |
| `P3dFormat.FaceVertexCount` | src/p3d.rs:101-111 | a vertex count other than 3 or 4 fails with BadVertexCount; a face that reads has exactly the declared number of vertices |
| `P3dFormat.Without` | src/p3d.rs:189 | removing a name from the table keeps every other name and keeps names distinct |
| `P3dFormat.NameSetSnoc` | src/p3d.rs:189 | appending an entry adds its name to the table's names |
| `P3dFormat.DistinctSnoc` | src/p3d.rs:189 | appending an entry under a new name keeps names distinct |
| `P3dFormat.Insert` | src/p3d.rs:189 | LinkedHashMap::insert adds the name, keeps names distinct, and appends an entry under a new name at the back |
| `P3dFormat.EncodeTag` | src/p3d.rs:230-235 | one written entry starts with the marker 0x01 and takes six bytes more than its name and payload |
| `P3dFormat.EncodeTaggs` | src/p3d.rs:230-238 | the tag section: every entry in table order, then the sentinel; TagsRoundTrip reads it back |
| `P3dFormat.ParseTagEntry` | src/p3d.rs:180-185 | one tag entry that reads advances past its marker and stays within the stream |
| `P3dFormat.TagLoop` | src/p3d.rs:179-190 | a tag loop that finishes has moved the cursor forward and stays within the stream |
| `P3dFormat.TagEntryAdvances` | src/p3d.rs:180-185 | every entry read moves the cursor forward, so the unbounded loop terminates |
| `P3dFormat.ParseTags` | src/p3d.rs:177-190 | the tag loop moves the cursor forward and stays within the stream |
| `P3dFormat.TagLoopWellFormed` | src/p3d.rs:187-189 | the loop keeps the table a map: names stay distinct and the sentinel's name is never inserted |
| `P3dFormat.TagsWellFormed` | src/p3d.rs:177-190 | the table LOD::read returns has distinct names, none of them "#EndOfFile#" |
| `P3dFormat.HeaderOf` | src/p3d.rs:207-211 | the written header keeps both versions, and each count is the array's length whenever that length fits a u32 |
| `P3dFormat.EncodeLodGeometry` | src/p3d.rs:206-226 | LOD::write up to "TAGG"; GeometryParts states its layout |
| `P3dFormat.EncodeLodTail` | src/p3d.rs:228-240 | LOD::write from "TAGG" on; TailRoundTrip reads it back |
| `P3dFormat.EncodeLod` | src/p3d.rs:205-243 | LOD::write is the geometry followed by the tail (LodParts); LodRoundTrip reads it back |
| `P3dFormat.EncodeLodHeader` | src/p3d.rs:206-212 | the LOD header is 28 bytes |
| `P3dFormat.ParseLodHeader` | src/p3d.rs:145-156 | the header reader consumes at least the magic and five u32 fields |
| `P3dFormat.ParseLodTail` | src/p3d.rs:174-192 | the tail reader consumes "TAGG" and more, and stays within the stream |
| `P3dFormat.ParseLodArrays` | src/p3d.rs:158-172 | LOD::read's three counted loops; LodArraysFacts states their counts |
| `P3dFormat.ParseLod` | src/p3d.rs:144-203 | LOD::read as header, arrays and tail in order; LodReadFacts and LodReadValid state what it returns |
| `P3dFormat.LodHeaderFacts` | src/p3d.rs:145-156 | a LOD not starting with "P3DM" fails with BadMagic; 24 bytes starting with "P3DM" always read; a header that reads takes each field from its place and ends after the four reserved bytes, or at the end of a shorter stream |
| `P3dFormat.LodArraysFacts` | src/p3d.rs:162-172 | the arrays hold exactly the header-declared numbers of points, normals and faces |
| `P3dFormat.LodTailFacts` | src/p3d.rs:174-190 | a tail not starting with "TAGG" fails with BadMagic; the tag table read is well formed |
| `P3dFormat.LodReadFacts` | src/p3d.rs:144-203 | LOD::read rejects a bad "P3DM"; a LOD that reads has the declared counts and a well-formed tag table |
| `P3dFormat.EncodeP3d` | src/p3d.rs:270-282 | the bytes of P3D::write; P3dParts states their layout |
| `P3dFormat.ParseP3d` | src/p3d.rs:248-267 | P3D::read; P3dReadFacts, P3dReadValid and P3dRoundTrip state what it returns |
| `P3dFormat.P3dReadFacts` | src/p3d.rs:248-267 | P3D::read rejects a bad "MLOD"; a document that reads has exactly the declared number of LODs, never part of them |
| `P3dCodec.ReadRecords` | src/p3d.rs:162-172 | the push loop computes ParseMany |
| `P3dCodec.ReadFaceVertices` | src/p3d.rs:101-111 | the count check, the vertex loop and the padding read compute ParseFaceVertices |
| `P3dCodec.ReadFaceTail` | src/p3d.rs:113-115 | the flags and names are read as ParseFaceTail says |
| `P3dCodec.ReadFace` | src/p3d.rs:100-123 | Face::read computes ParseFace |
| `P3dCodec.ReadTags` | src/p3d.rs:177-190 | the tag loop, inserting until the sentinel, computes ParseTags |
| `P3dCodec.ReadLodHeader` | src/p3d.rs:145-156 | the header reads compute ParseLodHeader |
| `P3dCodec.ReadLodArrays` | src/p3d.rs:158-172 | the three counted loops compute ParseLodArrays |
| `P3dCodec.ReadLodTail` | src/p3d.rs:174-192 | "TAGG", the tag loop and the resolution compute ParseLodTail |
| `P3dCodec.ReadLod` | src/p3d.rs:144-203 | LOD::read computes ParseLod |
| `P3dCodec.ReadP3d` | src/p3d.rs:248-267 | P3D::read computes ParseP3d |
| `P3dCodec.WriteRecords` | src/p3d.rs:214-216 | the writer loop emits each record's encoding in order |
| `P3dCodec.WriteFace` | src/p3d.rs:125-140 | Face::write emits EncodeFace |
| `P3dCodec.WriteLod` | src/p3d.rs:205-243 | LOD::write emits EncodeLod |
| `P3dCodec.WriteP3d` | src/p3d.rs:270-282 | P3D::write emits EncodeP3d |
| `P3dProofs.F32RoundTrip` | src/p3d.rs:52-60 | read_f32 reads back the bit pattern write_f32 wrote and advances by four |
| `P3dProofs.PointRoundTrip` | src/p3d.rs:50-63 | Point::read reads back what Point::write wrote and consumes its 16 bytes |
| `P3dProofs.VertexRoundTrip` | src/p3d.rs:72-86 | Vertex::read reads back what Vertex::write wrote and consumes its 16 bytes |
| `P3dProofs.NormalRoundTrip` | src/p3d.rs:166-168 | a face normal reads back as LOD::write wrote it |
| `P3dProofs.VertexInverts` | src/p3d.rs:72-86 | the vertex reader inverts the vertex writer at every position |
| `P3dProofs.PointInverts` | src/p3d.rs:50-63 | the point reader inverts the point writer at every position |
| `P3dProofs.NormalInverts` | src/p3d.rs:166-168 | the normal reader inverts the normal writer at every position |
| `P3dProofs.VerticesRoundTrip` | src/p3d.rs:104-107 | a face's vertex loop reads back the vertices written |
| `P3dProofs.PointsRoundTrip` | src/p3d.rs:162-164 | the point loop reads back the points LOD::write wrote |
| `P3dProofs.NormalsRoundTrip` | src/p3d.rs:166-168 | the normal loop reads back the normals LOD::write wrote |
| `P3dProofs.FaceSplit` | src/p3d.rs:125-140 | a written face is its vertex slots, flags, texture and material in that order |
| `P3dProofs.VerticesLength` | src/p3d.rs:128-130 | each vertex takes 16 bytes |
| `P3dProofs.FacePadding` | src/p3d.rs:131-134 | a face always occupies four vertex slots, and a triangle's fourth slot is sixteen zero bytes |
| `P3dProofs.FaceVerticesRoundTrip` | src/p3d.rs:104-111 | Face::read returns exactly the written vertices and skips the padding slot |
| `P3dProofs.FaceTailRoundTrip` | src/p3d.rs:113-115 | flags, texture and material read back as written |
| `P3dProofs.FaceSteps` | src/p3d.rs:100-123 | Face::read is its vertex part followed by its tail |
| `P3dProofs.FaceParts` | src/p3d.rs:125-140 | where the flags and the two names of a written face lie |
| `P3dProofs.FaceFieldsRoundTrip` | src/p3d.rs:113-122 | the fields after the vertex slots read back into the written face |
| `P3dProofs.FaceRoundTrip` | src/p3d.rs:100-140 | for 3 or 4 vertices and NUL-free names, Face::read returns the written face and consumes exactly its bytes |
| `P3dProofs.FaceRejectsBadCount` | src/p3d.rs:101-102 | a vertex count other than 3 or 4 fails with BadVertexCount |
| `P3dProofs.FaceInverts` | src/p3d.rs:100-140 | the face reader inverts the face writer for every valid face |
| `P3dProofs.FacesRoundTrip` | src/p3d.rs:170-172 | the face loop reads back the faces LOD::write wrote |
| `TagProofs.TagParts` | src/p3d.rs:230-235 | where the marker, name, length and payload of a written entry lie |
| `TagProofs.TagEntrySteps` | src/p3d.rs:180-185 | one entry is the name, the length and the payload after the skipped marker |
| `TagProofs.TagFieldsRoundTrip` | src/p3d.rs:180-185 | the name, length and payload read back as written |
| `TagProofs.TagEntryRoundTrip` | src/p3d.rs:180-185 | an entry with a NUL-free name and a payload below 2^32 bytes reads back as written, ending right after its payload |
| `TagProofs.SentinelIsEntry` | src/p3d.rs:237-238 | the closing bytes are an entry with marker 0x01, name "#EndOfFile#" and an empty payload |
| `TagProofs.NulIndexFrom` | src/io.rs:57-65 | the string scan from `p` depends only on the bytes from `p` on |
| `TagProofs.TagMarkerIgnored` | src/p3d.rs:180 | the marker byte is dropped unchecked: any byte there reads the same entry |
| `TagProofs.EncodeTaggsCons` | src/p3d.rs:230-238 | a written table is its first entry followed by the written rest |
| `TagProofs.TagEntryInverts` | src/p3d.rs:180-185 | the entry reader inverts the entry writer for every entry that fits |
| `TagProofs.ValidTableTail` | src/p3d.rs:189 | the first entry of a valid table is valid and unique; the rest is valid |
| `TagProofs.TagTableSplit` | src/p3d.rs:230-238 | where the first entry and the rest of a written table lie |
| `TagProofs.TagTableNames` | src/p3d.rs:189 | inserting a new name appends it, and the remaining names stay new |
| `TagProofs.TagLoopEnd` | src/p3d.rs:187 | the sentinel ends the loop with the table as it is, right after the sentinel |
| `TagProofs.TagLoopStep` | src/p3d.rs:179-190 | an entry other than the sentinel is inserted and the loop continues right after it |
| `TagProofs.TagLoopHead` | src/p3d.rs:179-190 | the first written entry is appended, and the rest of the table follows it |
| `TagProofs.TagLoopRoundTrip` | src/p3d.rs:179-190 | the tag loop reads back every written entry in order after those already inserted, and stops right after the sentinel |
| `TagProofs.TagsRoundTrip` | src/p3d.rs:177-190 | LOD::read's tag loop returns the table LOD::write wrote, in its order |
| `TagProofs.NameSetHas` | src/p3d.rs:189 | every entry's name is among the table's names |
| `TagProofs.WithoutKeeps` | src/p3d.rs:189 | removing a name keeps exactly the entries under other names |
| `TagProofs.InsertMap` | src/p3d.rs:189 | after insert, the new entry is the only one under its name; every entry under another name is kept, and nothing else |
| `LodProofs.LodParts` | src/p3d.rs:205-243 | a written LOD is its geometry followed by its tail |
| `LodProofs.GeometryParts` | src/p3d.rs:206-226 | where the header and the three arrays of a written LOD lie |
| `LodProofs.HeaderRoundTrip` | src/p3d.rs:145-156 | the header fields read back as written, and the reserved field is skipped |
| `LodProofs.ArraysSteps` | src/p3d.rs:162-172 | the three counted loops run one after the other |
| `LodProofs.ArraysRoundTrip` | src/p3d.rs:162-172 | the three arrays read back as written, by the counts written |
| `LodProofs.GeometryRoundTrip` | src/p3d.rs:145-172 | the header and arrays of a written LOD read back, with the counts LOD::write recorded |
| `LodProofs.TailRoundTrip` | src/p3d.rs:174-192 | "TAGG", the tag table and the resolution read back as written |
| `LodProofs.LodSteps` | src/p3d.rs:144-203 | LOD::read is its three stages in order |
| `LodProofs.LodRoundTrip` | src/p3d.rs:144-243 | LOD::read returns the LOD LOD::write wrote and consumes exactly its bytes |
| `LodProofs.LodRejectsBadTagg` | src/p3d.rs:174-175 | a LOD whose arrays are not followed by "TAGG" fails with BadMagic |
| `LodProofs.LodInverts` | src/p3d.rs:144-243 | the LOD reader inverts the LOD writer for every valid LOD |
| `LodProofs.LodsRoundTrip` | src/p3d.rs:259-261 | the LOD loop reads back the LODs P3D::write wrote |
| `LodProofs.P3dParts` | src/p3d.rs:270-282 | a written document is "MLOD", the version, the LOD count and the LODs in order |
| `LodProofs.P3dSteps` | src/p3d.rs:248-267 | P3D::read is the magic, two u32 fields and the LOD loop |
| `LodProofs.P3dRoundTrip` | src/p3d.rs:248-282 | P3D::read returns the document P3D::write wrote, and its logical cursor ends right after those bytes |
| `LodProofs.P3dFileRoundTrip` | src/p3d.rs:248-282 | a whole written file reads back, the logical cursor ending at its last byte |
| `ReadProofs.FaceReadValid` | src/p3d.rs:100-123 | every face Face::read returns has 3 or 4 vertices and NUL-free names |
| `ReadProofs.FaceYields` | src/p3d.rs:100-123 | the face reader yields valid faces wherever it reads |
| `ReadProofs.TagEntryFits` | src/p3d.rs:180-185 | an entry that reads has a NUL-free name and a payload shorter than 2^32 bytes |
| `ReadProofs.InsertFits` | src/p3d.rs:189 | insert keeps every entry of the table one that fits |
| `ReadProofs.TagLoopFits` | src/p3d.rs:179-190 | the tag loop inserts only entries that fit |
| `ReadProofs.TagsReadValid` | src/p3d.rs:177-190 | the table LOD::read returns has distinct NUL-free names other than "#EndOfFile#" and payloads that fit the u32 field |
| `ReadProofs.TailReadValid` | src/p3d.rs:174-192 | the tail reader returns such a table |
| `ReadProofs.ArraysReadValid` | src/p3d.rs:158-172 | every face the face loop returns is valid |
| `ReadProofs.LodReadValid` | src/p3d.rs:144-203 | every LOD that LOD::read returns satisfies what LOD::write needs to write it back faithfully |
| `ReadProofs.LodYields` | src/p3d.rs:144-203 | the LOD reader yields such LODs wherever it reads |
| `ReadProofs.P3dReadValid` | src/p3d.rs:248-267 | every document P3D::read returns satisfies what P3D::write needs |
| `ReadProofs.FaceReadWriteRead` | src/p3d.rs:100-140 | a face read from any stream, written and read again, comes back equal, taking exactly the written bytes |
| `ReadProofs.LodReadWriteRead` | src/p3d.rs:144-243 | a LOD read from any stream, written and read again, comes back equal, taking exactly the written bytes |
| `ReadProofs.P3dReadWriteRead` | src/p3d.rs:248-282 | a document read from any stream, written and read again, comes back equal, taking exactly the written bytes |

## Left out

- The `Input` and `Output` enums with their `Read`, `Seek` and `Write` impls (src/io.rs:5-47) are not part of this model. They dispatch to files, cursors and stdout; the model works on byte sequences.
- I/O errors other than the end of the stream, short writes, flushing, and the `BufReader`/`BufWriter` wrapping are not modelled. Buffering does not change the bytes. The positions the readers return are logical cursors over the bytes P3D::read takes from its `BufReader` (src/p3d.rs:249); how far that reader has advanced the underlying input is not modelled.
- The readers allocate up front from counts read from the stream: `Vec::with_capacity` for the points, normals and faces (src/p3d.rs:158-160) and for the LODs (src/p3d.rs:257), and `vec![0; size as usize]` for a tag payload (src/p3d.rs:184). With a huge count the source can abort on a failed allocation before it reads a record. The model allocates nothing: it fails with `UnexpectedEof` when the stream runs short of the declared records.
- src/main.rs (command line, image rendering, file handling) is not part of this model.
- `Point::new`, `Vertex::new` and `Face::new` are not modelled. Face::write's `Vertex::new()` padding is the constant `ZERO_VERTEX`.
- f32 values are kept as their 32-bit patterns. The codec only copies them, so no float arithmetic is modelled.
- Io.ParseCString: returns the bytes read. The UTF-8 check in `String::from_utf8(bytes).unwrap()` (src/io.rs:67) and its panic are not modelled. Names are byte strings.
- Io.ParseVarintFrom: a sixth byte after five continuation bytes is the error `VarintOverflow`. The source computes `(b & 0x7f) << 35` there (src/io.rs:76). With overflow checks on, that shift panics. Without them the shift amount is masked to 3, the group is OR-ed in low, and the loop reads on. The model reproduces neither.
- The source's `assert!`/`assert_eq!` panics (src/p3d.rs:102,147,175,253) are the errors `BadVertexCount` and `BadMagic`.
- Writers return the bytes they emit instead of writing to an output stream. The readers take the stream and a position and return the new position.
- The counted loops take the record reader or writer as a function value (`P3dCodec.ReadRecords`, `P3dCodec.WriteRecords`).
- `LinkedHashMap` is modelled as a sequence of entries in insertion order. Inserting an existing name replaces that entry and moves it to the back. No other map operation is modelled.
- LodProofs.LodRoundTrip, LodProofs.P3dRoundTrip and TagProofs.TagsRoundTrip require:
  - array and payload lengths below 2^32 (the source's `as u32` casts truncate longer ones; `Stream.Truncate32` models that truncation);
  - tag names that are distinct, NUL-free and not "#EndOfFile#";
  - face names that are NUL-free.
  Outside these, the written bytes need not read back as written.
