/** The tag table of a LOD (src/p3d.rs, LOD::read's `loop` and LOD::write's `for`
    over the LinkedHashMap): each entry reads back as written, the marker byte in
    front of an entry is never looked at, the sentinel ends the table, and a table
    with distinct names comes back in its order. */
module TagProofs {
  import opened Stream
  import opened Io
  import opened P3dFormat

  // ---------------------------------------------------------------------------
  // One entry

  /** Where each field of a written entry lies: the marker, the name, the length
      (at `c`) and the payload. */
  lemma TagParts(data: seq<byte>, p: nat, c: nat, t: Tag)
    requires c == p + 1 + |t.name| + 1
    requires At(data, p, EncodeTag(t))
    ensures p + 1 <= |data|
    ensures At(data, p + 1, EncodeCString(t.name))
    ensures At(data, c, LeBytes(Truncate32(|t.payload|)))
    ensures At(data, c + 4, t.payload)
    ensures p + |EncodeTag(t)| == c + 4 + |t.payload|
  {
    AtConcat(data, p, [0x01] + EncodeCString(t.name) + LeBytes(Truncate32(|t.payload|)), t.payload);
    AtConcat(data, p, [0x01] + EncodeCString(t.name), LeBytes(Truncate32(|t.payload|)));
    AtConcat(data, p, [0x01], EncodeCString(t.name));
  }

  /** One turn of the tag loop, read as its three reads after the skipped marker. */
  lemma TagEntrySteps(data: seq<byte>, p: nat, t: Tag, c: nat)
    requires p + 1 <= |data|
    requires ParseCString(data, p + 1) == Done(t.name, c)
    requires ReadU32(data, c) == Done(|t.payload|, c + 4)
    requires ReadExact(data, c + 4, |t.payload|) == Done(t.payload, c + 4 + |t.payload|)
    ensures ParseTagEntry(data, p) == Done(t, c + 4 + |t.payload|)
  {
    assert SkipUpTo(data, p, 1) == p + 1;
  }

  /** The fields of an entry, read back from where LOD::write put them. */
  lemma TagFieldsRoundTrip(data: seq<byte>, p: nat, c: nat, t: Tag)
    requires 0 !in t.name && |t.payload| < U32_LIMIT
    requires c == p + 1 + |t.name| + 1 && p + 1 <= |data|
    requires At(data, p + 1, EncodeCString(t.name))
    requires At(data, c, LeBytes(Truncate32(|t.payload|)))
    requires At(data, c + 4, t.payload)
    ensures ParseTagEntry(data, p) == Done(t, c + 4 + |t.payload|)
  {
    CStringRoundTrip(data, p + 1, t.name);
    ReadU32At(data, c, |t.payload|);
    TagEntrySteps(data, p, t, c);
  }

  /** An entry with a NUL-free name and a payload whose length fits the u32 field
      reads back as written, and the read stops right after its payload. */
  lemma TagEntryRoundTrip(data: seq<byte>, p: nat, t: Tag)
    requires 0 !in t.name && |t.payload| < U32_LIMIT
    requires At(data, p, EncodeTag(t))
    ensures ParseTagEntry(data, p) == Done(t, p + |EncodeTag(t)|)
  {
    var c := p + 1 + |t.name| + 1;
    TagParts(data, p, c, t);
    TagFieldsRoundTrip(data, p, c, t);
  }

  /** The bytes LOD::write closes the table with are one more entry: the marker
      0x01, the name "#EndOfFile#" and an empty payload. */
  lemma SentinelIsEntry()
    ensures SENTINEL == EncodeTag(Tag(END_OF_FILE, []))
  {
    assert Truncate32(0) == 0;
    assert EncodeCString([0x01] + END_OF_FILE) == [0x01] + EncodeCString(END_OF_FILE);
  }

  /** A 0x00 found from `p` on depends only on the bytes from `p` on. */
  lemma {:induction false} NulIndexFrom(data: seq<byte>, other: seq<byte>, p: nat)
    requires p <= |data| == |other|
    requires forall k :: p <= k < |data| ==> data[k] == other[k]
    ensures NulIndex(data, p) == NulIndex(other, p)
    decreases |data| - p
  {
    if p < |data| && data[p] != 0 {
      NulIndexFrom(data, other, p + 1);
    }
  }

  /** `input.bytes().next()` drops the marker unchecked: whatever byte stands in
      front of an entry, the entry reads the same. */
  lemma TagMarkerIgnored(data: seq<byte>, p: nat, b: byte)
    requires p < |data|
    ensures ParseTagEntry(data[p := b], p) == ParseTagEntry(data, p)
  {
    var other := data[p := b];
    assert forall k :: p + 1 <= k < |data| ==> data[k] == other[k];
    NulIndexFrom(data, other, p + 1);
    var name := ParseCString(data, p + 1);
    assert ParseCString(other, p + 1) == name by {
      assert other[p + 1..NulIndex(data, p + 1)] == data[p + 1..NulIndex(data, p + 1)];
    }
    var c := name.next;
    if c + 4 <= |data| {
      assert other[c..c + 4] == data[c..c + 4];
      assert ReadU32(other, c) == ReadU32(data, c);
      var size := U32At(data, c);
      if c + 4 + size <= |data| {
        assert other[c + 4..c + 4 + size] == data[c + 4..c + 4 + size];
      }
    }
    assert SkipUpTo(data, p, 1) == p + 1 == SkipUpTo(other, p, 1);
  }

  // ---------------------------------------------------------------------------
  // The table

  lemma EncodeTaggsCons(ts: seq<Tag>)
    requires ts != []
    ensures EncodeTaggs(ts) == EncodeTag(ts[0]) + EncodeTaggs(ts[1..])
  {
  }

  /** The entries LOD::write can write so that they read back: a NUL-free name and a
      payload whose length fits the u32 field. */
  predicate FitsEntry(t: Tag) {
    0 !in t.name && |t.payload| < U32_LIMIT
  }

  lemma TagEntryInverts(data: seq<byte>)
    ensures Inverts(data, EncodeTag, ParseTagEntry, FitsEntry)
  {
    forall t: Tag, q: nat | FitsEntry(t) && At(data, q, EncodeTag(t))
      ensures ParseTagEntry(data, q) == Done(t, q + |EncodeTag(t)|)
    {
      TagEntryRoundTrip(data, q, t);
    }
  }

  /** The first entry of a valid table is valid and its name is not used again;
      the rest is a valid table. */
  lemma ValidTableTail(ts: seq<Tag>)
    requires ts != [] && ValidTable(ts)
    ensures ValidTag(ts[0]) && ValidTable(ts[1..])
    ensures ts[0].name !in NameSet(ts[1..])
    ensures NameSet(ts) == {ts[0].name} + NameSet(ts[1..])
  {
    forall i | 0 <= i < |ts[1..]| ensures ValidTag(ts[1..][i]) {
      assert ts[1..][i] == ts[i + 1];
    }
  }

  /** Where the first entry of a written table lies, and the rest after it. */
  lemma TagTableSplit(data: seq<byte>, p: nat, ts: seq<Tag>)
    requires ts != [] && At(data, p, EncodeTaggs(ts))
    ensures At(data, p, EncodeTag(ts[0]))
    ensures At(data, p + |EncodeTag(ts[0])|, EncodeTaggs(ts[1..]))
    ensures |EncodeTaggs(ts)| == |EncodeTag(ts[0])| + |EncodeTaggs(ts[1..])|
  {
    EncodeTaggsCons(ts);
    AtConcat(data, p, EncodeTag(ts[0]), EncodeTaggs(ts[1..]));
  }

  /** Inserting the first entry of a valid table whose names are new appends it,
      and the rest of the table stays valid and new. */
  lemma TagTableNames(acc: seq<Tag>, ts: seq<Tag>)
    requires ts != [] && ValidTable(ts) && NameSet(acc) !! NameSet(ts)
    ensures ValidTag(ts[0]) && ValidTable(ts[1..])
    ensures Insert(acc, ts[0]) == acc + [ts[0]]
    ensures NameSet(acc + [ts[0]]) !! NameSet(ts[1..])
  {
    ValidTableTail(ts);
    NameSetSnoc(acc, ts[0]);
  }

  /** The sentinel, read as an entry, ends the loop with the table as it is. */
  lemma TagLoopEnd(data: seq<byte>, p: nat, acc: seq<Tag>, entry: (seq<byte>, nat) -> Parsed<Tag>)
    requires Advances(data, entry) && Inverts(data, EncodeTag, entry, FitsEntry)
    requires At(data, p, SENTINEL)
    ensures TagLoop(data, p, acc, entry) == Done(acc, p + |SENTINEL|)
  {
    SentinelIsEntry();
    assert FitsEntry(Tag(END_OF_FILE, []));
    assert entry(data, p) == Done(Tag(END_OF_FILE, []), p + |SENTINEL|);
  }

  /** A written entry other than the sentinel is inserted, and the loop goes on
      right after it. */
  lemma TagLoopStep(data: seq<byte>, p: nat, q: nat, acc: seq<Tag>, t: Tag,
                    entry: (seq<byte>, nat) -> Parsed<Tag>)
    requires Advances(data, entry) && Inverts(data, EncodeTag, entry, FitsEntry)
    requires FitsEntry(t) && t.name != END_OF_FILE
    requires q == p + |EncodeTag(t)| && At(data, p, EncodeTag(t))
    ensures q <= |data|
    ensures TagLoop(data, p, acc, entry) == TagLoop(data, q, Insert(acc, t), entry)
  {
    assert entry(data, p) == Done(t, q);
  }

  /** The first entry of a written table is read and appended, and the rest of the
      table follows it, still valid and still new to the entries read so far. */
  lemma TagLoopHead(data: seq<byte>, p: nat, q: nat, acc: seq<Tag>, ts: seq<Tag>,
                    entry: (seq<byte>, nat) -> Parsed<Tag>)
    requires Advances(data, entry) && Inverts(data, EncodeTag, entry, FitsEntry)
    requires ts != [] && ValidTable(ts) && NameSet(acc) !! NameSet(ts)
    requires q == p + |EncodeTag(ts[0])| && At(data, p, EncodeTaggs(ts))
    ensures q <= |data|
    ensures TagLoop(data, p, acc, entry) == TagLoop(data, q, acc + [ts[0]], entry)
    ensures At(data, q, EncodeTaggs(ts[1..]))
    ensures ValidTable(ts[1..]) && NameSet(acc + [ts[0]]) !! NameSet(ts[1..])
    ensures q + |EncodeTaggs(ts[1..])| == p + |EncodeTaggs(ts)|
  {
    TagTableSplit(data, p, ts);
    TagTableNames(acc, ts);
    TagLoopStep(data, p, q, acc, ts[0], entry);
  }

  /** The tag loop reads back the table LOD::write wrote, in its order, after the
      entries `acc` already inserted, and stops right after the sentinel, for any
      entry reader that reads back what EncodeTag wrote. The names must be distinct
      and new to `acc`: a name seen twice would be replaced and moved to the back of
      the map instead. */
  lemma {:induction false} TagLoopRoundTrip(data: seq<byte>, p: nat, acc: seq<Tag>, ts: seq<Tag>,
                                            entry: (seq<byte>, nat) -> Parsed<Tag>)
    requires Advances(data, entry) && Inverts(data, EncodeTag, entry, FitsEntry)
    requires ValidTable(ts) && NameSet(acc) !! NameSet(ts)
    requires At(data, p, EncodeTaggs(ts))
    ensures TagLoop(data, p, acc, entry) == Done(acc + ts, p + |EncodeTaggs(ts)|)
    decreases |ts|
  {
    if ts == [] {
      assert EncodeTaggs(ts) == SENTINEL;
      TagLoopEnd(data, p, acc, entry);
      assert acc + ts == acc;
    } else {
      var q := p + |EncodeTag(ts[0])|;
      TagLoopHead(data, p, q, acc, ts, entry);
      TagLoopRoundTrip(data, q, acc + [ts[0]], ts[1..], entry);
      AppendHead(acc, ts);
    }
  }

  /** LOD::read's tag loop reads back the whole table LOD::write wrote. */
  lemma TagsRoundTrip(data: seq<byte>, p: nat, ts: seq<Tag>)
    requires ValidTable(ts)
    requires At(data, p, EncodeTaggs(ts))
    ensures ParseTags(data, p, []) == Done(ts, p + |EncodeTaggs(ts)|)
  {
    TagEntryAdvances(data);
    TagEntryInverts(data);
    TagLoopRoundTrip(data, p, [], ts, ParseTagEntry);
    assert [] + ts == ts;
  }

  // ---------------------------------------------------------------------------
  // What the loop builds

  lemma {:induction false} NameSetHas(ts: seq<Tag>, u: Tag)
    requires u in ts
    ensures u.name in NameSet(ts)
  {
    if ts[0] != u {
      assert u in ts[1..];
      NameSetHas(ts[1..], u);
    }
  }

  /** Dropping a name keeps every entry under another name and adds none. */
  lemma {:induction false} WithoutKeeps(ts: seq<Tag>, name: seq<byte>, u: Tag)
    ensures u in Without(ts, name) <==> u in ts && u.name != name
  {
    if ts != [] {
      WithoutKeeps(ts[1..], name, u);
      assert u in ts <==> u == ts[0] || u in ts[1..];
    }
  }

  /** LinkedHashMap::insert: afterwards the new entry is the one entry under its
      name, every entry under another name is still there, and nothing else is. */
  lemma InsertMap(ts: seq<Tag>, t: Tag, u: Tag)
    ensures u in Insert(ts, t) && u.name == t.name ==> u == t
    ensures u in Insert(ts, t) <==> u == t || (u in ts && u.name != t.name)
  {
    WithoutKeeps(ts, t.name, u);
    if u in Without(ts, t.name) {
      NameSetHas(Without(ts, t.name), u);
    }
  }
}
