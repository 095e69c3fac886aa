/** The single-level directory (filesys/directory.cc): a fixed table of names and header sectors. */
module Directories {
  import opened Bytes
  import opened Sequences
  import opened FileHeaders
  import opened OpenFiles

  const FILE_NAME_MAX_LEN := 9
  const ENTRY_SIZE := 20      // bool, padding to 4, int, char[10], padding to a multiple of 4

  datatype Entry = Entry(inUse: bool, sector: int, name: seq<byte>)

  // ---- C strings ----

  /** Byte `i` of a C string; the end of the sequence is its NUL. */
  function CharAt(s: seq<byte>, i: nat): byte
  {
    if i < |s| then s[i] else 0
  }

  /** `strncmp(a + i, b + i, FILE_NAME_MAX_LEN - i) == 0` */
  predicate SameFrom(a: seq<byte>, b: seq<byte>, i: nat)
    requires i <= FILE_NAME_MAX_LEN
    decreases FILE_NAME_MAX_LEN - i
  {
    if i == FILE_NAME_MAX_LEN then true
    else if CharAt(a, i) != CharAt(b, i) then false
    else if CharAt(a, i) == 0 then true
    else SameFrom(a, b, i + 1)
  }

  function KeyFrom(s: seq<byte>, i: nat): seq<byte>
    requires i <= FILE_NAME_MAX_LEN
    decreases FILE_NAME_MAX_LEN - i
  {
    if i == FILE_NAME_MAX_LEN || CharAt(s, i) == 0 then [] else [CharAt(s, i)] + KeyFrom(s, i + 1)
  }

  /** The part of a name that identifies the file: its first nine characters. */
  function Key(name: seq<byte>): seq<byte>
  {
    KeyFrom(name, 0)
  }

  lemma {:induction false} SameFromIffKey(a: seq<byte>, b: seq<byte>, i: nat)
    requires i <= FILE_NAME_MAX_LEN
    ensures SameFrom(a, b, i) <==> KeyFrom(a, i) == KeyFrom(b, i)
    decreases FILE_NAME_MAX_LEN - i
  {
    if i < FILE_NAME_MAX_LEN {
      SameFromIffKey(a, b, i + 1);
      if CharAt(a, i) != 0 && CharAt(b, i) != 0 {
        assert KeyFrom(a, i)[0] == CharAt(a, i) && KeyFrom(a, i)[1..] == KeyFrom(a, i + 1);
        assert KeyFrom(b, i)[0] == CharAt(b, i) && KeyFrom(b, i)[1..] == KeyFrom(b, i + 1);
      }
    }
  }

  /** The source bytes up to the NUL, then NULs: what `strncpy` stores at position `i`. */
  function CopiedChar(src: seq<byte>, i: nat): byte
  {
    if exists k :: 0 <= k <= i && CharAt(src, k) == 0 then 0 else CharAt(src, i)
  }

  /** `strncpy(dst, src, FILE_NAME_MAX_LEN)` into a ten-byte field; its last byte keeps its value. */
  function StrnCpy(dst: seq<byte>, src: seq<byte>): (r: seq<byte>)
    requires |dst| == FILE_NAME_MAX_LEN + 1
    ensures |r| == |dst|
  {
    seq(FILE_NAME_MAX_LEN, i requires i >= 0 => CopiedChar(src, i)) + [dst[FILE_NAME_MAX_LEN]]
  }

  lemma {:induction false} KeyOfCopyFrom(dst: seq<byte>, src: seq<byte>, i: nat)
    requires |dst| == FILE_NAME_MAX_LEN + 1 && i <= FILE_NAME_MAX_LEN
    requires forall k :: 0 <= k < i ==> CharAt(src, k) != 0
    ensures KeyFrom(StrnCpy(dst, src), i) == KeyFrom(src, i)
    decreases FILE_NAME_MAX_LEN - i
  {
    if i < FILE_NAME_MAX_LEN {
      assert StrnCpy(dst, src)[i] == CopiedChar(src, i) == CharAt(src, i);
      if CharAt(src, i) != 0 { KeyOfCopyFrom(dst, src, i + 1); }
    }
  }

  // ---- the table on disk ----

  function EncodeEntry(e: Entry): (b: seq<byte>)
    requires |e.name| == FILE_NAME_MAX_LEN + 1
    ensures |b| == ENTRY_SIZE
  {
    [if e.inUse then 1 else 0, 0, 0, 0] + IntBytes(e.sector) + e.name + [0, 0]
  }

  function DecodeEntry(b: seq<byte>): (e: Entry)
    requires |b| == ENTRY_SIZE
    ensures |e.name| == FILE_NAME_MAX_LEN + 1
  {
    Entry(b[0] != 0, BytesInt(b[4..8]), b[8..18])
  }

  lemma EntryRoundTrip(e: Entry)
    requires |e.name| == FILE_NAME_MAX_LEN + 1 && IsInt32(e.sector)
    ensures DecodeEntry(EncodeEntry(e)) == e
  {
    var b := EncodeEntry(e);
    assert b[4..8] == IntBytes(e.sector);
    assert b[8..18] == e.name;
    IntRoundTrip(e.sector);
  }

  ghost predicate Storable(t: seq<Entry>)
  {
    forall i :: 0 <= i < |t| ==> |t[i].name| == FILE_NAME_MAX_LEN + 1 && IsInt32(t[i].sector)
  }

  function EncodeTable(t: seq<Entry>): (b: seq<byte>)
    requires forall i :: 0 <= i < |t| ==> |t[i].name| == FILE_NAME_MAX_LEN + 1
    ensures |b| == ENTRY_SIZE * |t|
  {
    var rs := seq(|t|, i requires 0 <= i < |t| => EncodeEntry(t[i]));
    FlattenLength(rs, ENTRY_SIZE);
    Flatten(rs)
  }

  function DecodeTable(b: seq<byte>): (t: seq<Entry>)
    ensures forall i :: 0 <= i < |t| ==> |t[i].name| == FILE_NAME_MAX_LEN + 1
  {
    var rs := Chunks(b, ENTRY_SIZE);
    seq(|rs|, i requires 0 <= i < |rs| => DecodeEntry(rs[i]))
  }

  lemma TableRoundTrip(t: seq<Entry>)
    requires Storable(t)
    ensures DecodeTable(EncodeTable(t)) == t
  {
    var rs := seq(|t|, i requires 0 <= i < |t| => EncodeEntry(t[i]));
    ChunksFlatten(rs, ENTRY_SIZE);
    forall i | 0 <= i < |t| ensures DecodeEntry(rs[i]) == t[i] {
      EntryRoundTrip(t[i]);
    }
  }

  /** Entry `e` is the live entry for `name`. */
  ghost predicate Names(e: Entry, name: seq<byte>)
  {
    e.inUse && Key(e.name) == Key(name)
  }

  ghost predicate Listed(t: seq<Entry>, name: seq<byte>)
  {
    exists i :: 0 <= i < |t| && Names(t[i], name)
  }

  class Directory {
    var table: seq<Entry>

    ghost predicate Valid()
      reads this
    {
      Storable(table)
    }

    constructor (size: nat)
      ensures Valid() && |table| == size && forall i :: 0 <= i < size ==> !table[i].inUse
    {
      table := seq(size, _ => Entry(false, 0, [0, 0, 0, 0, 0, 0, 0, 0, 0, 0]));
    }

    /** The table is overwritten by the bytes of the file, as far as either goes. */
    method FetchFrom(file: OpenFile)
      requires Valid() && file.Valid()
      modifies this
      ensures table == DecodeTable(Overlay(EncodeTable(old(table)), file.Contents()))
      ensures file.hdr.numBytes == ENTRY_SIZE * |old(table)| ==> table == DecodeTable(file.Contents())
    {
      var bytes := EncodeTable(table);
      var buf := new byte[|bytes|](i requires 0 <= i < |bytes| => bytes[i]);
      assert buf[..] == bytes;
      var _ := file.ReadAt(buf, 0, |bytes|, 0);
      assert buf[..] == Overlay(bytes, file.Contents());
      table := DecodeTable(buf[..]);
    }

    /** The file is overwritten by the bytes of the table, as far as either goes. */
    method WriteBack(file: OpenFile)
      requires Valid() && file.Valid()
      modifies file.disk
      ensures file.Valid() && file.Contents() == Overlay(old(file.Contents()), EncodeTable(table))
      ensures file.hdr.numBytes == ENTRY_SIZE * |table| ==> DecodeTable(file.Contents()) == table
      ensures forall s :: 0 <= s < NUM_SECTORS && s !in file.hdr.View().Data() ==> file.disk.data[s] == old(file.disk.data[s])
    {
      hide EncodeTable, DecodeTable, Overlay, Splice;
      var bytes := EncodeTable(table);
      TableRoundTrip(table);
      var _ := file.WriteAt(bytes, |bytes|, 0);
      WrittenFromStart(old(file.Contents()), file.Contents(), bytes);
    }

    /** The first live entry for `name`, or -1 exactly when there is none. */
    method FindIndex(name: seq<byte>) returns (r: int)
      ensures r == -1 <==> !Listed(table, name)
      ensures r != -1 ==> 0 <= r < |table| && Names(table[r], name) && forall k :: 0 <= k < r ==> !Names(table[k], name)
    {
      for i := 0 to |table|
        invariant forall k :: 0 <= k < i ==> !Names(table[k], name)
      {
        SameFromIffKey(table[i].name, name, 0);
        if table[i].inUse && SameFrom(table[i].name, name, 0) {
          return i;
        }
      }
      return -1;
    }

    method Find(name: seq<byte>) returns (sector: int)
      requires forall i :: 0 <= i < |table| && table[i].inUse ==> table[i].sector >= 0
      ensures sector == -1 <==> !Listed(table, name)
      ensures sector != -1 ==> exists i :: 0 <= i < |table| && Names(table[i], name) && table[i].sector == sector
    {
      var i := FindIndex(name);
      if i != -1 {
        return table[i].sector;
      }
      return -1;
    }

    /** Fills the first free slot; fails, changing nothing, when the name is listed or the table is full. */
    method Add(name: seq<byte>, newSector: int) returns (ok: bool)
      requires Valid() && IsInt32(newSector)
      modifies this
      ensures Valid() && |table| == |old(table)|
      ensures ok <==> !Listed(old(table), name) && exists i :: 0 <= i < |table| && !old(table)[i].inUse
      ensures !ok ==> table == old(table)
      ensures ok ==> exists i ::
                && 0 <= i < |table| && !old(table)[i].inUse && (forall k :: 0 <= k < i ==> old(table)[k].inUse)
                && Names(table[i], name)
                && table[i].sector == newSector && table == old(table)[i := table[i]]
    {
      var found := FindIndex(name);
      if found != -1 {
        return false;
      }
      for i := 0 to |table|
        invariant table == old(table)
        invariant forall k :: 0 <= k < i ==> table[k].inUse
      {
        if !table[i].inUse {
          KeyOfCopyFrom(table[i].name, name, 0);
          table := table[i := Entry(true, newSector, StrnCpy(table[i].name, name))];
          return true;
        }
      }
      return false;
    }

    method Remove(name: seq<byte>) returns (ok: bool)
      requires Valid()
      modifies this
      ensures Valid() && |table| == |old(table)|
      ensures ok <==> Listed(old(table), name)
      ensures !ok ==> table == old(table)
      ensures ok ==> exists i ::
                && 0 <= i < |table| && Names(old(table)[i], name)
                && table == old(table)[i := old(table)[i].(inUse := false)]
    {
      var i := FindIndex(name);
      if i == -1 {
        return false;
      }
      table := table[i := table[i].(inUse := false)];
      return true;
    }
  }
}
