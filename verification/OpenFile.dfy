/** Byte-granular access to a file over whole-sector I/O (filesys/openfile.cc). */
module OpenFiles {
  import opened Bytes
  import opened Sequences
  import opened FileHeaders

  /** How much of a request lies inside a file of `length` bytes. */
  function Clip(length: int, numBytes: int, position: int): (n: int)
    requires length >= 0 && position >= 0
    ensures 0 <= n && (n > 0 ==> position + n <= length)
  {
    if numBytes <= 0 || position >= length then 0
    else if position + numBytes > length then length - position
    else numBytes
  }

  /** `after` is `before` with `n` bytes of `file`, from `position` on, copied to index `base`. */
  ghost predicate Copied(before: seq<byte>, after: seq<byte>, file: seq<byte>, base: int, n: int, position: int)
    requires 0 <= base && 0 <= n && 0 <= position && (n > 0 ==> position + n <= |file|)
  {
    && |after| == |before| && base + n <= |after|
    && (forall x :: base <= x < base + n ==> after[x] == file[position - base + x])
    && (forall x :: 0 <= x < |after| && !(base <= x < base + n) ==> after[x] == before[x])
  }

  /** Disks that agree on a file's data sectors hold the same file. */
  lemma SameSectorsSameBytes(d: seq<Sector>, e: seq<Sector>, h: Header)
    requires |d| == |e| == NUM_SECTORS && h.WellFormed()
    requires forall s :: 0 <= s < NUM_SECTORS && s in h.Data() ==> d[s] == e[s]
    ensures FileBytes(d, h) == FileBytes(e, h)
  {
    forall k | 0 <= k < h.numSectors ensures Image(d, h)[k] == Image(e, h)[k] {
      assert h.dataSectors[..h.numSectors][k] in h.Data();
    }
    assert Image(d, h) == Image(e, h);
  }

  /** Writing one data sector changes one sector of the image. */
  lemma WriteOneSector(d: seq<Sector>, h: Header, k: int, bytes: Sector)
    requires |d| == NUM_SECTORS && h.WellFormed() && 0 <= k < h.numSectors
    ensures Image(d[h.dataSectors[k] := bytes], h) == Image(d, h)[k := bytes]
    ensures h.dataSectors[k] in h.Data()
  {
    var used := h.dataSectors[..h.numSectors];
    assert used[k] == h.dataSectors[k];
    assert forall j :: 0 <= j < h.numSectors ==> used[j] == h.dataSectors[j];
    var e := d[h.dataSectors[k] := bytes];
    forall j {:trigger Image(e, h)[j]} | 0 <= j < h.numSectors ensures Image(e, h)[j] == Image(d, h)[k := bytes][j] {
      assert j != k ==> h.dataSectors[j] != h.dataSectors[k];
    }
  }

  /** The `j`th sector-sized piece of a buffer. */
  function SectorOf(buf: seq<byte>, j: nat): (s: Sector)
    requires (j + 1) * SECTOR_SIZE <= |buf|
  {
    buf[j * SECTOR_SIZE..(j + 1) * SECTOR_SIZE]
  }

  function PatchSector(img: seq<Sector>, buf: seq<byte>, first: nat, end: nat, k: nat): Sector
    requires first <= end <= |img| && (end - first) * SECTOR_SIZE <= |buf| && k < |img|
  {
    if first <= k < end then SectorOf(buf, k - first) else img[k]
  }

  /** `img` with the sectors from `first` up to `end` replaced by the pieces of `buf`. */
  ghost function Patch(img: seq<Sector>, buf: seq<byte>, first: nat, end: nat): (r: seq<Sector>)
    requires first <= end <= |img| && (end - first) * SECTOR_SIZE <= |buf|
    ensures |r| == |img|
  {
    seq(|img|, k requires 0 <= k < |img| => PatchSector(img, buf, first, end, k))
  }

  lemma PatchNext(img: seq<Sector>, buf: seq<byte>, first: nat, end: nat)
    requires first <= end < |img| && (end + 1 - first) * SECTOR_SIZE <= |buf|
    ensures Patch(img, buf, first, end + 1) == Patch(img, buf, first, end)[end := SectorOf(buf, end - first)]
  {
  }

  /** What WriteAt's buffer must hold before it is written: the file's own bytes, except those of the
      request; whatever lies past the end of the file does not matter. */
  ghost predicate Merged(buf: seq<byte>, file: seq<byte>, from: seq<byte>, position: int, n: int, first: int)
    requires 0 <= first && 0 < n <= |from|
  {
    forall x :: 0 <= x < |buf| && first * SECTOR_SIZE + x < |file| ==>
      var i := first * SECTOR_SIZE + x;
      buf[x] == if position <= i < position + n then from[i - position] else file[i]
  }

  /** The bytes of `buf` that a request leaves alone are the file's. */
  ghost predicate InPlace(buf: seq<byte>, file: seq<byte>, position: int, n: int, first: int)
    requires 0 <= first
  {
    forall x :: 0 <= x < |buf| && first * SECTOR_SIZE + x < |file| ==>
      var i := first * SECTOR_SIZE + x;
      position <= i < position + n || buf[x] == file[i]
  }

  /** WriteAt's two conditional reads put everything the request leaves alone in place. */
  lemma EndsInPlace(b0: seq<byte>, b1: seq<byte>, b2: seq<byte>, file: seq<byte>, position: int, n: int, first: int, last: int)
    requires 0 <= position && 0 < n && position + n <= |file|
    requires first == position / SECTOR_SIZE && last == (position + n - 1) / SECTOR_SIZE
    requires |b0| == (1 + last - first) * SECTOR_SIZE
    requires if position != first * SECTOR_SIZE
             then Copied(b0, b1, file, 0, Clip(|file|, SECTOR_SIZE, first * SECTOR_SIZE), first * SECTOR_SIZE)
             else b1 == b0
    requires if position + n != (last + 1) * SECTOR_SIZE && (first != last || position == first * SECTOR_SIZE)
             then Copied(b1, b2, file, (last - first) * SECTOR_SIZE,
                         Clip(|file|, SECTOR_SIZE, last * SECTOR_SIZE), last * SECTOR_SIZE)
             else b2 == b1
    ensures InPlace(b2, file, position, n, first)
  {
  }

  lemma PatchedByte(img: seq<Sector>, buf: seq<byte>, first: nat, end: nat, i: int)
    requires first <= end <= |img| && (end - first) * SECTOR_SIZE <= |buf| && 0 <= i < |img| * SECTOR_SIZE
    ensures ByteAt(Patch(img, buf, first, end), i) ==
            if first * SECTOR_SIZE <= i < end * SECTOR_SIZE then buf[i - first * SECTOR_SIZE] else ByteAt(img, i)
  {
    var k := i / SECTOR_SIZE;
    if first <= k < end {
      assert SectorOf(buf, k - first)[i % SECTOR_SIZE] == buf[(k - first) * SECTOR_SIZE + i % SECTOR_SIZE];
    }
  }

  /** Replacing the merged sectors splices the request into the file. */
  lemma PatchedIsSpliced(img: seq<Sector>, len: int, buf: seq<byte>, from: seq<byte>, position: int, n: int,
                         first: nat, end: nat)
    requires 0 <= len <= |img| * SECTOR_SIZE && 0 <= position && 0 < n <= |from| && position + n <= len
    requires first * SECTOR_SIZE <= position && position + n <= end * SECTOR_SIZE && first <= end <= |img|
    requires |buf| == (end - first) * SECTOR_SIZE && Merged(buf, BytesOf(img, len), from, position, n, first)
    ensures BytesOf(Patch(img, buf, first, end), len) == Splice(BytesOf(img, len), position, from[..n])
  {
    var before, after := BytesOf(img, len), BytesOf(Patch(img, buf, first, end), len);
    forall i | 0 <= i < len ensures after[i] == Splice(before, position, from[..n])[i] {
      PatchedByte(img, buf, first, end, i);
      var x := i - first * SECTOR_SIZE;
      assert first * SECTOR_SIZE + x == i;
    }
  }

  /** Writing at the beginning of a file overwrites it as far as it goes. */
  lemma WrittenFromStart(before: seq<byte>, after: seq<byte>, from: seq<byte>)
    requires |after| == |before|
    requires var n := Clip(|before|, |from|, 0);
             if n > 0 then after == Splice(before, 0, from[..n]) else after == before
    ensures after == Overlay(before, from)
  {
  }

  lemma CopyFits(position: int, n: int, first: int, last: int)
    requires 0 <= position && 0 < n && first == position / SECTOR_SIZE && last == (position + n - 1) / SECTOR_SIZE
    ensures 0 <= first <= last && 0 <= position - first * SECTOR_SIZE
    ensures position - first * SECTOR_SIZE + n <= (1 + last - first) * SECTOR_SIZE
  {
  }

  /** Copying the new bytes over what is in place merges them. */
  lemma CopiedIn(b: seq<byte>, b': seq<byte>, file: seq<byte>, from: seq<byte>, position: int, n: int, first: int)
    requires 0 <= first && 0 < n <= |from| && InPlace(b, file, position, n, first) && |b'| == |b|
    requires 0 <= position - first * SECTOR_SIZE && position - first * SECTOR_SIZE + n <= |b|
    requires var start := position - first * SECTOR_SIZE;
             && (forall x :: start <= x < start + n ==> b'[x] == from[x - start])
             && (forall x :: 0 <= x < |b| && !(start <= x < start + n) ==> b'[x] == b[x])
    ensures Merged(b', file, from, position, n, first)
  {
  }

  class OpenFile {
    const disk: SectorDisk
    const hdr: FileHeader
    var seekPosition: int

    ghost predicate Valid()
      reads this, disk, hdr
    {
      disk.Valid() && hdr.View().WellFormed()
    }

    ghost function Contents(): (b: seq<byte>)
      reads this, disk, hdr
      requires Valid()
      ensures |b| == hdr.numBytes
    {
      FileBytes(disk.data, hdr.View())
    }

    constructor (disk: SectorDisk, sector: int)
      requires disk.Valid() && 0 <= sector < NUM_SECTORS
      ensures this.disk == disk && fresh(hdr) && seekPosition == 0
      ensures hdr.View() == DecodeHeader(disk.data[sector])
    {
      this.disk := disk;
      hdr := new FileHeader();
      seekPosition := 0;
      new;
      hdr.FetchFrom(disk, sector);
    }

    /** Copies the part of the request that lies inside the file into `into`, from index `base` on. */
    method ReadAt(into: array<byte>, base: nat, numBytes: int, position: int) returns (n: int)
      requires Valid() && position >= 0
      requires base + Clip(hdr.numBytes, numBytes, position) <= into.Length
      modifies into
      ensures n == Clip(hdr.numBytes, numBytes, position)
      ensures Copied(old(into[..]), into[..], Contents(), base, n, position)
    {
      n := Clip(hdr.numBytes, numBytes, position);
      if n == 0 {
        return;
      }
      var firstSector := position / SECTOR_SIZE;
      var lastSector := (position + n - 1) / SECTOR_SIZE;
      var buf := new byte[(1 + lastSector - firstSector) * SECTOR_SIZE];
      ReadSectors(buf, firstSector, lastSector);
      var start := position - firstSector * SECTOR_SIZE;
      forall k | 0 <= k < n {
        into[base + k] := buf[start + k];
      }
      forall x | base <= x < base + n ensures into[x] == Contents()[position - base + x] {
        assert into[base + (x - base)] == buf[start + (x - base)];
      }
    }

    /** ReadAt's loop: `buf` gets the whole sectors; its bytes are file bytes up to the end of the file. */
    method ReadSectors(buf: array<byte>, firstSector: int, lastSector: int)
      requires Valid() && 0 <= firstSector <= lastSector < hdr.numSectors
      requires buf.Length == (1 + lastSector - firstSector) * SECTOR_SIZE
      modifies buf
      ensures forall x :: 0 <= x < buf.Length && firstSector * SECTOR_SIZE + x < hdr.numBytes ==>
                buf[x] == Contents()[firstSector * SECTOR_SIZE + x]
    {
      var i := firstSector;
      while i <= lastSector
        invariant firstSector <= i <= lastSector + 1
        invariant forall x :: 0 <= x < (i - firstSector) * SECTOR_SIZE && firstSector * SECTOR_SIZE + x < hdr.numBytes ==>
                    buf[x] == Contents()[firstSector * SECTOR_SIZE + x]
      {
        HeaderFits(hdr.View());
        var sector := hdr.ByteToSector(i * SECTOR_SIZE);
        var bytes := disk.ReadSector(sector);
        var at := (i - firstSector) * SECTOR_SIZE;
        forall k | 0 <= k < SECTOR_SIZE {
          buf[at + k] := bytes[k];
        }
        i := i + 1;
      }
    }

    /** WriteAt's reads: afterwards every file byte of `buf` that the request leaves alone is in place. */
    method ReadEnds(buf: array<byte>, n: int, position: int, firstSector: int, lastSector: int)
      requires Valid() && 0 <= position && 0 < n && position + n <= hdr.numBytes
      requires firstSector == position / SECTOR_SIZE && lastSector == (position + n - 1) / SECTOR_SIZE
      requires buf.Length == (1 + lastSector - firstSector) * SECTOR_SIZE
      modifies buf
      ensures InPlace(buf[..], Contents(), position, n, firstSector)
    {
      var firstAligned := position == firstSector * SECTOR_SIZE;
      var lastAligned := position + n == (lastSector + 1) * SECTOR_SIZE;
      ghost var file, b0 := Contents(), buf[..];
      if !firstAligned {
        var _ := ReadAt(buf, 0, SECTOR_SIZE, firstSector * SECTOR_SIZE);
      }
      ghost var b1 := buf[..];
      if !lastAligned && (firstSector != lastSector || firstAligned) {
        var _ := ReadAt(buf, (lastSector - firstSector) * SECTOR_SIZE, SECTOR_SIZE, lastSector * SECTOR_SIZE);
      }
      EndsInPlace(b0, b1, buf[..], file, position, n, firstSector, lastSector);
    }

    /** WriteAt's buffer: partially covered end sectors are read first, then `from` is copied over. */
    method FillBuffer(buf: array<byte>, from: seq<byte>, n: int, position: int, firstSector: int, lastSector: int)
      requires Valid() && 0 <= position && 0 < n <= |from| && position + n <= hdr.numBytes
      requires firstSector == position / SECTOR_SIZE && lastSector == (position + n - 1) / SECTOR_SIZE
      requires buf.Length == (1 + lastSector - firstSector) * SECTOR_SIZE
      modifies buf
      ensures Merged(buf[..], Contents(), from, position, n, firstSector)
    {
      hide InPlace, Merged;
      ReadEnds(buf, n, position, firstSector, lastSector);
      ghost var b := buf[..];
      var start := position - firstSector * SECTOR_SIZE;
      CopyFits(position, n, firstSector, lastSector);
      forall k | 0 <= k < n {
        buf[start + k] := from[k];
      }
      assert forall x :: start <= x < start + n ==> buf[x] == from[x - start];
      CopiedIn(b, buf[..], Contents(), from, position, n, firstSector);
    }

    method WriteSectors(buf: array<byte>, firstSector: int, lastSector: int)
      requires Valid() && 0 <= firstSector <= lastSector < hdr.numSectors
      requires buf.Length == (1 + lastSector - firstSector) * SECTOR_SIZE
      modifies disk
      ensures Valid()
      ensures Image(disk.data, hdr.View()) == Patch(old(Image(disk.data, hdr.View())), buf[..], firstSector, lastSector + 1)
      ensures forall s :: 0 <= s < NUM_SECTORS && s !in hdr.View().Data() ==> disk.data[s] == old(disk.data[s])
    {
      hide FileBytes;
      var bytes := buf[..];
      ghost var h, d := hdr.View(), disk.data;
      ghost var img := Image(d, h);
      HeaderFits(h);
      var i := firstSector;
      assert Patch(img, bytes, firstSector, firstSector) == img;
      while i <= lastSector
        invariant firstSector <= i <= lastSector + 1 && disk.Valid()
        invariant Image(disk.data, h) == Patch(img, bytes, firstSector, i)
        invariant forall s :: 0 <= s < NUM_SECTORS && s !in h.Data() ==> disk.data[s] == d[s]
      {
        var sector := hdr.ByteToSector(i * SECTOR_SIZE);
        PatchNext(img, bytes, firstSector, i);
        WriteOneSector(disk.data, h, i, SectorOf(bytes, i - firstSector));
        disk.WriteSector(sector, SectorOf(bytes, i - firstSector));
        i := i + 1;
      }
    }

    /** Overwrites the part of the request that lies inside the file, and no other sector or byte of it. */
    method WriteAt(from: seq<byte>, numBytes: int, position: int) returns (n: int)
      requires Valid() && position >= 0 && |from| >= Clip(hdr.numBytes, numBytes, position)
      modifies disk
      ensures Valid() && n == Clip(hdr.numBytes, numBytes, position)
      ensures n > 0 ==> Contents() == Splice(old(Contents()), position, from[..n])
      ensures n == 0 ==> disk.data == old(disk.data)
      ensures forall s :: 0 <= s < NUM_SECTORS && s !in hdr.View().Data() ==> disk.data[s] == old(disk.data[s])
    {
      n := Clip(hdr.numBytes, numBytes, position);
      if n == 0 {
        return;
      }
      var firstSector := position / SECTOR_SIZE;
      var lastSector := (position + n - 1) / SECTOR_SIZE;
      var buf := new byte[(1 + lastSector - firstSector) * SECTOR_SIZE];
      ghost var img := Image(disk.data, hdr.View());
      FillBuffer(buf, from, n, position, firstSector, lastSector);
      WriteSectors(buf, firstSector, lastSector);
      PatchedIsSpliced(img, hdr.numBytes, buf[..], from, position, n, firstSector, lastSector + 1);
    }

    method Seek(position: int)
      modifies this
      ensures seekPosition == position
    {
      seekPosition := position;
    }

    method Read(into: array<byte>, numBytes: int) returns (n: int)
      requires Valid() && seekPosition >= 0
      requires Clip(hdr.numBytes, numBytes, seekPosition) <= into.Length
      modifies this, into
      ensures Valid() && n == Clip(hdr.numBytes, numBytes, old(seekPosition)) && seekPosition == old(seekPosition) + n
      ensures Copied(old(into[..]), into[..], old(Contents()), 0, n, old(seekPosition))
    {
      n := ReadAt(into, 0, numBytes, seekPosition);
      seekPosition := seekPosition + n;
    }

    method Write(from: seq<byte>, numBytes: int) returns (n: int)
      requires Valid() && seekPosition >= 0 && |from| >= Clip(hdr.numBytes, numBytes, seekPosition)
      modifies this, disk
      ensures Valid() && n == Clip(hdr.numBytes, numBytes, old(seekPosition)) && seekPosition == old(seekPosition) + n
      ensures n > 0 ==> Contents() == Splice(old(Contents()), old(seekPosition), from[..n])
      ensures n == 0 ==> disk.data == old(disk.data)
      ensures forall s :: 0 <= s < NUM_SECTORS && s !in hdr.View().Data() ==> disk.data[s] == old(disk.data[s])
    {
      n := WriteAt(from, numBytes, seekPosition);
      seekPosition := seekPosition + n;
    }
  }

  /** What is written at a position is what is read from there: Seek, Write, Seek, Read. */
  method WriteThenRead(file: OpenFile, position: int, from: seq<byte>, into: array<byte>) returns (n: int)
    requires file.Valid() && position >= 0 && |from| <= into.Length
    modifies file, file.disk, into
    ensures file.Valid() && n == Clip(file.hdr.numBytes, |from|, position) && file.seekPosition == position + n
    ensures into[..n] == from[..n] && into[n..] == old(into[n..])
  {
    hide Image, FileHeader.Valid;
    file.Seek(position);
    n := file.Write(from, |from|);
    file.Seek(position);
    ghost var was := into[..];
    var m := file.Read(into, |from|);
    assert into[n..] == was[n..];
  }
}
