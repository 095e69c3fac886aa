/** Disk sectors and file headers (machine/disk.h, filesys/filehdr.cc). */
module FileHeaders {
  import opened Bytes
  import opened Sequences
  import opened Bitmaps
  import DiskTiming

  const SECTOR_SIZE := 128
  const NUM_SECTORS := DiskTiming.NUM_SECTORS
  const NUM_DIRECT := 30
  const MAX_FILE_SIZE := NUM_DIRECT * SECTOR_SIZE

  type Sector = s: seq<byte> | |s| == SECTOR_SIZE witness seq(SECTOR_SIZE, _ => 0)

  /** The disk as callers of SynchDisk see it: whole sectors, read and written one at a time. */
  class SectorDisk {
    var data: seq<Sector>

    ghost predicate Valid()
      reads this
    {
      |data| == NUM_SECTORS
    }

    method ReadSector(sector: int) returns (bytes: Sector)
      requires Valid() && 0 <= sector < NUM_SECTORS
      ensures bytes == data[sector]
    {
      bytes := data[sector];
    }

    method WriteSector(sector: int, bytes: Sector)
      requires Valid() && 0 <= sector < NUM_SECTORS
      modifies this
      ensures Valid() && data == old(data)[sector := bytes]
    {
      data := data[sector := bytes];
    }
  }

  ghost function Elems(s: seq<int>): set<int>
  {
    set x | x in s
  }

  lemma AppendDistinct(s: seq<int>, x: int)
    requires Distinct(s) && x !in s
    ensures Distinct(s + [x]) && Elems(s + [x]) == Elems(s) + {x}
  {
    assert forall y :: y in s + [x] <==> y in s || y == x;
  }

  lemma FillEntry(t: seq<int>, i: nat, x: int)
    requires i < |t| && Distinct(t[..i]) && x !in Elems(t[..i])
    ensures Distinct(t[i := x][..i + 1]) && Elems(t[i := x][..i + 1]) == Elems(t[..i]) + {x}
  {
    AppendDistinct(t[..i], x);
    assert t[i := x][..i + 1] == t[..i] + [x];
  }

  /** The contents of a file header: length, number of data sectors, and the direct table. */
  datatype Header = Header(numBytes: int, numSectors: int, dataSectors: seq<int>) {

    /** A header Allocate can have produced: the table names distinct sectors of the disk. */
    ghost predicate WellFormed() {
      && 0 <= numBytes <= MAX_FILE_SIZE && |dataSectors| == NUM_DIRECT
      && numSectors == DivRoundUp(numBytes, SECTOR_SIZE)
      && (forall i :: 0 <= i < numSectors ==> 0 <= dataSectors[i] < NUM_SECTORS)
      && Distinct(dataSectors[..numSectors])
    }

    ghost function Data(): set<int>
      requires 0 <= numSectors <= |dataSectors|
    {
      Elems(dataSectors[..numSectors])
    }
  }

  lemma HeaderFits(h: Header)
    requires h.WellFormed()
    ensures 0 <= h.numSectors <= NUM_DIRECT
    ensures h.numBytes <= h.numSectors * SECTOR_SIZE < h.numBytes + SECTOR_SIZE
  {
  }

  /** The file's data sectors, in file order, on disk `d`. */
  ghost function Image(d: seq<Sector>, h: Header): (img: seq<Sector>)
    requires |d| == NUM_SECTORS && h.WellFormed()
    ensures |img| == h.numSectors
  {
    seq(h.numSectors, k requires 0 <= k < h.numSectors => d[h.dataSectors[k]])
  }

  /** Byte `i` of a sequence of sectors. */
  function ByteAt(img: seq<Sector>, i: int): byte
    requires 0 <= i < |img| * SECTOR_SIZE
  {
    img[i / SECTOR_SIZE][i % SECTOR_SIZE]
  }

  /** The first `n` bytes of a sequence of sectors. */
  ghost function BytesOf(img: seq<Sector>, n: int): (b: seq<byte>)
    requires 0 <= n <= |img| * SECTOR_SIZE
    ensures |b| == n
    ensures forall i :: 0 <= i < n ==> b[i] == ByteAt(img, i)
  {
    seq(n, i requires 0 <= i < n => ByteAt(img, i))
  }

  /** The file with header `h` as the flat sequence of bytes it stands for. */
  ghost function FileBytes(d: seq<Sector>, h: Header): (b: seq<byte>)
    requires |d| == NUM_SECTORS && h.WellFormed()
    ensures |b| == h.numBytes
  {
    HeaderFits(h);
    BytesOf(Image(d, h), h.numBytes)
  }

  lemma AllocatedIsWellFormed(h: Header, free: set<int>)
    requires 0 <= h.numBytes <= MAX_FILE_SIZE && |h.dataSectors| == NUM_DIRECT
    requires h.numSectors == DivRoundUp(h.numBytes, SECTOR_SIZE) && 0 <= h.numSectors <= NUM_DIRECT
    requires Distinct(h.dataSectors[..h.numSectors]) && h.Data() <= free
    requires forall s :: s in free ==> 0 <= s < NUM_SECTORS
    ensures h.WellFormed()
  {
    forall i | 0 <= i < h.numSectors ensures 0 <= h.dataSectors[i] < NUM_SECTORS {
      assert h.dataSectors[..h.numSectors][i] in h.Data();
    }
  }

  function HeaderInts(h: Header): seq<int>
  {
    [h.numBytes, h.numSectors] + h.dataSectors
  }

  function EncodeInts(xs: seq<int>): (b: seq<byte>)
    ensures |b| == 4 * |xs|
  {
    var rs := seq(|xs|, i requires 0 <= i < |xs| => IntBytes(xs[i]));
    FlattenLength(rs, 4);
    Flatten(rs)
  }

  function DecodeInts(b: seq<byte>): (xs: seq<int>)
  {
    var rs := Chunks(b, 4);
    seq(|rs|, i requires 0 <= i < |rs| => BytesInt(rs[i]))
  }

  lemma IntsRoundTrip(xs: seq<int>)
    requires forall i :: 0 <= i < |xs| ==> IsInt32(xs[i])
    ensures DecodeInts(EncodeInts(xs)) == xs
  {
    var rs := seq(|xs|, i requires 0 <= i < |xs| => IntBytes(xs[i]));
    ChunksFlatten(rs, 4);
    forall i | 0 <= i < |xs| ensures BytesInt(rs[i]) == xs[i] {
      IntRoundTrip(xs[i]);
    }
  }

  /** What FileHeader::WriteBack puts into the header's sector. */
  function EncodeHeader(h: Header): Sector
    requires |h.dataSectors| == NUM_DIRECT
  {
    EncodeInts(HeaderInts(h))
  }

  /** What FileHeader::FetchFrom finds there. */
  function DecodeHeader(s: Sector): (h: Header)
    ensures |h.dataSectors| == NUM_DIRECT
  {
    var xs := DecodeInts(s);
    ChunksCount(s, 4, 32);
    Header(xs[0], xs[1], xs[2..])
  }

  lemma HeaderRoundTrip(h: Header)
    requires |h.dataSectors| == NUM_DIRECT
    requires forall i :: 0 <= i < |HeaderInts(h)| ==> IsInt32(HeaderInts(h)[i])
    ensures DecodeHeader(EncodeHeader(h)) == h
  {
    IntsRoundTrip(HeaderInts(h));
  }

  /** What ByteToSector computes: on every disk, the byte of the file at an offset is in that sector. */
  lemma SectorHasByte(h: Header, offset: int)
    requires h.WellFormed() && 0 <= offset < h.numBytes
    ensures 0 <= offset / SECTOR_SIZE < h.numSectors && h.dataSectors[offset / SECTOR_SIZE] in h.Data()
    ensures forall d :: |d| == NUM_SECTORS ==>
              FileBytes(d, h)[offset] == d[h.dataSectors[offset / SECTOR_SIZE]][offset % SECTOR_SIZE]
  {
    HeaderFits(h);
    assert h.dataSectors[..h.numSectors][offset / SECTOR_SIZE] == h.dataSectors[offset / SECTOR_SIZE];
  }

  class FileHeader {
    var numBytes: int
    var numSectors: int
    var dataSectors: seq<int>    // the direct table, always NUM_DIRECT entries

    ghost predicate Valid()
      reads this
    {
      |dataSectors| == NUM_DIRECT
    }

    ghost function View(): (h: Header)
      reads this
    {
      Header(numBytes, numSectors, dataSectors)
    }

    /** Every table entry fits an int, so that the header survives a trip through the disk. */
    ghost predicate Storable()
      reads this
    {
      forall i :: 0 <= i < |dataSectors| ==> IsInt32(dataSectors[i])
    }

    constructor ()
      ensures Valid() && Storable()
    {
      dataSectors := seq(NUM_DIRECT, _ => 0);
    }

    /** The loop of Allocate: one sector for each table entry in use. */
    method TakeSectors(freeMap: Bitmap)
      requires Valid() && Storable() && freeMap.Valid() && freeMap.numBits == NUM_SECTORS
      requires 0 <= numSectors <= NUM_DIRECT && numSectors <= |freeMap.free|
      modifies this`dataSectors, freeMap, freeMap.words
      ensures Valid() && Storable() && freeMap.Valid()
      ensures Distinct(dataSectors[..numSectors])
      ensures View().Data() <= old(freeMap.free) && freeMap.free == old(freeMap.free) - View().Data()
    {
      ghost var free0 := freeMap.free;
      for i := 0 to numSectors
        invariant Valid() && freeMap.Valid() && Storable()
        invariant Elems(dataSectors[..i]) <= free0 && Distinct(dataSectors[..i])
        invariant freeMap.free == free0 - Elems(dataSectors[..i])
        invariant |freeMap.free| >= numSectors - i
      {
        var s := freeMap.FindAndSet();
        assert s >= 0;                       // the code's ASSERT
        FillEntry(dataSectors, i, s);
        dataSectors := dataSectors[i := s];
      }
    }

    /** Takes the sectors for `fileSize` bytes out of the map, or, when fewer are free, nothing. */
    method Allocate(freeMap: Bitmap, fileSize: int) returns (ok: bool)
      requires Valid() && freeMap.Valid() && freeMap.numBits == NUM_SECTORS
      requires 0 <= fileSize <= MAX_FILE_SIZE && Storable()
      modifies this, freeMap, freeMap.words
      ensures Valid() && freeMap.Valid() && Storable()
      ensures ok <==> |old(freeMap.free)| >= DivRoundUp(fileSize, SECTOR_SIZE)
      ensures !ok ==> freeMap.free == old(freeMap.free)
      ensures ok ==>
                && View().WellFormed() && numBytes == fileSize
                && View().Data() <= old(freeMap.free)
                && freeMap.free == old(freeMap.free) - View().Data()
    {
      numBytes := fileSize;
      numSectors := DivRoundUp(fileSize, SECTOR_SIZE);
      var clear := freeMap.NumClear();
      if clear < numSectors {
        return false;
      }
      ghost var free0 := freeMap.free;
      TakeSectors(freeMap);
      AllocatedIsWellFormed(View(), free0);
      ok := true;
    }

    /** Gives the data sectors back; each is still marked when its turn comes. */
    method Deallocate(freeMap: Bitmap)
      requires freeMap.Valid() && freeMap.numBits == NUM_SECTORS
      requires View().WellFormed()
      requires forall i :: 0 <= i < numSectors ==> dataSectors[i] !in freeMap.free
      modifies freeMap, freeMap.words
      ensures freeMap.Valid()
      ensures freeMap.free == old(freeMap.free) + View().Data()
    {
      ghost var used := dataSectors[..numSectors];
      for i := 0 to numSectors
        invariant freeMap.Valid()
        invariant freeMap.free == old(freeMap.free) + Elems(used[..i])
        invariant forall k :: i <= k < numSectors ==> used[k] !in freeMap.free
      {
        var marked := freeMap.Test(dataSectors[i]);
        assert marked;                       // the code's ASSERT
        AppendDistinct(used[..i], used[i]);
        assert used[..i + 1] == used[..i] + [used[i]];
        freeMap.Clear(dataSectors[i]);
      }
      assert used[..numSectors] == used;
    }

    method FetchFrom(disk: SectorDisk, sector: int)
      requires disk.Valid() && 0 <= sector < NUM_SECTORS
      modifies this
      ensures Valid() && View() == DecodeHeader(disk.data[sector])
    {
      var bytes := disk.ReadSector(sector);
      var h := DecodeHeader(bytes);
      numBytes, numSectors, dataSectors := h.numBytes, h.numSectors, h.dataSectors;
    }

    method WriteBack(disk: SectorDisk, sector: int)
      requires Valid() && disk.Valid() && 0 <= sector < NUM_SECTORS
      requires IsInt32(numBytes) && IsInt32(numSectors) && Storable()
      modifies disk
      ensures disk.Valid() && DecodeHeader(disk.data[sector]) == View()
      ensures forall s :: 0 <= s < NUM_SECTORS && s != sector ==> disk.data[s] == old(disk.data[s])
    {
      HeaderRoundTrip(View());
      disk.WriteSector(sector, EncodeHeader(Header(numBytes, numSectors, dataSectors)));
    }

    method ByteToSector(offset: int) returns (sector: int)
      requires View().WellFormed() && 0 <= offset < numBytes
      ensures sector == dataSectors[offset / SECTOR_SIZE]
    {
      sector := dataSectors[offset / SECTOR_SIZE];
    }
  }
}
