/** A bit map that is stored in a file (filesys/pbitmap.cc): the packed words, byte for byte. */
module PersistentBitmaps {
  import opened Words
  import opened Bytes
  import opened Sequences
  import opened Bitmaps
  import opened FileHeaders
  import opened OpenFiles

  function EncodeWords(ws: seq<word>): (b: seq<byte>)
    ensures |b| == 4 * |ws|
  {
    var rs := seq(|ws|, i requires 0 <= i < |ws| => IntBytes(ws[i]));
    FlattenLength(rs, 4);
    Flatten(rs)
  }

  function DecodeWords(b: seq<byte>): (ws: seq<word>)
    ensures 4 * |ws| <= |b| < 4 * |ws| + 4
  {
    var rs := Chunks(b, 4);
    ChunksPrefix(b, 4);
    seq(|rs|, i requires 0 <= i < |rs| => BytesNat(rs[i]))
  }

  lemma {:induction false} ChunksPrefix(b: seq<byte>, width: nat)
    requires width > 0
    ensures |Chunks(b, width)| * width <= |b| < |Chunks(b, width)| * width + width
    decreases |b|
  {
    if |b| >= width { ChunksPrefix(b[width..], width); }
  }

  lemma WordRoundTrip(w: word, b: seq<byte>)
    requires b == IntBytes(w)
    ensures BytesNat(b) == w
  {
    IntBytesModulo(w);
  }

  lemma WordsRoundTrip(ws: seq<word>)
    ensures DecodeWords(EncodeWords(ws)) == ws
  {
    var rs := seq(|ws|, i requires 0 <= i < |ws| => IntBytes(ws[i]));
    ChunksFlatten(rs, 4);
    forall i | 0 <= i < |ws| ensures BytesNat(rs[i]) == ws[i] {
      WordRoundTrip(ws[i], rs[i]);
    }
  }

  /** What a stored map says is free. */
  ghost function StoredFree(b: seq<byte>): set<int>
  {
    var ws := DecodeWords(b);
    FreeOf(ws, 32 * |ws|)
  }

  /** The file has exactly the length of the map, and the map no unused bits. */
  ghost predicate Fits(map_: Bitmap, file: OpenFile)
    reads file, file.hdr
  {
    map_.numBits == 32 * map_.words.Length && file.hdr.numBytes == 4 * map_.words.Length
  }

  /** The words are overwritten by the bytes of the file, as far as either goes. */
  method FetchFrom(map_: Bitmap, file: OpenFile)
    requires map_.Valid() && file.Valid()
    modifies map_, map_.words
    ensures map_.Valid() && map_.words[..] == DecodeWords(Overlay(EncodeWords(old(map_.words[..])), file.Contents()))
    ensures map_.free == FreeOf(map_.words[..], map_.numBits)
    ensures Fits(map_, file) ==> map_.free == StoredFree(file.Contents())
  {
    hide FreeOf, Flag;
    var bytes := EncodeWords(map_.words[..]);
    var n := 4 * map_.words.Length;
    var buf := new byte[n](i requires 0 <= i < |bytes| => bytes[i]);
    assert buf[..] == bytes;
    var _ := file.ReadAt(buf, 0, n, 0);
    assert buf[..] == Overlay(bytes, file.Contents());
    SetWords(map_, DecodeWords(buf[..]));
  }

  method SetWords(map_: Bitmap, ws: seq<word>)
    requires map_.Valid() && |ws| == map_.words.Length
    modifies map_, map_.words
    ensures map_.Valid() && map_.words[..] == ws && map_.free == FreeOf(ws, map_.numBits)
  {
    forall i | 0 <= i < map_.words.Length {
      map_.words[i] := ws[i];
    }
    assert map_.words[..] == ws;
    map_.free := FreeOf(ws, map_.numBits);
  }

  /** The file is overwritten by the bytes of the words, as far as either goes. */
  method WriteBack(map_: Bitmap, file: OpenFile)
    requires map_.Valid() && file.Valid()
    modifies file.disk
    ensures map_.Valid() && file.Valid()
    ensures file.Contents() == Overlay(old(file.Contents()), EncodeWords(map_.words[..]))
    ensures Fits(map_, file) ==> StoredFree(file.Contents()) == map_.free
    ensures forall s :: 0 <= s < NUM_SECTORS && s !in file.hdr.View().Data() ==> file.disk.data[s] == old(file.disk.data[s])
  {
    var bytes := EncodeWords(map_.words[..]);
    WordsRoundTrip(map_.words[..]);
    map_.FreeIsPacked();
    hide Flag, FreeOf, EncodeWords, Overlay, Splice;
    var _ := file.WriteAt(bytes, |bytes|, 0);
    WrittenFromStart(old(file.Contents()), file.Contents(), bytes);
  }
}
