/** A resource pack that was saved is read back: the same map, and the contents of every file. */
module PackSafety {
  import opened Basics
  import opened Bytes
  import opened Sequences
  import opened PackFormat

  // ---- The index ----

  /** The part of the map that some paths have. */
  function Restrict(paths: seq<Path>, files: Files): Files
    requires InMap(paths, files)
  {
    map p | p in paths :: files[p]
  }

  lemma {:induction false} EntryAt(order: seq<Path>, n: nat, files: Files, k: nat)
    requires k < n <= |order| && InMap(order, files)
    ensures FoundAt(Entries(order, n, files), EntriesSize(order, k), EntryBytes(order[k], files[order[k]]))
  {
    EntriesLength(order, n - 1, files);
    hide EntryBytes, FoundAt;
    var last := EntryBytes(order[n - 1], files[order[n - 1]]);
    if k == n - 1 {
      FoundBehind(Entries(order, n - 1, files), last);
    } else {
      EntryAt(order, n - 1, files, k);
      FoundLonger(Entries(order, n - 1, files), EntriesSize(order, k), EntryBytes(order[k], files[order[k]]), last);
    }
  }

  lemma {:induction false} PathFits(order: seq<Path>, n: nat, k: nat)
    requires k < n <= |order|
    ensures |order[k]| <= EntriesSize(order, n)
  {
    if k < n - 1 {
      PathFits(order, n - 1, k);
    }
  }

  /** The fields of one entry. */
  lemma EntryFields(path: Path, e: Entry)
    ensures var b := EntryBytes(path, e);
      && FoundAt(b, 0, Word(|path|)) && FoundAt(b, 4, path)
      && FoundAt(b, 4 + |path|, Word(e.size)) && FoundAt(b, 8 + |path|, Word(e.offset))
  {
    var n, a, c, d := |path|, Word(|path|), Word(e.size), Word(e.offset);
    hide Word;
    var b := a + path + c + d;
    assert b[0..4] == a && b[4..4 + n] == path && b[4 + n..8 + n] == c && b[8 + n..12 + n] == d;
  }

  /** The same fields where the entry stands in a longer sequence. */
  lemma EntryFieldsAt(s: seq<Byte>, pos: nat, path: Path, e: Entry)
    requires |path| < TWO_32 && FoundAt(s, pos, EntryBytes(path, e))
    ensures pos + |path| + 12 <= |s|
    ensures WordAt(s, pos) == |path| && s[pos + 4..pos + 4 + |path|] == path
    ensures WordAt(s, pos + 4 + |path|) == e.size && WordAt(s, pos + 8 + |path|) == e.offset
  {
    var b, n := EntryBytes(path, e), |path|;
    EntryFields(path, e);
    hide EntryBytes, Word, FirstWord, WordAt;
    FoundInside(s, pos, b, 0, Word(n));
    FoundInside(s, pos, b, 4, path);
    FoundInside(s, pos, b, 4 + n, Word(e.size));
    FoundInside(s, pos, b, 8 + n, Word(e.offset));
    WordFound(s, pos, n);
    WordFound(s, pos + 4 + n, e.size);
    WordFound(s, pos + 8 + n, e.offset);
  }

  lemma RestrictNext(order: seq<Path>, files: Files, k: nat, read: Files)
    requires InMap(order, files) && k < |order|
    ensures read[order[k] := files[order[k]]] + Restrict(order[k + 1..], files) == read + Restrict(order[k..], files)
  {
    assert order[k..] == [order[k]] + order[k + 1..];
  }

  lemma RestrictAll(order: seq<Path>, files: Files)
    requires Enumerates(order, files.Keys)
    ensures InMap(order, files) && Restrict(order, files) == files
  {
  }

  /** Reading one entry. */
  lemma EntryReadBack(s: seq<Byte>, pos: nat, n: nat, path: Path, e: Entry, read: Files)
    requires |path| < TWO_32 && FoundAt(s, pos, EntryBytes(path, e)) && n > 0
    ensures ReadEntries(s, pos, n, read) == ReadEntries(s, pos + |path| + 12, n - 1, read[path := e])
  {
    EntryFieldsAt(s, pos, path, e);
    hide WordAt, EntryBytes, FoundAt;
    assert e == Entry(e.size, e.offset);
  }

  lemma EntryInIndex(order: seq<Path>, files: Files, k: nat)
    requires InMap(order, files) && k < |order|
    ensures FoundAt(Index(order, files), 4 + EntriesSize(order, k), EntryBytes(order[k], files[order[k]]))
  {
    EntryAt(order, |order|, files, k);
    hide Entries, EntriesSize, EntryBytes, Word, FoundAt;
    FoundShifted(Word(|order|), Entries(order, |order|, files), EntriesSize(order, k),
                 EntryBytes(order[k], files[order[k]]));
  }

  lemma NextEntry(order: seq<Path>, k: nat)
    requires k < |order|
    ensures EntriesSize(order, k + 1) == EntriesSize(order, k) + |order[k]| + 12
  {
  }

  lemma ReadNothing(s: seq<Byte>, pos: nat, read: Files, order: seq<Path>, files: Files)
    requires InMap(order, files)
    ensures ReadEntries(s, pos, 0, read) == Some(read + Restrict(order[|order|..], files))
  {
    assert read + Restrict(order[|order|..], files) == read;
  }

  /** Reading the entries from the k-th on. */
  lemma {:induction false} EntriesReadBack(order: seq<Path>, files: Files, k: nat, read: Files)
    requires InMap(order, files) && k <= |order| && IndexSize(order) < TWO_32
    ensures ReadEntries(Index(order, files), 4 + EntriesSize(order, k), |order| - k, read) ==
      Some(read + Restrict(order[k..], files))
    decreases |order| - k
  {
    hide Index, EntriesSize, EntryBytes, Restrict, FoundAt, ReadEntries;
    if k == |order| {
      ReadNothing(Index(order, files), 4 + EntriesSize(order, k), read, order, files);
    } else {
      var p := order[k];
      PathFits(order, |order|, k);
      NextEntry(order, k);
      EntryInIndex(order, files, k);
      EntryReadBack(Index(order, files), 4 + EntriesSize(order, k), |order| - k, p, files[p], read);
      EntriesReadBack(order, files, k + 1, read[p := files[p]]);
      RestrictNext(order, files, k, read);
    }
  }

  lemma {:induction false} CountFits(order: seq<Path>, n: nat)
    requires n <= |order|
    ensures n <= EntriesSize(order, n)
  {
    if n > 0 {
      CountFits(order, n - 1);
    }
  }

  lemma CountRead(order: seq<Path>, files: Files)
    requires InMap(order, files) && IndexSize(order) < TWO_32
    ensures |Index(order, files)| >= 4 && WordAt(Index(order, files), 0) == |order|
  {
    CountFits(order, |order|);
    hide Entries, Word, WordAt, EntriesSize;
    assert FoundAt(Index(order, files), 0, Word(|order|));
    WordFound(Index(order, files), 0, |order|);
  }

  lemma IndexReadBack(order: seq<Path>, files: Files, read: Files)
    requires Enumerates(order, files.Keys) && InMap(order, files) && IndexSize(order) < TWO_32
    ensures var s := Index(order, files); |s| >= 4 && ReadEntries(s, 4, WordAt(s, 0), read) == Some(read + files)
  {
    CountRead(order, files);
    RestrictAll(order, files);
    hide Entries, Word, ReadEntries, WordAt, Restrict, Index;
    EntriesReadBack(order, files, 0, read);
    assert order[0..] == order;
  }

  // ---- The whole file ----

  lemma PackParts(disk: map<Path, seq<Byte>>, order: seq<Path>, files: Files, key: seq<Byte>)
    requires InMap(order, files)
    ensures var file := PackFile(disk, order, files, key);
      var index := Scramble(Index(order, Placed(order, |order|, files)), key);
      && |file| == PackSize(order, files) && |index| == IndexSize(order)
      && FoundAt(file, 0, Word(IndexSize(order))) && FoundAt(file, 4, index)
      && FoundAt(file, 4 + IndexSize(order), Data(disk, order, |order|, files))
  {
    var placed := Placed(order, |order|, files);
    IndexLength(order, placed);
    DataLength(disk, order, |order|, files);
    hide Word, Index, Scramble, Data, Placed;
    var a, b, d := Word(IndexSize(order)), Scramble(Index(order, placed), key), Data(disk, order, |order|, files);
    FoundBehind([], a);
    assert [] + a == a;
    FoundBehind(a, b);
    FoundBehind(a + b, d);
    hide FoundAt;
    FoundLonger(a, 0, a, b);
    FoundLonger(a + b, 0, a, d);
    FoundLonger(a + b, 4, b, d);
  }

  /** The scrambled index is found where it was written. */
  lemma IndexFound(file: seq<Byte>, index: seq<Byte>)
    requires FoundAt(file, 0, Word(|index|)) && FoundAt(file, 4, index) && |index| < TWO_32
    ensures ScrambledIndex(file) == index
  {
    WordRead(|index|);
    assert file[..4] == Word(|index|) == Word(|index|)[..4];
    hide Word, FromBytes;
    assert file[4..4 + |index|] == index;
  }

  /** Reading a saved resource pack with the same key adds the saved map, offsets included. */
  lemma PackReadBack(disk: map<Path, seq<Byte>>, order: seq<Path>, files: Files, key: seq<Byte>, read: Files)
    requires Enumerates(order, files.Keys) && InMap(order, files) && IndexSize(order) < TWO_32
    ensures ReadPack(PackFile(disk, order, files, key), key, read) == Some(read + Placed(order, |order|, files))
  {
    var placed := Placed(order, |order|, files);
    PackParts(disk, order, files, key);
    hide PackFile, Index, Scramble, Placed, ReadEntries, FoundAt, Word, IndexSize, ScrambledIndex;
    IndexFound(PackFile(disk, order, files, key), Scramble(Index(order, placed), key));
    ScrambleTwice(Index(order, placed), key);
    IndexReadBack(order, placed, read);
  }

  /** On a fresh one it reconstructs the map. */
  lemma SaveThenLoad(disk: map<Path, seq<Byte>>, order: seq<Path>, files: Files, key: seq<Byte>)
    requires Enumerates(order, files.Keys) && InMap(order, files) && IndexSize(order) < TWO_32
    ensures ReadPack(PackFile(disk, order, files, key), key, map[]) == Some(Placed(order, |order|, files))
  {
    PackReadBack(disk, order, files, key, map[]);
    hide PackFile, Placed, ReadPack;
    assert map[] + Placed(order, |order|, files) == Placed(order, |order|, files);
  }

  // ---- The contents ----

  lemma {:induction false} DataAt(disk: map<Path, seq<Byte>>, order: seq<Path>, n: nat, files: Files, k: nat)
    requires k < n <= |order| && InMap(order, files)
    ensures FoundAt(Data(disk, order, n, files), DataSize(order, k, files), Piece(disk, order[k], files[order[k]]))
  {
    hide Piece, FoundAt;
    DataLength(disk, order, n - 1, files);
    var last := Piece(disk, order[n - 1], files[order[n - 1]]);
    if k == n - 1 {
      FoundBehind(Data(disk, order, n - 1, files), last);
    } else {
      DataAt(disk, order, n - 1, files, k);
      FoundLonger(Data(disk, order, n - 1, files), DataSize(order, k, files),
                  Piece(disk, order[k], files[order[k]]), last);
    }
  }

  lemma {:induction false} DataSizeGrows(order: seq<Path>, n: nat, files: Files, k: nat)
    requires k < n <= |order| && InMap(order, files)
    ensures DataSize(order, k, files) + files[order[k]].size <= DataSize(order, n, files)
  {
    if k < n - 1 {
      DataSizeGrows(order, n - 1, files, k);
    }
  }

  /** Each file gets the offset at which its bytes are written. */
  lemma {:induction false} PlacedAt(order: seq<Path>, n: nat, files: Files, k: nat)
    requires k < n <= |order| && InMap(order, files) && NoDuplicates(order)
    ensures Placed(order, n, files)[order[k]].offset == Offset(order, k, files) % TWO_32
  {
    hide Offset;
    if k < n - 1 {
      PlacedAt(order, n - 1, files, k);
    }
  }

  lemma SmallRemainder(n: nat)
    requires n < TWO_32
    ensures n % TWO_32 == n
  {
  }

  /** The offset that is kept is where the file begins exactly if that is less than 4 GiB into the pack. */
  lemma OffsetExactly(order: seq<Path>, files: Files, k: nat)
    requires InMap(order, files) && NoDuplicates(order) && k < |order|
    ensures Placed(order, |order|, files)[order[k]].offset == Offset(order, k, files) <==>
      Offset(order, k, files) < TWO_32
  {
    hide Placed, Offset;
    PlacedAt(order, |order|, files, k);
    if Offset(order, k, files) < TWO_32 {
      SmallRemainder(Offset(order, k, files));
    }
  }

  /** The region of each file that begins in the first 4 GiB holds what the file held when it was saved. */
  lemma RegionHoldsFile(disk: map<Path, seq<Byte>>, order: seq<Path>, files: Files, key: seq<Byte>, k: nat)
    requires Enumerates(order, files.Keys) && InMap(order, files) && k < |order|
    requires files[order[k]].size == 0 || Offset(order, k, files) < TWO_32
    ensures var p := order[k];
      Region(PackFile(disk, order, files, key), Placed(order, |order|, files)[p]) == Piece(disk, p, files[p])
  {
    var p := order[k];
    if files[p].size > 0 {
      hide PackFile, Placed, Data, DataSize, IndexSize, FoundAt, Piece, Region;
      OffsetExactly(order, files, k);
      ContentsFound(disk, order, files, key, k);
      RegionFound(PackFile(disk, order, files, key), Placed(order, |order|, files)[p], Piece(disk, p, files[p]));
    } else {
      RegionEmpty(PackFile(disk, order, files, key), Placed(order, |order|, files)[p], Contents(disk, p));
    }
  }

  lemma DataFound(disk: map<Path, seq<Byte>>, order: seq<Path>, files: Files, key: seq<Byte>)
    requires InMap(order, files)
    ensures FoundAt(PackFile(disk, order, files, key), 4 + IndexSize(order), Data(disk, order, |order|, files))
  {
    PackParts(disk, order, files, key);
    hide PackFile, Data, IndexSize, FoundAt;
  }

  /** The contents of each file stand in the file where its region begins. */
  lemma ContentsFound(disk: map<Path, seq<Byte>>, order: seq<Path>, files: Files, key: seq<Byte>, k: nat)
    requires InMap(order, files) && k < |order|
    ensures FoundAt(PackFile(disk, order, files, key), Offset(order, k, files), Piece(disk, order[k], files[order[k]]))
  {
    hide PackFile, Data, DataSize, IndexSize, FoundAt, Piece;
    DataFound(disk, order, files, key);
    DataAt(disk, order, |order|, files, k);
    FoundInside(PackFile(disk, order, files, key), 4 + IndexSize(order), Data(disk, order, |order|, files),
                DataSize(order, k, files), Piece(disk, order[k], files[order[k]]));
  }

  lemma RegionFound(file: seq<Byte>, e: Entry, bytes: seq<Byte>)
    requires FoundAt(file, e.offset, bytes) && |bytes| == e.size
    ensures Region(file, e) == bytes
  {
    assert file[e.offset..][..e.size] == file[e.offset..e.offset + e.size];
  }

  lemma RegionEmpty(file: seq<Byte>, e: Entry, contents: seq<Byte>)
    requires e.size == 0
    ensures Region(file, e) == Padded(contents, 0)
  {
  }

  /** The regions follow one another without gap or overlap, from the index to the end of the file. */
  lemma RegionsTile(disk: map<Path, seq<Byte>>, order: seq<Path>, files: Files, key: seq<Byte>, k: nat)
    requires InMap(order, files) && k < |order|
    ensures Offset(order, 0, files) == 4 + IndexSize(order)
    ensures Offset(order, k + 1, files) == Offset(order, k, files) + files[order[k]].size
    ensures Offset(order, |order|, files) == |PackFile(disk, order, files, key)|
  {
    PackParts(disk, order, files, key);
    hide PackFile;
  }

  /** Regions of different files do not overlap. */
  lemma RegionsDisjoint(order: seq<Path>, files: Files, i: nat, j: nat)
    requires InMap(order, files) && i < j < |order|
    ensures Offset(order, i, files) + files[order[i]].size <= Offset(order, j, files)
  {
    DataSizeGrows(order, j, files, i);
  }

  /** A file packed whole within the first 4 GiB comes back: the loaded map leads to its original bytes. */
  lemma SavedFileComesBack(disk: map<Path, seq<Byte>>, order: seq<Path>, files: Files, key: seq<Byte>, k: nat)
    requires Enumerates(order, files.Keys) && InMap(order, files) && IndexSize(order) < TWO_32 && k < |order|
    requires files[order[k]].size == 0 || Offset(order, k, files) < TWO_32
    requires order[k] in disk && files[order[k]].size == |disk[order[k]]|
    ensures var p, file := order[k], PackFile(disk, order, files, key);
      var loaded := ReadPack(file, key, map[]);
      loaded.Some? && p in loaded.value && Region(file, loaded.value[p]) == disk[p]
  {
    var p := order[k];
    SaveThenLoad(disk, order, files, key);
    RegionHoldsFile(disk, order, files, key, k);
    assert Piece(disk, p, files[p]) == disk[p];
    hide PackFile, ReadPack, Placed, Region, IndexSize, Offset;
  }

  /**
   Loading a saved pack leaves no error on the stream, and neither does asking for any of its files,
   however large the pack is: all regions lie in the file.
   */
  lemma SavedPackStaysGood(disk: map<Path, seq<Byte>>, order: seq<Path>, files: Files, key: seq<Byte>)
    requires Enumerates(order, files.Keys) && InMap(order, files) && IndexSize(order) < TWO_32
    ensures var file := PackFile(disk, order, files, key); var loaded := ReadPack(file, key, map[]);
      IndexInside(file) && loaded.Some? && AllInside(file, loaded.value)
  {
    var file, placed := PackFile(disk, order, files, key), Placed(order, |order|, files);
    SaveThenLoad(disk, order, files, key);
    PackParts(disk, order, files, key);
    SavedIndexInside(file, IndexSize(order));
    hide PackFile, ReadPack, Placed, Offset, IndexInside;
    forall p | p in placed ensures RegionInside(file, placed[p]) {
      assert p in order;
      var k :| 0 <= k < |order| && order[k] == p;
      PlacedAt(order, |order|, files, k);
      OffsetInFile(order, files, k);
    }
  }

  lemma SavedIndexInside(file: seq<Byte>, size: nat)
    requires FoundAt(file, 0, Word(size)) && size < TWO_32 && 4 + size <= |file|
    ensures IndexInside(file)
  {
    WordFound(file, 0, size);
    assert file[0..4][..4] == file[..4];
    hide Word, FromBytes;
  }

  lemma OffsetInFile(order: seq<Path>, files: Files, k: nat)
    requires InMap(order, files) && k < |order|
    ensures Offset(order, k, files) + files[order[k]].size <= PackSize(order, files)
    ensures Offset(order, k, files) % TWO_32 <= Offset(order, k, files)
  {
    DataSizeGrows(order, |order|, files, k);
    hide DataSize, IndexSize;
  }
}
