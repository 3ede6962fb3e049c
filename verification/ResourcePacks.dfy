/** A resource pack under construction or loaded. */
module ResourcePacks {
  import opened Basics
  import opened Bytes
  import opened Sequences
  import opened PackFormat

  class ResourcePack {
    var mapFiles: Files
    var baseFile: Option<seq<Byte>>   // the contents of the open file
    var good: bool                    // no error is set on its stream

    constructor ()
      ensures mapFiles == map[] && baseFile == None
    {
      mapFiles, baseFile, good := map[], None, true;
    }

    /** A file of the disk is recorded under its path with forward slashes; its offset is not known yet. */
    method AddFile(disk: map<Path, seq<Byte>>, sFile: Path) returns (added: bool)
      modifies this`mapFiles
      ensures added <==> Posix(sFile) in disk
      ensures added ==> mapFiles == old(mapFiles)[Posix(sFile) := Entry(|disk[Posix(sFile)]| % TWO_32, 0)]
      ensures !added ==> mapFiles == old(mapFiles)
    {
      var file := MakePosix(sFile);
      added := file in disk;
      if added {
        mapFiles := mapFiles[file := Entry(|disk[file]| % TWO_32, 0)];
      }
    }

    /**
     `found` is the resource file, if it can be opened; its index must not lead outside itself.  On a
     pack that is open already `open` fails, nothing is read, and the index does (`NothingToRead`).
     */
    method LoadPack(found: Option<seq<Byte>>, key: seq<Byte>) returns (loaded: bool)
      requires baseFile.None?
      requires found.Some? ==> ReadPack(found.value, key, mapFiles).Some?
      modifies this
      ensures loaded == found.Some? && baseFile == found
      ensures loaded ==> Some(mapFiles) == ReadPack(found.value, key, old(mapFiles))
      ensures loaded ==> (good <==> IndexInside(found.value))
      ensures !loaded ==> mapFiles == old(mapFiles)
    {
      hide Scramble, ScrambledIndex, WordAt, ReadEntries, IndexInside;
      baseFile := found;
      if baseFile.None? {
        good := false;
        return false;
      }
      good := IndexInside(found.value);
      var decoded := ReadIndex(found.value, key);
      ReadMap(decoded);
      return true;
    }

    method ReadMap(decoded: seq<Byte>)
      requires |decoded| >= 4 && ReadEntries(decoded, 4, WordAt(decoded, 0), mapFiles).Some?
      modifies this`mapFiles
      ensures Some(mapFiles) == ReadEntries(decoded, 4, WordAt(decoded, 0), old(mapFiles))
    {
      hide WordAt, ReadEntries;
      ghost var result := ReadEntries(decoded, 4, WordAt(decoded, 0), mapFiles);
      var pos: nat, nMapEntries: nat := 4, WordAt(decoded, 0);
      for i := 0 to nMapEntries
        invariant result.Some? && ReadEntries(decoded, pos, nMapEntries - i, mapFiles) == result
      {
        var sFileName, e;
        EntriesNext(decoded, pos, nMapEntries - i, mapFiles);
        sFileName, e, pos := ReadEntry(decoded, pos);
        mapFiles := mapFiles[sFileName := e];
      }
      EntriesDone(decoded, pos, mapFiles);
    }

    /**
     The resource file, if it could be created.  The map is iterated in the same `order` each time.
     First a placeholder of the index is written, then the contents, then the index over the placeholder.
     */
    method SavePack(disk: map<Path, seq<Byte>>, order: seq<Path>, key: seq<Byte>, opens: bool)
      returns (file: Option<seq<Byte>>)
      requires Enumerates(order, mapFiles.Keys)
      modifies this`mapFiles
      ensures !opens ==> file == None && mapFiles == old(mapFiles)
      ensures opens ==> InMap(order, old(mapFiles))
      ensures opens ==> file == Some(PackFile(disk, order, old(mapFiles), key))
      ensures opens ==> mapFiles == Placed(order, |order|, old(mapFiles))
    {
      if !opens {
        return None;
      }
      ghost var files := mapFiles;
      assert InMap(order, files);
      hide Word, EntryBytes, Enumerates, Scramble, Index, Data, Placed;
      var placeholder := WriteIndex(order);
      var out := Word(0) + placeholder;
      IndexLength(order, files);
      var data := WriteContents(disk, order, |out|);
      out := out + data;
      var stream := WriteIndex(order);
      var sIndexString := ScrambleData(stream, key);
      IndexLength(order, mapFiles);
      OverwriteFront(Word(0), placeholder, data, Word(|sIndexString|), sIndexString);
      out := Overwritten(out, 0, Word(|sIndexString|));
      out := Overwritten(out, 4, sIndexString);
      return Some(out);
    }

    /** The contents of all files, each of which is given the offset at which it is written. */
    method WriteContents(disk: map<Path, seq<Byte>>, order: seq<Path>, start: nat) returns (data: seq<Byte>)
      requires InMap(order, mapFiles) && start == 4 + IndexSize(order)
      modifies this`mapFiles
      ensures data == Data(disk, order, |order|, old(mapFiles))
      ensures mapFiles == Placed(order, |order|, old(mapFiles))
    {
      hide Piece, IndexSize;
      ghost var files := mapFiles;
      data := [];
      var offset := start;
      for i := 0 to |order|
        invariant mapFiles == Placed(order, i, files)
        invariant data == Data(disk, order, i, files)
        invariant offset == Offset(order, i, files)
      {
        var e := mapFiles[order[i]];
        mapFiles := mapFiles[order[i] := e.(offset := offset % TWO_32)];
        var vBuffer := Piece(disk, order[i], e);
        SamePiece(disk, order[i], e, files[order[i]]);
        data := data + vBuffer;
        offset := offset + e.size;
      }
    }

    /** The index of the map as it is now. */
    method WriteIndex(order: seq<Path>) returns (stream: seq<Byte>)
      requires InMap(order, mapFiles)
      ensures stream == Index(order, mapFiles)
    {
      hide Word, EntryBytes;
      var entries := [];
      for i := 0 to |order|
        invariant entries == Entries(order, i, mapFiles)
      {
        entries := entries + EntryBytes(order[i], mapFiles[order[i]]);
      }
      return Word(|order|) + entries;
    }

    /**
     Asking for a file that is not in the map adds an empty one.  An error on the stream, which a
     region that is not all in the file leaves there, keeps all later buffers at zeros; as long as all
     regions of the map are in the file none arises.
     */
    method GetFileBuffer(sFile: Path) returns (buffer: seq<Byte>)
      modifies this`mapFiles, this`good
      ensures mapFiles == if sFile in old(mapFiles) then old(mapFiles) else old(mapFiles)[sFile := Entry(0, 0)]
      ensures buffer == Region(if old(good) && baseFile.Some? then baseFile.value else [], mapFiles[sFile])
      ensures good <==> old(good) && baseFile.Some? && RegionInside(baseFile.value, mapFiles[sFile])
      ensures old(good) && baseFile.Some? && AllInside(baseFile.value, old(mapFiles)) ==>
        good && AllInside(baseFile.value, mapFiles)
    {
      if sFile !in mapFiles {
        mapFiles := mapFiles[sFile := Entry(0, 0)];
      }
      buffer := Region(if good && baseFile.Some? then baseFile.value else [], mapFiles[sFile]);
      good := good && baseFile.Some? && RegionInside(baseFile.value, mapFiles[sFile]);
    }
  }

  lemma SamePiece(disk: map<Path, seq<Byte>>, path: Path, e: Entry, f: Entry)
    requires e.size == f.size
    ensures Piece(disk, path, e) == Piece(disk, path, f)
  {
  }

  /** The two writes at the beginning of the file replace the placeholder and nothing else. */
  lemma OverwriteFront(size0: seq<Byte>, index0: seq<Byte>, data: seq<Byte>, size: seq<Byte>, index: seq<Byte>)
    requires |size0| == |size| == 4 && |index0| == |index|
    ensures Overwritten(Overwritten(size0 + index0 + data, 0, size), 4, index) == size + index + data
  {
    assert [] + size0 + (index0 + data) == size0 + index0 + data;
    OverwriteInPlace([], size0, index0 + data, size);
    assert [] + size + (index0 + data) == size + index0 + data;
    OverwriteInPlace(size, index0, data, index);
  }

  method MakePosix(path: Path) returns (o: Path)
    ensures o == Posix(path)
  {
    o := [];
    for i := 0 to |path|
      invariant o == Posix(path)[..i]
    {
      o := o + [if path[i] == BACKSLASH then SLASH else path[i]];
    }
  }

  /** `scramble`. */
  method ScrambleData(data: seq<Byte>, key: seq<Byte>) returns (o: seq<Byte>)
    ensures o == Scramble(data, key)
  {
    if key == [] {
      return data;
    }
    hide XorByte;
    o := [];
    for c := 0 to |data|
      invariant o == Scramble(data, key)[..c]
    {
      o := o + [XorByte(data[c], key[c % |key|])];
    }
  }

  /** The index, read byte by byte and unscrambled. */
  method ReadIndex(file: seq<Byte>, key: seq<Byte>) returns (decoded: seq<Byte>)
    ensures decoded == Scramble(ScrambledIndex(file), key)
  {
    hide Scramble, FirstWord;
    var nIndexSize: nat := FirstWord(file);
    var buffer := [];
    for j := 0 to nIndexSize
      invariant buffer == ScrambledIndex(file)[..j]
    {
      buffer := buffer + [if 4 + j < |file| then file[4 + j] else 255];
    }
    assert ScrambledIndex(file)[..nIndexSize] == ScrambledIndex(file);
    decoded := ScrambleData(buffer, key);
  }

  lemma EntriesNext(s: seq<Byte>, pos: nat, n: nat, files: Files)
    requires n > 0 && ReadEntries(s, pos, n, files).Some?
    ensures pos + 4 <= |s| && pos + WordAt(s, pos) + 12 <= |s|
    ensures var end := pos + WordAt(s, pos) + 12;
      ReadEntries(s, pos, n, files) ==
      ReadEntries(s, end, n - 1, files[s[pos + 4..end - 8] := Entry(WordAt(s, end - 8), WordAt(s, end - 4))])
  {
    hide WordAt;
  }

  lemma EntriesDone(s: seq<Byte>, pos: nat, files: Files)
    ensures ReadEntries(s, pos, 0, files) == Some(files)
  {
  }

  /** One entry of the index, and where the next one begins. */
  method ReadEntry(decoded: seq<Byte>, pos: nat) returns (sFileName: Path, e: Entry, end: nat)
    requires pos + 4 <= |decoded| && pos + WordAt(decoded, pos) + 12 <= |decoded|
    ensures end == pos + WordAt(decoded, pos) + 12
    ensures sFileName == decoded[pos + 4..end - 8] && e == Entry(WordAt(decoded, end - 8), WordAt(decoded, end - 4))
  {
    hide WordAt;
    var nFilePathSize: nat := WordAt(decoded, pos);
    end := pos + 4;
    sFileName := ReadName(decoded, end, nFilePathSize);
    end := end + nFilePathSize;
    var nSize := WordAt(decoded, end);
    end := end + 4;
    var nOffset := WordAt(decoded, end);
    end := end + 4;
    e := Entry(nSize, nOffset);
  }

  method ReadName(decoded: seq<Byte>, pos: nat, size: nat) returns (sFileName: Path)
    requires pos + size <= |decoded|
    ensures sFileName == decoded[pos..pos + size]
  {
    sFileName := [];
    for j := 0 to size
      invariant sFileName == decoded[pos..pos + j]
    {
      sFileName := sFileName + [decoded[pos + j]];
    }
  }
}
