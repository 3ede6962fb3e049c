/** The resource pack's file format: a scrambled index, then the contents of the files. */
module PackFormat {
  import opened Basics
  import opened Bytes
  import opened Sequences
  import opened Patterns

  type Path = seq<Byte>

  datatype Entry = Entry(size: Uint32, offset: Uint32)

  type Files = map<Path, Entry>

  // ---- Scrambling ----

  /** The exclusive or of the `n` low bits of two numbers. */
  function Xor(a: nat, b: nat, n: nat): nat {
    if n == 0 then 0 else (a + b) % 2 + 2 * Xor(a / 2, b / 2, n - 1)
  }

  lemma {:induction false} XorBounded(a: nat, b: nat, n: nat)
    ensures Xor(a, b, n) < PowerOfTwo(n)
  {
    if n > 0 {
      XorBounded(a / 2, b / 2, n - 1);
    }
  }

  lemma LowestBit(a: nat, b: nat, rest: nat)
    ensures var x := (a + b) % 2 + 2 * rest; x / 2 == rest && (x + b) % 2 == a % 2
  {
  }

  lemma {:induction false} XorTwice(a: nat, b: nat, n: nat)
    requires a < PowerOfTwo(n)
    ensures Xor(Xor(a, b, n), b, n) == a
  {
    if n > 0 {
      XorTwice(a / 2, b / 2, n - 1);
      LowestBit(a, b, Xor(a / 2, b / 2, n - 1));
    }
  }

  /** Bit `b` of an exclusive or is set exactly if that bit of one number is and that of the other is not. */
  lemma {:induction false} XorBits(a: nat, b: nat, n: nat, i: nat)
    requires i < n
    ensures Bit(Xor(a, b, n), i) <==> Bit(a, i) != Bit(b, i)
  {
    LowestBit(a, b, Xor(a / 2, b / 2, n - 1));
    OddSum(a, b);
    if i > 0 {
      XorBits(a / 2, b / 2, n - 1, i - 1);
    }
    var rest := Xor(a / 2, b / 2, n - 1);
    assert ((a + b) % 2 + 2 * rest) % 2 == (a + b) % 2;
  }

  lemma OddSum(a: nat, b: nat)
    ensures (a + b) % 2 == 1 <==> (a % 2 == 1) != (b % 2 == 1)
  {
  }

  lemma PowerIs256()
    ensures PowerOfTwo(8) == 256
  {
    assert PowerOfTwo(4) == 16;
  }

  function XorByte(a: Byte, b: Byte): Byte {
    XorBounded(a, b, 8);
    PowerIs256();
    Xor(a, b, 8)
  }

  lemma XorByteTwice(a: Byte, b: Byte)
    ensures XorByte(XorByte(a, b), b) == a
  {
    PowerIs256();
    XorTwice(a, b, 8);
  }

  /** `scramble`: the key is repeated over the data; an empty key does nothing. */
  function Scramble(data: seq<Byte>, key: seq<Byte>): (r: seq<Byte>)
    ensures |r| == |data| && (key == [] ==> r == data)
  {
    if key == [] then data
    else seq(|data|, i requires 0 <= i < |data| => XorByte(data[i], key[i % |key|]))
  }

  /** Each bit of each byte is flipped exactly if it is set in the byte of the key that falls on it. */
  lemma ScrambledBits(data: seq<Byte>, key: seq<Byte>, i: nat, b: nat)
    requires key != [] && i < |data| && b < 8
    ensures Bit(Scramble(data, key)[i], b) <==> Bit(data[i], b) != Bit(key[i % |key|], b)
  {
    XorBits(data[i], key[i % |key|], 8, b);
    hide Xor, Bit;
  }

  /** Scrambling again with the same key restores the data. */
  lemma ScrambleTwice(data: seq<Byte>, key: seq<Byte>)
    ensures Scramble(Scramble(data, key), key) == data
  {
    if key != [] {
      var s := Scramble(data, key);
      forall i | 0 <= i < |data| ensures Scramble(s, key)[i] == data[i] {
        XorByteTwice(data[i], key[i % |key|]);
      }
    }
    hide XorByte;
  }

  // ---- Writing ----

  /** Four bytes of an integer, the low ones first; higher ones are lost. */
  function Word(x: nat): (s: seq<Byte>)
    ensures |s| == 4
    ensures s == [x % 256, x / 0x100 % 256, x / 0x1_0000 % 256, x / 0x100_0000 % 256]
  {
    FourBytes(x);
    ToBytes(x, 4)
  }

  function EntryBytes(path: Path, e: Entry): (s: seq<Byte>)
    ensures |s| == |path| + 12
  {
    Word(|path|) + path + Word(e.size) + Word(e.offset)
  }

  ghost predicate InMap(order: seq<Path>, files: Files) {
    forall p :: p in order ==> p in files
  }

  /** The first `n` entries in the order in which the map is iterated. */
  function Entries(order: seq<Path>, n: nat, files: Files): seq<Byte>
    requires n <= |order| && InMap(order, files)
  {
    if n == 0 then [] else Entries(order, n - 1, files) + EntryBytes(order[n - 1], files[order[n - 1]])
  }

  function Index(order: seq<Path>, files: Files): seq<Byte>
    requires InMap(order, files)
  {
    Word(|order|) + Entries(order, |order|, files)
  }

  function EntriesSize(order: seq<Path>, n: nat): nat
    requires n <= |order|
  {
    if n == 0 then 0 else EntriesSize(order, n - 1) + |order[n - 1]| + 12
  }

  function IndexSize(order: seq<Path>): nat {
    4 + EntriesSize(order, |order|)
  }

  lemma {:induction false} EntriesLength(order: seq<Path>, n: nat, files: Files)
    requires n <= |order| && InMap(order, files)
    ensures |Entries(order, n, files)| == EntriesSize(order, n)
  {
    hide Word, EntryBytes;
    if n > 0 {
      EntriesLength(order, n - 1, files);
    }
  }

  /** The index is as long whatever sizes and offsets it holds. */
  lemma IndexLength(order: seq<Path>, files: Files)
    requires InMap(order, files)
    ensures |Index(order, files)| == IndexSize(order)
  {
    EntriesLength(order, |order|, files);
  }

  /** `n` bytes read into a zeroed buffer: what the file has of them. */
  function Padded(contents: seq<Byte>, n: nat): (s: seq<Byte>)
    ensures |s| == n
    ensures forall i :: 0 <= i < n ==> s[i] == if i < |contents| then contents[i] else 0
  {
    if n <= |contents| then contents[..n] else contents + seq(n - |contents|, _ => 0)
  }

  /** What a file contributes: as many bytes as its entry says. */
  function Piece(disk: map<Path, seq<Byte>>, path: Path, e: Entry): (s: seq<Byte>)
    ensures |s| == e.size
  {
    Padded(Contents(disk, path), e.size)
  }

  /** A file that cannot be opened reads as nothing. */
  function Contents(disk: map<Path, seq<Byte>>, path: Path): seq<Byte> {
    if path in disk then disk[path] else []
  }

  function Data(disk: map<Path, seq<Byte>>, order: seq<Path>, n: nat, files: Files): seq<Byte>
    requires n <= |order| && InMap(order, files)
  {
    if n == 0 then []
    else Data(disk, order, n - 1, files) + Piece(disk, order[n - 1], files[order[n - 1]])
  }

  function DataSize(order: seq<Path>, n: nat, files: Files): nat
    requires n <= |order| && InMap(order, files)
  {
    if n == 0 then 0 else DataSize(order, n - 1, files) + files[order[n - 1]].size
  }

  lemma {:induction false} DataLength(disk: map<Path, seq<Byte>>, order: seq<Path>, n: nat, files: Files)
    requires n <= |order| && InMap(order, files)
    ensures |Data(disk, order, n, files)| == DataSize(order, n, files)
  {
    if n > 0 {
      DataLength(disk, order, n - 1, files);
    }
  }

  /** Where the contents of the n-th file begin. */
  function Offset(order: seq<Path>, n: nat, files: Files): nat
    requires n <= |order| && InMap(order, files)
  {
    4 + IndexSize(order) + DataSize(order, n, files)
  }

  /** The map once the first `n` files have been given their offsets. */
  function Placed(order: seq<Path>, n: nat, files: Files): (r: Files)
    requires n <= |order| && InMap(order, files)
    ensures r.Keys == files.Keys
    ensures forall p :: p in files ==> r[p].size == files[p].size
  {
    if n == 0 then files
    else
      var r, p := Placed(order, n - 1, files), order[n - 1];
      r[p := r[p].(offset := Offset(order, n - 1, files) % TWO_32)]
  }

  function PackFile(disk: map<Path, seq<Byte>>, order: seq<Path>, files: Files, key: seq<Byte>): seq<Byte>
    requires InMap(order, files)
  {
    var placed := Placed(order, |order|, files);
    Word(IndexSize(order)) + Scramble(Index(order, placed), key) + Data(disk, order, |order|, files)
  }

  function PackSize(order: seq<Path>, files: Files): nat
    requires InMap(order, files)
  {
    Offset(order, |order|, files)
  }

  // ---- Reading ----

  /** The integer in the first four bytes read into a zeroed variable. */
  function FirstWord(s: seq<Byte>): Uint32 {
    WordFits(if |s| >= 4 then s[..4] else s);
    FromBytes(if |s| >= 4 then s[..4] else s)
  }

  lemma WordFits(s: seq<Byte>)
    requires |s| <= 4
    ensures FromBytes(s) < TWO_32
  {
    var t := s + seq(4 - |s|, _ => 0);
    FromBytesPadded(s, 4 - |s|);
    RoundTripBack(t);
    Fits32(FromBytes(t));
  }

  lemma {:induction false} FromBytesPadded(s: seq<Byte>, n: nat)
    ensures FromBytes(s + seq(n, _ => 0)) == FromBytes(s)
  {
    var t := s + seq(n, _ => 0);
    if s == [] {
      if n > 0 {
        assert t[1..] == [] + seq(n - 1, _ => 0);
        FromBytesPadded([], n - 1);
      } else {
        assert t == [];
      }
    } else {
      assert t[1..] == s[1..] + seq(n, _ => 0);
      FromBytesPadded(s[1..], n);
    }
  }

  function WordAt(s: seq<Byte>, pos: nat): Uint32
    requires pos + 4 <= |s|
  {
    FirstWord(s[pos..pos + 4])
  }

  lemma WordRead(x: nat)
    requires x < TWO_32
    ensures FirstWord(Word(x)) == x
  {
    Fits32(x);
    RoundTrip(x, 4);
    assert Word(x)[..4] == Word(x);
    hide ToBytes, FromBytes;
  }

  lemma WordFound(s: seq<Byte>, pos: nat, x: nat)
    requires FoundAt(s, pos, Word(x)) && x < TWO_32
    ensures pos + 4 <= |s| && WordAt(s, pos) == x
  {
    WordRead(x);
    hide Word, FirstWord;
  }

  /** The entries of a decoded index from `pos` on; none if they reach beyond its end. */
  function ReadEntries(s: seq<Byte>, pos: nat, n: nat, files: Files): Option<Files>
    decreases n
  {
    if n == 0 then Some(files)
    else if pos + 4 > |s| then None
    else
      var end := pos + 4 + WordAt(s, pos);
      if end + 8 > |s| then None
      else ReadEntries(s, end + 8, n - 1, files[s[pos + 4..end] := Entry(WordAt(s, end), WordAt(s, end + 4))])
  }

  /** The scrambled index as it is read; bytes beyond the end of the file read as 255. */
  function ScrambledIndex(file: seq<Byte>): (s: seq<Byte>)
    ensures |s| == FirstWord(file)
    ensures forall j :: 0 <= j < |s| ==> s[j] == if 4 + j < |file| then file[4 + j] else 255
  {
    seq(FirstWord(file), j requires 0 <= j => if 4 + j < |file| then file[4 + j] else 255)
  }

  /** What `LoadPack` makes of a file; none if it would read outside the index. */
  function ReadPack(file: seq<Byte>, key: seq<Byte>, files: Files): Option<Files> {
    var decoded := Scramble(ScrambledIndex(file), key);
    if |decoded| < 4 then None else ReadEntries(decoded, 4, WordAt(decoded, 0), files)
  }

  /** Whether a file is as long as its index claims: then reading the index leaves no error on the stream. */
  predicate IndexInside(file: seq<Byte>) {
    |file| >= 4 && 4 + FirstWord(file) <= |file|
  }

  /** On a stream that fails at once nothing is read, and the empty index is read beyond its end. */
  lemma NothingToRead(key: seq<Byte>, files: Files)
    ensures ReadPack([], key, files) == None
  {
    assert FirstWord([]) == 0;
  }

  /** Whether reading a file's region leaves no error on the stream. */
  predicate RegionInside(file: seq<Byte>, e: Entry) {
    e.size == 0 || e.offset + e.size <= |file|
  }

  ghost predicate AllInside(file: seq<Byte>, files: Files) {
    forall p :: p in files ==> RegionInside(file, files[p])
  }

  /** `ResourceBuffer`: the bytes of a file's region. */
  function Region(file: seq<Byte>, e: Entry): (s: seq<Byte>)
    ensures |s| == e.size
  {
    Padded(if e.offset <= |file| then file[e.offset..] else [], e.size)
  }

  /** Writing at `pos` in a file that is at least so long. */
  function Overwritten(file: seq<Byte>, pos: nat, bytes: seq<Byte>): (r: seq<Byte>)
    requires pos <= |file|
  {
    file[..pos] + bytes + if pos + |bytes| <= |file| then file[pos + |bytes|..] else []
  }

  /** Bytes written over as many others leave what follows them alone. */
  lemma OverwriteInPlace(front: seq<Byte>, was: seq<Byte>, rest: seq<Byte>, bytes: seq<Byte>)
    requires |was| == |bytes|
    ensures Overwritten(front + was + rest, |front|, bytes) == front + bytes + rest
  {
    var file := front + was + rest;
    assert file[..|front|] == front;
    assert file[|front| + |bytes|..] == rest;
  }

  const SLASH := '/' as int
  const BACKSLASH := '\\' as int

  /** `makeposix`. */
  function Posix(path: Path): (r: Path)
    ensures |r| == |path| && BACKSLASH !in r
    ensures forall i :: 0 <= i < |r| && path[i] != BACKSLASH ==> r[i] == path[i]
    ensures forall i :: 0 <= i < |r| && path[i] == BACKSLASH ==> r[i] == SLASH
  {
    seq(|path|, i requires 0 <= i < |path| => if path[i] == BACKSLASH then SLASH else path[i])
  }
}
