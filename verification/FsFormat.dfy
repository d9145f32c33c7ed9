/** fs/fsformat.c: building a disk image from a list of files. */
module FsFormat {
  import opened Wrappers
  import opened FsImage

  const MAX_DIR_ENTS: nat := 128

  /** Directories: 0 is the root, and 1, 2 and 3 are bin, sbin and vmm. */
  const DIRS: nat := 4

  /** A command-line argument: a switch to a directory, or an input file of the given size. */
  datatype Arg = Switch(dir: nat) | Input(size: nat)

  ghost predicate ArgsOk(args: seq<Arg>) { forall a :: 0 <= a < |args| && args[a].Switch? ==> 0 < args[a].dir < DIRS }

  /** The directory that argument j goes to. */
  function DirAt(args: seq<Arg>, j: nat): nat
    requires j <= |args|
  {
    if j == 0 then 0 else if args[j - 1].Switch? then args[j - 1].dir else DirAt(args, j - 1)
  }

  /** What that is: the directory of the last switch before j, and the root if there is none. */
  lemma {:induction false} DirAtIs(args: seq<Arg>, j: nat, k: nat)
    requires j <= |args|
    ensures (forall i :: 0 <= i < j ==> args[i].Input?) ==> DirAt(args, j) == 0
    ensures k < j && args[k].Switch? && (forall i :: k < i < j ==> args[i].Input?) ==> DirAt(args, j) == args[k].dir
    decreases j
  {
    if j > 0 && args[j - 1].Input? { DirAtIs(args, j - 1, k); }
  }

  /** The inputs among the first j arguments that go to directory d. */
  function InputsOf(args: seq<Arg>, j: nat, d: nat): seq<nat>
    requires j <= |args|
  {
    if j == 0 then []
    else InputsOf(args, j - 1, d) + if args[j - 1].Input? && DirAt(args, j - 1) == d then [j - 1] else []
  }

  /** Blocks for a file: its data, and an indirect block from ten blocks on. */
  function Need(size: nat): nat { Ceil(size) + if Ceil(size) >= NDIRECT then 1 else 0 }

  function Total(args: seq<Arg>, j: nat): nat
    requires j <= |args|
  {
    if j == 0 then 0 else Total(args, j - 1) + if args[j - 1].Input? then Need(args[j - 1].size) else 0
  }

  /** Blocks for the records of n files. */
  function DirBlocks(n: nat): nat { Ceil(n * FILESIZE) }

  /** Records of directory d that are not input files: the root lists the other three first. */
  function Base(d: nat): nat { if d == 0 then 3 else 0 }

  function Count(args: seq<Arg>, d: nat): nat { Base(d) + |InputsOf(args, |args|, d)| }

  // ---------------------------------------------------------------- one owner for every block

  /** Whose block it is, and which of the owner's blocks. */
  function Key(c: Content): (nat, nat, nat) {
    match c
    case Unused => (0, 0, 0)
    case Boot => (1, 0, 0)
    case SuperBlock => (2, 0, 0)
    case BitmapBlock(k) => (3, k, 0)
    case Data(a, i) => (4, a, i)
    case Slots(a, _) => (5, a, 0)
    case Records(d, i, _) => (6, d, i)
  }

  ghost predicate OneOwner(blocks: seq<Content>, pos: nat) {
    pos <= |blocks| && forall b, c :: 0 <= b < c < pos ==> Key(blocks[b]) != Key(blocks[c])
  }

  /** The block belongs to one of the first j arguments, to a directory, or to the file system: it is a
      block that this owner needs. */
  ghost predicate Needed(c: Content, args: seq<Arg>, j: nat) {
    match c
    case Unused => false
    case Boot => true
    case SuperBlock => true
    case BitmapBlock(k) => k == 0
    case Data(a, i) => a < j <= |args| && args[a].Input? && i < Ceil(args[a].size)
    case Slots(a, _) => a < j <= |args| && args[a].Input? && Ceil(args[a].size) >= NDIRECT
    case Records(d, i, _) => d < DIRS && i < DirBlocks(Count(args, d))
  }

  ghost predicate Owned(blocks: seq<Content>, pos: nat, args: seq<Arg>, j: nat) {
    pos <= |blocks| && forall b :: 0 <= b < pos ==> Needed(blocks[b], args, j)
  }

  /** The blocks of one input: its data, and from ten blocks on its indirect block. */
  ghost predicate FileRun(blocks: seq<Content>, start: nat, size: nat, a: nat) {
    && start + Need(size) <= |blocks| && DataRun(blocks, start, Ceil(size), a)
    && (Ceil(size) >= NDIRECT ==> blocks[start + Ceil(size)].Slots? && blocks[start + Ceil(size)].input == a)
  }

  lemma OwnedFile(blocks: seq<Content>, pos: nat, blocks': seq<Content>, args: seq<Arg>, j: nat)
    requires j < |args| && args[j].Input? && Owned(blocks, pos, args, j)
    requires Extends(blocks, pos, blocks', pos + Need(args[j].size)) && FileRun(blocks', pos, args[j].size, j)
    ensures Owned(blocks', pos + Need(args[j].size), args, j + 1)
  {
    hide Ceil, Count, DirBlocks;
    forall b | 0 <= b < pos + Need(args[j].size) ensures Needed(blocks'[b], args, j + 1) {
      if b < pos { assert Needed(blocks[b], args, j); }
    }
  }

  lemma OwnedSwitch(blocks: seq<Content>, pos: nat, args: seq<Arg>, j: nat)
    requires j < |args| && Owned(blocks, pos, args, j)
    ensures Owned(blocks, pos, args, j + 1)
  {
    hide Ceil, Count, DirBlocks;
  }

  lemma OwnedDir(blocks: seq<Content>, pos: nat, blocks': seq<Content>, args: seq<Arg>, d: nat, ents: seq<File>)
    requires d < DIRS && |ents| == Count(args, d) && Owned(blocks, pos, args, |args|)
    requires Extends(blocks, pos, blocks', pos + DirBlocks(|ents|)) && RecordsRun(blocks', pos, DirBlocks(|ents|), d, ents)
    ensures Owned(blocks', pos + DirBlocks(|ents|), args, |args|)
  {
    hide Ceil, Count, DirBlocks, Chunk;
    forall b | 0 <= b < pos + DirBlocks(|ents|) ensures Needed(blocks'[b], args, |args|) {
      if b < pos { assert Needed(blocks[b], args, |args|); }
    }
  }

  /** Nothing of input j or later, nor of directory d, is on the disk yet. */
  ghost predicate NoInput(blocks: seq<Content>, pos: nat, j: nat) {
    pos <= |blocks| && forall b :: 0 <= b < pos ==>
      (blocks[b].Data? || blocks[b].Slots? ==> blocks[b].input < j)
  }

  ghost predicate NoRecords(blocks: seq<Content>, pos: nat, d: nat) {
    pos <= |blocks| && forall b :: 0 <= b < pos ==> (blocks[b].Records? ==> blocks[b].dir != d)
  }

  ghost predicate Layout(nblocks: nat, blocks: seq<Content>, pos: nat) {
    && |blocks| == nblocks && 3 <= pos < nblocks <= 10240
    && blocks[0] == Boot && blocks[1] == SuperBlock && blocks[2] == BitmapBlock(0)
    && forall b :: pos <= b < nblocks ==> blocks[b] == Unused
  }

  /** The run of blocks that holds the data of input a. */
  ghost predicate DataRun(blocks: seq<Content>, start: nat, n: nat, a: nat) {
    start + n <= |blocks| && forall b :: start <= b < start + n ==> blocks[b] == Data(a, b - start)
  }

  ghost predicate RecordsRun(blocks: seq<Content>, start: nat, n: nat, d: nat, ents: seq<File>) {
    start + n <= |blocks| && forall b :: start <= b < start + n ==> blocks[b] == Records(d, b - start, Chunk(ents, b - start))
  }

  /** The i-th block of records. */
  function Chunk(ents: seq<File>, i: nat): seq<File> {
    if BLKFILES * i >= |ents| then []
    else if BLKFILES * (i + 1) >= |ents| then ents[BLKFILES * i..]
    else ents[BLKFILES * i..BLKFILES * (i + 1)]
  }

  lemma DataOwner(blocks: seq<Content>, pos: nat, blocks': seq<Content>, n: nat, a: nat)
    requires OneOwner(blocks, pos) && NoInput(blocks, pos, a) && Extends(blocks, pos, blocks', pos + n)
    requires DataRun(blocks', pos, n, a)
    ensures OneOwner(blocks', pos + n) && NoInput(blocks', pos + n, a + 1)
  {
  }

  lemma SlotsOwner(blocks: seq<Content>, pos: nat, blocks': seq<Content>, a: nat, slots: seq<nat>)
    requires OneOwner(blocks, pos) && NoInput(blocks, pos, a + 1) && Extends(blocks, pos, blocks', pos + 1)
    requires forall b :: 0 <= b < pos ==> !(blocks[b].Slots? && blocks[b].input == a)
    requires blocks'[pos] == Slots(a, slots)
    ensures OneOwner(blocks', pos + 1) && NoInput(blocks', pos + 1, a + 1)
  {
  }

  lemma RecordsOwner(blocks: seq<Content>, pos: nat, blocks': seq<Content>, n: nat, d: nat, ents: seq<File>)
    requires OneOwner(blocks, pos) && NoRecords(blocks, pos, d) && Extends(blocks, pos, blocks', pos + n)
    requires RecordsRun(blocks', pos, n, d, ents)
    ensures OneOwner(blocks', pos + n)
    ensures forall e :: NoRecords(blocks, pos, e) && e != d ==> NoRecords(blocks', pos + n, e)
  {
  }

  // ---------------------------------------------------------------- directories on the disk

  ghost predicate DirOk(blocks: seq<Content>, pos: nat, f: File, d: nat, ents: seq<File>) {
    && f.size == BLKSIZE * DirBlocks(|ents|) && pos <= |blocks|
    && forall i :: 0 <= i < DirBlocks(|ents|) ==> BlockAt(blocks, pos, f, i, Records(d, i, Chunk(ents, i)))
  }

  lemma DirKept(blocks: seq<Content>, pos: nat, f: File, d: nat, ents: seq<File>, blocks': seq<Content>, pos': nat)
    requires DirOk(blocks, pos, f, d, ents) && Extends(blocks, pos, blocks', pos') && |ents| <= MAX_DIR_ENTS
    ensures DirOk(blocks', pos', f, d, ents)
  {
    forall i | 0 <= i < DirBlocks(|ents|) ensures BlockAt(blocks', pos', f, i, Records(d, i, Chunk(ents, i))) {
      assert BlockAt(blocks, pos, f, i, Records(d, i, Chunk(ents, i)));
    }
  }

  /** The records of blocks i and on of the directory, one block after the other. */
  function ReadRecords(blocks: seq<Content>, f: File, i: nat): seq<File>
    decreases Ceil(f.size) - i
  {
    if i >= Ceil(f.size) then []
    else
      var c := Block(blocks, f, i);
      (if c.Some? && c.value.Records? then c.value.files else []) + ReadRecords(blocks, f, i + 1)
  }

  /** Reading a directory gives its list of records. */
  lemma {:induction false} RecordsFrom(blocks: seq<Content>, pos: nat, f: File, d: nat, ents: seq<File>, i: nat)
    requires DirOk(blocks, pos, f, d, ents) && i <= DirBlocks(|ents|)
    ensures ReadRecords(blocks, f, i) == if BLKFILES * i <= |ents| then ents[BLKFILES * i..] else []
    decreases DirBlocks(|ents|) - i
  {
    if i < DirBlocks(|ents|) {
      assert BlockAt(blocks, pos, f, i, Records(d, i, Chunk(ents, i)));
      RecordsFrom(blocks, pos, f, d, ents, i + 1);
    }
  }

  lemma ReadDir(blocks: seq<Content>, pos: nat, f: File, d: nat, ents: seq<File>)
    requires DirOk(blocks, pos, f, d, ents)
    ensures ReadRecords(blocks, f, 0) == ents
  {
    RecordsFrom(blocks, pos, f, d, ents, 0);
  }
}
