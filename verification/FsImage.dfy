/** inc/fs.h and fs/fs.c: what a disk image holds, block by block, and how files are read from it. */
module FsImage {
  import opened Wrappers

  const BLKSIZE: nat := 4096
  const BLKBITSIZE: nat := 32768
  const NDIRECT: nat := 10
  const NINDIRECT: nat := 1024
  const MAXFILESIZE: nat := 1034 * BLKSIZE
  const BLKFILES: nat := 16
  const FILESIZE: nat := 256
  const FS_MAGIC: nat := 0x4A0530AE
  const DISKSIZE: nat := 0xC000_0000

  datatype File = File(size: nat, direct: seq<nat>, indirect: nat)

  /** The content of a block.  Input files are named by their place on the command line and
      directories by a number; a directory block holds up to BLKFILES records. */
  datatype Content =
    | Unused
    | Boot
    | SuperBlock
    | BitmapBlock(k: nat)
    | Data(input: nat, index: nat)
    | Slots(input: nat, slots: seq<nat>)
    | Records(dir: nat, index: nat, files: seq<File>)

  /** Blocks needed for n bytes. */
  function Ceil(n: nat): nat { (n + BLKSIZE - 1) / BLKSIZE }

  /** Where block i of a file is: in a direct slot or in a slot of the indirect block. */
  function Slot(blocks: seq<Content>, f: File, i: nat): Option<nat> {
    if i < NDIRECT then (if i < |f.direct| then Some(f.direct[i]) else None)
    else if f.indirect < |blocks| && blocks[f.indirect].Slots? && i - NDIRECT < |blocks[f.indirect].slots|
    then Some(blocks[f.indirect].slots[i - NDIRECT])
    else None
  }

  /** Block i of the file, read through its slots. */
  function Block(blocks: seq<Content>, f: File, i: nat): Option<Content> {
    var b := Slot(blocks, f, i);
    if b.Some? && b.value < |blocks| then Some(blocks[b.value]) else None
  }

  // ---------------------------------------------------------------- the bitmap

  type Word = w: seq<bool> | |w| == 32 witness seq(32, i => true)

  predicate Bit(bitmap: seq<Word>, b: nat) { b / 32 < |bitmap| && bitmap[b / 32][b % 32] }

  function SetBit(bitmap: seq<Word>, b: nat, v: bool): (r: seq<Word>)
    requires b / 32 < |bitmap|
    ensures |r| == |bitmap|
  {
    bitmap[b / 32 := bitmap[b / 32][b % 32 := v]]
  }

  lemma SetBitOnly(bitmap: seq<Word>, b: nat, v: bool, c: nat)
    requires b / 32 < |bitmap|
    ensures Bit(SetBit(bitmap, b, v), c) == if c == b then v else Bit(bitmap, c)
  {
    assert c == b <==> c / 32 == b / 32 && c % 32 == b % 32 by {
      assert b == 32 * (b / 32) + b % 32 && c == 32 * (c / 32) + c % 32;
    }
  }

  /** The super-block's fields and the bitmap, as the file system reads them. */
  datatype Volume = Volume(magic: nat, nblocks: nat, bitmap: seq<Word>)

  predicate BlockIsFree(v: Volume, b: nat) { b < v.nblocks && Bit(v.bitmap, b) }

  /** free_block: it panics for block 0, and otherwise frees that block and no other. */
  method FreeBlock(v: Volume, b: nat) returns (r: Option<Volume>)
    requires b / 32 < |v.bitmap|
    ensures r == None <==> b == 0
    ensures r.Some? ==> r.value.nblocks == v.nblocks && r.value.magic == v.magic
    ensures r.Some? ==> forall c :: BlockIsFree(r.value, c) <==> BlockIsFree(v, c) || (c == b && b < v.nblocks)
  {
    if b == 0 { return None; }
    r := Some(v.(bitmap := SetBit(v.bitmap, b, true)));
    forall c: nat ensures BlockIsFree(r.value, c) <==> BlockIsFree(v, c) || (c == b && b < v.nblocks) {
      SetBitOnly(v.bitmap, b, true, c);
    }
  }

  /** The volume is one of this file system, and the disk map has room for every one of its blocks. */
  ghost predicate SuperOk(v: Volume) {
    v.magic == FS_MAGIC && forall b :: 0 <= b < v.nblocks ==> Place(b) + BLKSIZE <= DISKSIZE
  }

  /** Where block b begins in the disk map. */
  function Place(b: nat): nat { b * BLKSIZE }

  /** check_super: false where it panics. */
  method CheckSuper(v: Volume) returns (ok: bool)
    ensures ok <==> SuperOk(v)
  {
    if v.magic != FS_MAGIC { return false; }
    if v.nblocks > DISKSIZE / BLKSIZE {
      assert Place(v.nblocks - 1) + BLKSIZE > DISKSIZE;
      return false;
    }
    ok := true;
  }

  function BitBlocks(nblocks: nat): nat { (nblocks + BLKBITSIZE - 1) / BLKBITSIZE }

  ghost predicate ReservedInUse(v: Volume) {
    forall b :: 0 <= b < 2 + BitBlocks(v.nblocks) ==> !BlockIsFree(v, b)
  }

  /** check_bitmap: it accepts exactly if blocks 0 and 1 and the bitmap's blocks are in use. */
  method CheckBitmap(v: Volume) returns (ok: bool)
    ensures ok <==> ReservedInUse(v)
  {
    var i := 0;
    while i * BLKBITSIZE < v.nblocks
      invariant 0 <= i <= BitBlocks(v.nblocks)
      invariant forall b :: 2 <= b < 2 + i ==> !BlockIsFree(v, b)
      decreases BitBlocks(v.nblocks) - i
    {
      if BlockIsFree(v, 2 + i) { return false; }
      i := i + 1;
    }
    if BlockIsFree(v, 0) { return false; }
    if BlockIsFree(v, 1) { return false; }
    ok := true;
  }

  // ---------------------------------------------------------------- rounding, as C does it

  /** ROUNDUP of a 32-bit unsigned number. */
  function RoundUp32(n: nat): nat
    requires n < 0x1_0000_0000
  {
    var m := (n + 0xFFFF_FFFF) % 0x1_0000_0000;
    (m + BLKSIZE - m % BLKSIZE) % 0x1_0000_0000
  }

  /** C's remainder, which has the sign of the dividend. */
  function Rem(a: int, b: nat): int
    requires b > 0
  {
    if a >= 0 then a % b else -(-a % b)
  }

  /** ROUNDUP of an int. */
  function RoundUpInt(n: int): int { n - 1 + BLKSIZE - Rem(n - 1, BLKSIZE) }

  /** Both round up to whole blocks, except that the int zero becomes one block. */
  lemma Rounding(n: nat)
    requires n <= 0xFFFF_F000
    ensures RoundUp32(n) == BLKSIZE * Ceil(n)
    ensures RoundUpInt(n) == if n == 0 then BLKSIZE else BLKSIZE * Ceil(n)
  {
    if n > 0 {
      RoundPositive(n - 1);
    }
  }

  lemma RoundPositive(m: nat)
    ensures m + BLKSIZE - m % BLKSIZE == BLKSIZE * ((m + BLKSIZE) / BLKSIZE)
  {
  }

  // ---------------------------------------------------------------- a file on the disk

  /** Every block of the file lies below the high-water mark and holds that block of input a. */
  ghost predicate FileOk(blocks: seq<Content>, pos: nat, f: File, a: nat, size: nat) {
    && f.size == size && pos <= |blocks|
    && (Ceil(size) >= NDIRECT ==> f.indirect < pos && blocks[f.indirect].Slots? && blocks[f.indirect].input == a)
    && forall i :: 0 <= i < Ceil(size) ==> BlockAt(blocks, pos, f, i, Data(a, i))
  }

  ghost predicate BlockAt(blocks: seq<Content>, pos: nat, f: File, i: nat, content: Content) {
    Slot(blocks, f, i).Some? && Slot(blocks, f, i).value < pos <= |blocks| && Block(blocks, f, i) == Some(content)
  }

  /** Blocks below pos stay as they are. */
  ghost predicate Extends(old': seq<Content>, pos: nat, new': seq<Content>, pos': nat) {
    pos <= pos' <= |old'| == |new'| && forall b :: 0 <= b < pos ==> new'[b] == old'[b]
  }

  lemma FileKept(blocks: seq<Content>, pos: nat, f: File, a: nat, size: nat, blocks': seq<Content>, pos': nat)
    requires FileOk(blocks, pos, f, a, size) && Extends(blocks, pos, blocks', pos')
    ensures FileOk(blocks', pos', f, a, size)
  {
    forall i | 0 <= i < Ceil(size) ensures BlockAt(blocks', pos', f, i, Data(a, i)) {
      assert BlockAt(blocks, pos, f, i, Data(a, i));
    }
  }

  /** The file's blocks in order. */
  function ReadAll(blocks: seq<Content>, f: File): seq<Option<Content>> {
    seq(Ceil(f.size), i requires 0 <= i => Block(blocks, f, i))
  }

  /** Reading gives exactly the input's blocks. */
  lemma ReadBack(blocks: seq<Content>, pos: nat, f: File, a: nat, size: nat)
    requires FileOk(blocks, pos, f, a, size)
    ensures ReadAll(blocks, f) == seq(Ceil(size), i requires 0 <= i => Some(Data(a, i)))
  {
    forall i | 0 <= i < Ceil(size) ensures Block(blocks, f, i) == Some(Data(a, i)) {
      assert BlockAt(blocks, pos, f, i, Data(a, i));
    }
  }
}
