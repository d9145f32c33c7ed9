/** The steps of fs/fsformat.c on the disk; a false result is a panic. */
module FsCode {
  import opened Wrappers
  import opened FsImage
  import opened FsFormat

  /** The slots of the indirect block of a file of n blocks from start on. */
  function SlotList(start: nat, n: nat): seq<nat> {
    seq(NINDIRECT, i requires 0 <= i => if NDIRECT + i < n then start + NDIRECT + i else 0)
  }

  /** The record f once finishfile has filled it in. */
  ghost predicate Finished(f: File, f': File, start: nat, len: nat, indirect: nat) {
    && f'.size == len && |f'.direct| == |f.direct| == NDIRECT
    && (forall i :: 0 <= i < NDIRECT ==> f'.direct[i] == if i < Ceil(len) then start + i else f.direct[i])
    && f'.indirect == if Ceil(len) >= NDIRECT then indirect else f.indirect
  }

  /** Data run and indirect block make up the file. */
  lemma FinishedFile(blocks: seq<Content>, pos: nat, f: File, f': File, start: nat, len: nat, indirect: nat, a: nat)
    requires pos <= |blocks| && DataRun(blocks, start, Ceil(len), a) && start + Ceil(len) <= pos
    requires Finished(f, f', start, len, indirect) && Ceil(len) <= NDIRECT + NINDIRECT
    requires Ceil(len) >= NDIRECT ==> indirect < pos && blocks[indirect] == Slots(a, SlotList(start, Ceil(len)))
    ensures FileOk(blocks, pos, f', a, len)
  {
    hide Ceil;
    forall i | 0 <= i < Ceil(len) ensures BlockAt(blocks, pos, f', i, Data(a, i)) {
      assert Slot(blocks, f', i) == Some(start + i);
    }
  }

  lemma FinishedDir(blocks: seq<Content>, pos: nat, f: File, f': File, start: nat, indirect: nat, d: nat, ents: seq<File>)
    requires pos <= |blocks| && |ents| <= MAX_DIR_ENTS && RecordsRun(blocks, start, DirBlocks(|ents|), d, ents)
    requires start + DirBlocks(|ents|) <= pos && Finished(f, f', start, BLKSIZE * DirBlocks(|ents|), indirect)
    ensures DirOk(blocks, pos, f', d, ents)
  {
    forall i | 0 <= i < DirBlocks(|ents|) ensures BlockAt(blocks, pos, f', i, Records(d, i, Chunk(ents, i))) {
      assert Slot(blocks, f', i) == Some(start + i);
    }
  }

  class Disk {
    const nblocks: nat
    var pos: nat
    var blocks: seq<Content>

    ghost predicate Valid()
      reads this
    {
      Layout(nblocks, blocks, pos) && OneOwner(blocks, pos)
    }

    /** opendisk: the boot block, the super-block and the bitmap. */
    constructor (n: nat)
      requires 3 < n <= 10240
      ensures nblocks == n && Valid() && pos == 3 && NoInput(blocks, pos, 0) && forall d :: NoRecords(blocks, pos, d)
    {
      nblocks := n;
      pos := 3;
      blocks := seq(n, b => if b == 0 then Boot else if b == 1 then SuperBlock else if b == 2 then BitmapBlock(0) else Unused);
    }

    /** alloc, in whole blocks. */
    method Alloc(bytes: nat) returns (ok: bool, start: nat)
      requires bytes <= 0xFFFF_F000 && pos < nblocks
      modifies this`pos
      ensures start == old(pos) && pos == old(pos) + Ceil(bytes) && (ok <==> pos < nblocks)
    {
      Rounding(bytes);
      start := pos;
      pos := pos + RoundUp32(bytes) / BLKSIZE;
      ok := pos < nblocks;
    }

    /** finishfile. */
    method FinishFile(f: File, start: nat, len: nat, a: nat) returns (ok: bool, f': File)
      requires Layout(nblocks, blocks, pos) && |f.direct| == NDIRECT && len <= MAXFILESIZE
      modifies this`pos, this`blocks
      ensures ok <==> Ceil(len) < NDIRECT || old(pos) + 1 < nblocks
      ensures ok ==> Finished(f, f', start, len, old(pos)) && Layout(nblocks, blocks, pos)
      ensures ok ==> pos == old(pos) + if Ceil(len) < NDIRECT then 0 else 1
      ensures ok ==> Extends(old(blocks), old(pos), blocks, pos)
      ensures ok && Ceil(len) >= NDIRECT ==> blocks[old(pos)] == Slots(a, SlotList(start, Ceil(len)))
      ensures ok && Ceil(len) < NDIRECT ==> blocks == old(blocks)
    {
      Rounding(len);
      f' := f.(size := len);
      var n := RoundUp32(len) / BLKSIZE;
      assert n == Ceil(len);
      var i := 0;
      while i < n && i < NDIRECT
        invariant 0 <= i <= n && i <= NDIRECT == |f'.direct| && f'.size == len && f'.indirect == f.indirect
        invariant forall k :: 0 <= k < NDIRECT ==> f'.direct[k] == if k < i then start + k else f.direct[k]
      {
        f' := f'.(direct := f'.direct[i := start + i]);
        i := i + 1;
      }
      ok := true;
      if i == NDIRECT {
        ghost var direct := f'.direct;
        var ind;
        ok, ind := Alloc(BLKSIZE);
        if !ok { return; }
        f' := f'.(indirect := ind);
        var slots := seq(NINDIRECT, k => 0);
        while i < n
          invariant NDIRECT <= i <= n && |slots| == NINDIRECT
          invariant forall k :: 0 <= k < NINDIRECT ==> slots[k] == if NDIRECT + k < i then start + NDIRECT + k else 0
        {
          slots := slots[i - NDIRECT := start + i];
          i := i + 1;
        }
        assert slots == SlotList(start, n);
        blocks := blocks[ind := Slots(a, slots)];
      }
    }

    /** readn: the input's blocks go where alloc said. */
    method PutData(start: nat, n: nat, a: nat)
      requires start + n <= |blocks|
      modifies this`blocks
      ensures DataRun(blocks, start, n, a) && |blocks| == |old(blocks)|
      ensures forall b :: 0 <= b < |blocks| && !(start <= b < start + n) ==> blocks[b] == old(blocks)[b]
    {
      var i := 0;
      while i < n
        invariant i <= n && |blocks| == |old(blocks)| && DataRun(blocks, start, i, a)
        invariant forall b :: 0 <= b < |blocks| && !(start <= b < start + i) ==> blocks[b] == old(blocks)[b]
      {
        blocks := blocks[start + i := Data(a, i)];
        i := i + 1;
      }
    }

    /** The copy of the records in finishdir. */
    method PutRecords(start: nat, d: nat, ents: seq<File>)
      requires start + DirBlocks(|ents|) <= |blocks|
      modifies this`blocks
      ensures RecordsRun(blocks, start, DirBlocks(|ents|), d, ents) && |blocks| == |old(blocks)|
      ensures forall b :: 0 <= b < |blocks| && !(start <= b < start + DirBlocks(|ents|)) ==> blocks[b] == old(blocks)[b]
    {
      hide Chunk;
      var i, n := 0, DirBlocks(|ents|);
      while i < n
        invariant i <= n && |blocks| == |old(blocks)| && RecordsRun(blocks, start, i, d, ents)
        invariant forall b :: 0 <= b < |blocks| && !(start <= b < start + i) ==> blocks[b] == old(blocks)[b]
      {
        blocks := blocks[start + i := Records(d, i, Chunk(ents, i))];
        i := i + 1;
      }
    }

    /** The part of writefile after the checks: data, then the indirect block if one is needed. */
    method WriteFile(f: File, size: nat, a: nat) returns (ok: bool, f': File)
      requires Valid() && NoInput(blocks, pos, a) && size < MAXFILESIZE && |f.direct| == NDIRECT
      modifies this
      ensures ok <==> old(pos) + Need(size) < nblocks
      ensures ok ==> Valid() && NoInput(blocks, pos, a + 1) && pos == old(pos) + Need(size)
      ensures ok ==> FileOk(blocks, pos, f', a, size) && |f'.direct| == NDIRECT && FileRun(blocks, old(pos), size, a)
      ensures ok ==> Extends(old(blocks), old(pos), blocks, pos)
      ensures ok ==> forall d :: NoRecords(old(blocks), old(pos), d) ==> NoRecords(blocks, pos, d)
    {
      hide OneOwner, NoInput, Key;
      var start;
      ok, start := Alloc(size);
      f' := f;
      if !ok { return; }
      var n := Ceil(size);
      PutData(start, n, a);
      ghost var blocks1, pos1 := blocks, pos;
      DataOwner(old(blocks), start, blocks, n, a);
      ok, f' := FinishFile(f, start, size, a);
      if !ok { return; }
      if n >= NDIRECT {
        NoSlotsYet(old(blocks), start, blocks1, n, a);
        SlotsOwner(blocks1, pos1, blocks, a, SlotList(start, n));
      }
      FinishedFile(blocks, pos, f, f', start, size, pos1, a);
    }

    /** finishdir; for an empty directory the claimed block is not taken. */
    method FinishDir(f: File, d: nat, ents: seq<File>) returns (ok: bool, f': File)
      requires Valid() && NoRecords(blocks, pos, d) && |ents| <= MAX_DIR_ENTS && |f.direct| == NDIRECT
      modifies this
      ensures ok <==> old(pos) + DirBlocks(|ents|) < nblocks
      ensures ok ==> Valid() && pos == old(pos) + DirBlocks(|ents|) && |f'.direct| == NDIRECT
      ensures ok ==> Extends(old(blocks), old(pos), blocks, pos)
      ensures ok ==> RecordsRun(blocks, old(pos), DirBlocks(|ents|), d, ents)
      ensures ok ==> forall e :: NoRecords(old(blocks), old(pos), e) && e != d ==> NoRecords(blocks, pos, e)
      ensures ok && ents != [] ==> DirOk(blocks, pos, f', d, ents)
      ensures ok && ents == [] ==> f'.size == BLKSIZE && f'.direct[0] == pos
    {
      hide OneOwner, NoRecords, Key, Chunk;
      var size := |ents| * FILESIZE;
      var start;
      ok, start := Alloc(size);
      f' := f;
      if !ok { return; }
      PutRecords(start, d, ents);
      RecordsOwner(old(blocks), start, blocks, DirBlocks(|ents|), d, ents);
      Rounding(size);
      WholeBlocks(DirBlocks(|ents|));
      ok, f' := FinishFile(f, start, RoundUpInt(size), d);
      if ents != [] {
        FinishedDir(blocks, pos, f, f', start, pos, d, ents);
      }
    }

    /** finishdisk: the bit of every block below the high-water mark is cleared. */
    method FinishDisk() returns (v: Volume)
      requires Valid()
      ensures v.magic == FS_MAGIC && v.nblocks == nblocks
      ensures forall b: nat :: BlockIsFree(v, b) <==> pos <= b < nblocks
    {
      var bitmap: seq<Word> := seq(BitBlocks(nblocks) * (BLKSIZE / 4), i => seq(32, j => true));
      var i := 0;
      while i < pos
        invariant 0 <= i <= pos && |bitmap| == BitBlocks(nblocks) * (BLKSIZE / 4)
        invariant forall b :: 0 <= b < nblocks ==> (Bit(bitmap, b) <==> i <= b)
      {
        ghost var was := bitmap;
        bitmap := SetBit(bitmap, i, false);
        forall b: nat | b < nblocks ensures Bit(bitmap, b) <==> i + 1 <= b {
          SetBitOnly(was, i, false, b);
        }
        i := i + 1;
      }
      v := Volume(FS_MAGIC, nblocks, bitmap);
    }
  }

  lemma WholeBlocks(n: nat)
    ensures Ceil(BLKSIZE * n) == n
  {
  }

  lemma NoSlotsYet(blocks: seq<Content>, pos: nat, blocks': seq<Content>, n: nat, a: nat)
    requires NoInput(blocks, pos, a) && Extends(blocks, pos, blocks', pos + n) && DataRun(blocks', pos, n, a)
    ensures forall b :: 0 <= b < pos + n ==> !(blocks'[b].Slots? && blocks'[b].input == a)
  {
  }
}
