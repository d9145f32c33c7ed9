/** The whole of fs/fsformat.c: from the command line to the finished image. */
module FsMain {
  import opened Wrappers
  import opened FsImage
  import opened FsFormat
  import opened FsCode

  datatype Image = Image(volume: Volume, blocks: seq<Content>, root: File, high: nat)

  // ---------------------------------------------------------------- the lists of records

  ghost predicate EntryOk(blocks: seq<Content>, pos: nat, args: seq<Arg>, f: File, a: nat) {
    a < |args| && args[a].Input? && FileOk(blocks, pos, f, a, args[a].size)
  }

  /** The directories list exactly the inputs so far, each with its file on the disk. */
  ghost predicate Listed(blocks: seq<Content>, pos: nat, args: seq<Arg>, j: nat, ents: seq<seq<File>>)
    requires j <= |args|
  {
    && |ents| == DIRS
    && (forall d :: 0 <= d < DIRS ==> ListOk(blocks, pos, args, InputsOf(args, j, d), Base(d), ents[d]))
    && (forall k :: 0 <= k < 3 ==> |ents[0][k].direct| == NDIRECT)
  }

  ghost predicate ListOk(blocks: seq<Content>, pos: nat, args: seq<Arg>, inputs: seq<nat>, base: nat, files: seq<File>) {
    && |files| == base + |inputs| <= MAX_DIR_ENTS
    && forall k :: 0 <= k < |inputs| ==> EntryOk(blocks, pos, args, files[base + k], inputs[k])
  }

  lemma ListKept(blocks: seq<Content>, pos: nat, args: seq<Arg>, inputs: seq<nat>, base: nat, files: seq<File>,
                 blocks': seq<Content>, pos': nat)
    requires ListOk(blocks, pos, args, inputs, base, files) && Extends(blocks, pos, blocks', pos')
    ensures ListOk(blocks', pos', args, inputs, base, files)
  {
    hide FileOk, Extends;
    forall k | 0 <= k < |inputs| ensures EntryOk(blocks', pos', args, files[base + k], inputs[k]) {
      assert EntryOk(blocks, pos, args, files[base + k], inputs[k]);
      FileKept(blocks, pos, files[base + k], inputs[k], args[inputs[k]].size, blocks', pos');
    }
  }

  lemma ListedKept(blocks: seq<Content>, pos: nat, args: seq<Arg>, j: nat, ents: seq<seq<File>>, blocks': seq<Content>, pos': nat)
    requires j <= |args| && Listed(blocks, pos, args, j, ents) && Extends(blocks, pos, blocks', pos')
    ensures Listed(blocks', pos', args, j, ents)
  {
    hide ListOk, Extends, InputsOf, Base;
    RootLong(blocks, pos, args, j, ents);
    forall d | 0 <= d < DIRS ensures ListOk(blocks', pos', args, InputsOf(args, j, d), Base(d), ents[d]) {
      ListKept(blocks, pos, args, InputsOf(args, j, d), Base(d), ents[d], blocks', pos');
    }
  }

  lemma RootLong(blocks: seq<Content>, pos: nat, args: seq<Arg>, j: nat, ents: seq<seq<File>>)
    requires j <= |args| && Listed(blocks, pos, args, j, ents)
    ensures |ents| == DIRS && |ents[0]| >= 3
    ensures forall d :: 0 <= d < DIRS ==> |ents[d]| == Base(d) + |InputsOf(args, j, d)| <= MAX_DIR_ENTS
  {
    forall d | 0 <= d < DIRS ensures |ents[d]| == Base(d) + |InputsOf(args, j, d)| <= MAX_DIR_ENTS {
      assert ListOk(blocks, pos, args, InputsOf(args, j, d), Base(d), ents[d]);
    }
  }

  lemma DirAtOk(args: seq<Arg>, j: nat)
    requires ArgsOk(args) && j <= |args|
    ensures DirAt(args, j) < DIRS
  {
  }

  /** One more input in its directory. */
  lemma ListedAdd(blocks: seq<Content>, pos: nat, args: seq<Arg>, j: nat, ents: seq<seq<File>>, f: File)
    requires j < |args| && args[j].Input? && DirAt(args, j) < DIRS && Listed(blocks, pos, args, j, ents)
    requires FileOk(blocks, pos, f, j, args[j].size) && |ents[DirAt(args, j)]| < MAX_DIR_ENTS
    ensures Listed(blocks, pos, args, j + 1, ents[DirAt(args, j) := ents[DirAt(args, j)] + [f]])
  {
    hide FileOk;
    var e := DirAt(args, j);
    var ents' := ents[e := ents[e] + [f]];
    RootLong(blocks, pos, args, j, ents);
    forall d | 0 <= d < DIRS ensures ListOk(blocks, pos, args, InputsOf(args, j + 1, d), Base(d), ents'[d]) {
      assert ListOk(blocks, pos, args, InputsOf(args, j, d), Base(d), ents[d]);
      assert d != e ==> InputsOf(args, j + 1, d) == InputsOf(args, j, d);
    }
  }

  lemma ListedSwitch(blocks: seq<Content>, pos: nat, args: seq<Arg>, j: nat, ents: seq<seq<File>>)
    requires j < |args| && args[j].Switch? && Listed(blocks, pos, args, j, ents)
    ensures Listed(blocks, pos, args, j + 1, ents)
  {
    hide ListOk;
    forall d | 0 <= d < DIRS ensures InputsOf(args, j + 1, d) == InputsOf(args, j, d) {}
  }

  /** Filling in the record of a directory, one of the first three of the root. */
  lemma ListedDir(blocks: seq<Content>, pos: nat, args: seq<Arg>, j: nat, ents: seq<seq<File>>, k: nat, f: File)
    requires j <= |args| && Listed(blocks, pos, args, j, ents) && k < 3 && |f.direct| == NDIRECT && |ents[0]| >= 3
    ensures Listed(blocks, pos, args, j, ents[0 := ents[0][k := f]])
  {
    hide EntryOk, InputsOf;
    var ents' := ents[0 := ents[0][k := f]];
    forall d | 0 <= d < DIRS ensures ListOk(blocks, pos, args, InputsOf(args, j, d), Base(d), ents'[d]) {
      assert ListOk(blocks, pos, args, InputsOf(args, j, d), Base(d), ents[d]);
    }
  }

  // ---------------------------------------------------------------- what fits

  /** The high-water mark of the finished image. */
  function High(args: seq<Arg>): nat {
    3 + Total(args, |args|) + DirBlocks(Count(args, 1)) + DirBlocks(Count(args, 2)) + DirBlocks(Count(args, 3)) + DirBlocks(Count(args, 0))
  }

  /** What a caller can work out from the command line. */
  ghost predicate Fits(nblocks: nat, args: seq<Arg>) {
    && 2 <= nblocks <= 10240 && High(args) < nblocks
    && (forall a :: 0 <= a < |args| && args[a].Input? ==> args[a].size < MAXFILESIZE)
    && (forall d :: 0 <= d < DIRS ==> Count(args, d) <= MAX_DIR_ENTS)
  }

  lemma {:induction false} Grows(args: seq<Arg>, i: nat, j: nat, d: nat)
    requires i <= j <= |args|
    ensures Total(args, i) <= Total(args, j) && |InputsOf(args, i, d)| <= |InputsOf(args, j, d)|
    decreases j
  {
    if i < j { Grows(args, i, j - 1, d); }
  }

  /** An input that is refused does not fit. */
  lemma Refused(nblocks: nat, args: seq<Arg>, j: nat)
    requires j < |args| && args[j].Input? && DirAt(args, j) < DIRS
    requires || args[j].size >= MAXFILESIZE
             || Base(DirAt(args, j)) + |InputsOf(args, j, DirAt(args, j))| >= MAX_DIR_ENTS
             || 3 + Total(args, j + 1) >= nblocks
    ensures !Fits(nblocks, args)
  {
    hide DirBlocks;
    var d := DirAt(args, j);
    Grows(args, j + 1, |args|, d);
    assert |InputsOf(args, j + 1, d)| == |InputsOf(args, j, d)| + 1;
    if Base(d) + |InputsOf(args, j, d)| >= MAX_DIR_ENTS {
      assert Count(args, d) > MAX_DIR_ENTS;
    }
  }

  // ---------------------------------------------------------------- the directories at the end

  /** A directory's record and list, on the disk if the directory is not empty. */
  ghost predicate DirDone(blocks: seq<Content>, pos: nat, f: File, d: nat, ents: seq<File>) {
    |ents| <= MAX_DIR_ENTS && (ents != [] ==> DirOk(blocks, pos, f, d, ents))
  }

  lemma DoneKept(blocks: seq<Content>, pos: nat, f: File, d: nat, ents: seq<File>, blocks': seq<Content>, pos': nat)
    requires DirDone(blocks, pos, f, d, ents) && Extends(blocks, pos, blocks', pos')
    ensures DirDone(blocks', pos', f, d, ents)
  {
    if ents != [] { DirKept(blocks, pos, f, d, ents, blocks', pos'); }
  }

  /** An empty directory claims a block that is another directory's. */
  ghost predicate Claims(blocks: seq<Content>, f: File, d: nat) {
    f.size == BLKSIZE && Block(blocks, f, 0).Some? && Block(blocks, f, 0).value.Records? && Block(blocks, f, 0).value.dir != d
  }

  /** So it will, or the block it claims is the next one to be taken. */
  ghost predicate WillClaim(blocks: seq<Content>, pos: nat, f: File, d: nat) {
    && f.size == BLKSIZE && |f.direct| == NDIRECT && pos <= |blocks|
    && (f.direct[0] == pos || (f.direct[0] < pos && blocks[f.direct[0]].Records? && blocks[f.direct[0]].dir != d))
  }

  ghost predicate SubDone(blocks: seq<Content>, pos: nat, dirs: seq<seq<File>>, d: nat)
    requires 0 < d < |dirs| && |dirs[0]| >= d
  {
    && DirDone(blocks, pos, dirs[0][d - 1], d, dirs[d])
    && (dirs[d] == [] ==> WillClaim(blocks, pos, dirs[0][d - 1], d))
  }

  /** The directories before n are finished, and the records of the others are not on the disk. */
  ghost predicate Stage(blocks: seq<Content>, pos: nat, args: seq<Arg>, dirs: seq<seq<File>>, n: nat) {
    && Listed(blocks, pos, args, |args|, dirs) && |dirs[0]| >= 3 && n <= DIRS
    && Owned(blocks, pos, args, |args|) && (forall d :: 0 < d < n ==> SubDone(blocks, pos, dirs, d))
    && (forall d :: d == 0 || n <= d < DIRS ==> NoRecords(blocks, pos, d))
  }

  /** An earlier directory while a later one, e, is written. */
  lemma SubKept(blocks: seq<Content>, pos: nat, dirs: seq<seq<File>>, d: nat, blocks': seq<Content>, n: nat, e: nat, ents: seq<File>)
    requires 0 < d < |dirs| && |dirs[0]| >= d && d != e && SubDone(blocks, pos, dirs, d)
    requires Extends(blocks, pos, blocks', pos + n) && RecordsRun(blocks', pos, n, e, ents)
    ensures SubDone(blocks', pos + n, dirs, d)
    ensures n > 0 && dirs[d] == [] ==> Claims(blocks', dirs[0][d - 1], d)
  {
    hide DirDone, Chunk;
    DoneKept(blocks, pos, dirs[0][d - 1], d, dirs[d], blocks', pos + n);
    if dirs[d] == [] {
      var b := dirs[0][d - 1].direct[0];
      assert b < pos ==> blocks'[b] == blocks[b];
      assert b == pos && n > 0 ==> blocks'[b] == Records(e, 0, Chunk(ents, 0));
    }
  }

  lemma SubUpdate(blocks: seq<Content>, pos: nat, dirs: seq<seq<File>>, d: nat, k: nat, f: File)
    requires 0 < d < |dirs| && |dirs[0]| >= d && d != k + 1 && k < |dirs[0]| && SubDone(blocks, pos, dirs, d)
    ensures SubDone(blocks, pos, dirs[0 := dirs[0][k := f]], d)
  {
  }

  /** finishdir for bin, sbin or vmm, whose record is one of the root's. */
  method FinishSub(disk: Disk, args: seq<Arg>, dirs: seq<seq<File>>, d: nat) returns (ok: bool, dirs': seq<seq<File>>)
    requires 0 < d < DIRS && disk.Valid() && Stage(disk.blocks, disk.pos, args, dirs, d)
    modifies disk
    ensures ok <==> old(disk.pos) + DirBlocks(Count(args, d)) < disk.nblocks
    ensures ok ==> disk.Valid() && disk.pos == old(disk.pos) + DirBlocks(Count(args, d))
    ensures ok ==> Stage(disk.blocks, disk.pos, args, dirs', d + 1)
  {
    hide Listed, ListOk, OneOwner, Owned, NoRecords, Extends, DirBlocks, DirOk, SubDone, RecordsRun, WillClaim;
    RootLong(disk.blocks, disk.pos, args, |args|, dirs);
    RecordLong(disk.blocks, disk.pos, args, dirs, d - 1);
    ghost var blocks, pos := disk.blocks, disk.pos;
    var f;
    ok, f := disk.FinishDir(dirs[0][d - 1], d, dirs[d]);
    dirs' := dirs[0 := dirs[0][d - 1 := f]];
    if ok {
      ListedKept(blocks, pos, args, |args|, dirs, disk.blocks, disk.pos);
      ListedDir(disk.blocks, disk.pos, args, |args|, dirs, d - 1, f);
      forall e | 0 < e < d ensures SubDone(disk.blocks, disk.pos, dirs', e) {
        SubKept(blocks, pos, dirs, e, disk.blocks, DirBlocks(|dirs[d]|), d, dirs[d]);
        SubUpdate(disk.blocks, disk.pos, dirs, e, d - 1, f);
      }
      NewSub(disk.blocks, disk.pos, dirs', d);
      OwnedDir(blocks, pos, disk.blocks, args, d, dirs[d]);
    }
  }

  lemma RecordLong(blocks: seq<Content>, pos: nat, args: seq<Arg>, dirs: seq<seq<File>>, k: nat)
    requires Listed(blocks, pos, args, |args|, dirs) && k < 3
    ensures |dirs[0][k].direct| == NDIRECT
  {
  }

  lemma NewSub(blocks: seq<Content>, pos: nat, dirs: seq<seq<File>>, d: nat)
    requires 0 < d < |dirs| && |dirs[0]| >= d && |dirs[d]| <= MAX_DIR_ENTS && |dirs[0][d - 1].direct| == NDIRECT && pos <= |blocks|
    requires dirs[d] != [] ==> DirOk(blocks, pos, dirs[0][d - 1], d, dirs[d])
    requires dirs[d] == [] ==> dirs[0][d - 1].size == BLKSIZE && dirs[0][d - 1].direct[0] == pos
    ensures SubDone(blocks, pos, dirs, d)
  {
  }

  /** The end of main: three directories, the root and the bitmap. */
  method Finish(disk: Disk, args: seq<Arg>, dirs: seq<seq<File>>, rootFile: File)
    returns (ok: bool, r: Option<Image>, ghost ents: seq<seq<File>>)
    requires disk.Valid() && Stage(disk.blocks, disk.pos, args, dirs, 1) && |rootFile.direct| == NDIRECT
    requires disk.pos == 3 + Total(args, |args|)
    modifies disk
    ensures ok == r.Some? && (ok <==> High(args) < disk.nblocks)
    ensures r.Some? ==> Layout(disk.nblocks, r.value.blocks, r.value.high) && OneOwner(r.value.blocks, r.value.high) && r.value.high == High(args)
    ensures r.Some? ==> Listed(r.value.blocks, r.value.high, args, |args|, ents) && DirOk(r.value.blocks, r.value.high, r.value.root, 0, ents[0])
    ensures r.Some? ==> AllDone(r.value, ents) && Owned(r.value.blocks, r.value.high, args, |args|)
    ensures r.Some? ==> r.value.volume.magic == FS_MAGIC && r.value.volume.nblocks == disk.nblocks
    ensures r.Some? ==> forall b: nat :: BlockIsFree(r.value.volume, b) <==> High(args) <= b < disk.nblocks
  {
    hide Listed, ListOk, OneOwner, Owned, NoRecords, Extends, DirBlocks, DirOk, SubDone, RecordsRun, Layout, Claims, Total;
    r, ents := None, dirs;
    var dirs1;
    ok, dirs1 := FinishSub(disk, args, dirs, 1);
    if !ok { return; }
    ok, dirs1 := FinishSub(disk, args, dirs1, 2);
    if !ok { return; }
    ok, dirs1 := FinishSub(disk, args, dirs1, 3);
    if !ok { return; }
    ents := dirs1;
    RootLong(disk.blocks, disk.pos, args, |args|, ents);
    ghost var blocks, pos := disk.blocks, disk.pos;
    var root;
    ok, root := disk.FinishDir(rootFile, 0, dirs1[0]);
    if !ok { return; }
    ListedKept(blocks, pos, args, |args|, ents, disk.blocks, disk.pos);
    SomeBlock(|ents[0]|);
    OwnedDir(blocks, pos, disk.blocks, args, 0, ents[0]);
    forall d | 0 < d < DIRS
      ensures if ents[d] != [] then DirOk(disk.blocks, disk.pos, ents[0][d - 1], d, ents[d]) else Claims(disk.blocks, ents[0][d - 1], d)
    {
      SubKept(blocks, pos, ents, d, disk.blocks, DirBlocks(|ents[0]|), 0, ents[0]);
      SubOk(disk.blocks, disk.pos, ents, d);
    }
    var v := disk.FinishDisk();
    r := Some(Image(v, disk.blocks, root, disk.pos));
  }

  lemma SomeBlock(n: nat)
    requires n > 0
    ensures DirBlocks(n) > 0
  {
  }

  lemma SubOk(blocks: seq<Content>, pos: nat, dirs: seq<seq<File>>, d: nat)
    requires 0 < d < |dirs| && |dirs[0]| >= d && SubDone(blocks, pos, dirs, d)
    ensures dirs[d] != [] ==> DirOk(blocks, pos, dirs[0][d - 1], d, dirs[d])
  {
  }

  /** Of the three subdirectories exactly the non-empty ones are on the disk; an empty one claims
      a block of another. */
  ghost predicate AllDone(img: Image, ents: seq<seq<File>>) {
    && |ents| == DIRS && |ents[0]| >= 3
    && forall d :: 0 < d < DIRS ==>
         if ents[d] != [] then DirOk(img.blocks, img.high, ents[0][d - 1], d, ents[d]) else Claims(img.blocks, ents[0][d - 1], d)
  }

  lemma Small(nblocks: nat, args: seq<Arg>)
    requires nblocks <= 3 || nblocks > 10240
    ensures !Fits(nblocks, args)
  {
    hide DirBlocks;
  }

  lemma Nothing(blocks: seq<Content>, pos: nat, args: seq<Arg>, dirs: seq<seq<File>>)
    requires |dirs| == DIRS && |dirs[0]| == 3 && dirs[1] == dirs[2] == dirs[3] == []
    requires forall k :: 0 <= k < 3 ==> |dirs[0][k].direct| == NDIRECT
    ensures Listed(blocks, pos, args, 0, dirs)
  {
  }

  lemma OwnedStart(nblocks: nat, blocks: seq<Content>, args: seq<Arg>)
    requires Layout(nblocks, blocks, 3)
    ensures Owned(blocks, 3, args, 0)
  {
  }

  lemma NoInputNext(blocks: seq<Content>, pos: nat, j: nat)
    requires NoInput(blocks, pos, j)
    ensures NoInput(blocks, pos, j + 1)
  {
  }

  /** Once every input is in place, only the high-water mark decides. */
  lemma FitsAtEnd(blocks: seq<Content>, pos: nat, nblocks: nat, args: seq<Arg>, dirs: seq<seq<File>>)
    requires Listed(blocks, pos, args, |args|, dirs) && 3 < nblocks <= 10240
    requires forall a :: 0 <= a < |args| && args[a].Input? ==> args[a].size < MAXFILESIZE
    ensures Fits(nblocks, args) <==> High(args) < nblocks
  {
    hide DirBlocks, Total;
    RootLong(blocks, pos, args, |args|, dirs);
  }

  /** main. */
  method Format(nblocks: nat, args: seq<Arg>, junk: (nat, nat) -> File) returns (r: Option<Image>, ghost ents: seq<seq<File>>)
    requires ArgsOk(args) && forall d, k :: |junk(d, k).direct| == NDIRECT
    ensures r.Some? <==> Fits(nblocks, args)
    ensures r.Some? ==> Formatted(nblocks, args, r.value, ents) && r.value.high == High(args)
    ensures r.Some? ==> SuperOk(r.value.volume) && ReservedInUse(r.value.volume)
    ensures r.Some? ==> forall b: nat :: BlockIsFree(r.value.volume, b) <==> High(args) <= b < nblocks
  {
    hide Listed, ListOk, FileOk, OneOwner, Owned, FileRun, NoInput, NoRecords, Extends, DirBlocks, DirOk, Need, Fits, AllDone, High;
    ents := [];
    r := None;
    if nblocks <= 3 || nblocks > 10240 { Small(nblocks, args); return; }
    var disk := new Disk(nblocks);
    var dirs := [[junk(0, 0), junk(0, 1), junk(0, 2)], [], [], []];
    Nothing(disk.blocks, disk.pos, args, dirs);
    OwnedStart(nblocks, disk.blocks, args);
    var j, flag, ok := 0, 0, true;
    while j < |args|
      invariant j <= |args| && flag == DirAt(args, j) && disk.nblocks == nblocks
      invariant disk.Valid() && NoInput(disk.blocks, disk.pos, j) && forall d :: NoRecords(disk.blocks, disk.pos, d)
      invariant Owned(disk.blocks, disk.pos, args, j)
      invariant disk.pos == 3 + Total(args, j) && Listed(disk.blocks, disk.pos, args, j, dirs)
      invariant fresh(disk) && forall a :: 0 <= a < j && args[a].Input? ==> args[a].size < MAXFILESIZE
    {
      DirAtOk(args, j);
      if args[j].Switch? {
        ListedSwitch(disk.blocks, disk.pos, args, j, dirs);
        NoInputNext(disk.blocks, disk.pos, j);
        OwnedSwitch(disk.blocks, disk.pos, args, j);
        flag := args[j].dir;
      } else {
        var size := args[j].size;
        RootLong(disk.blocks, disk.pos, args, j, dirs);
        if size >= MAXFILESIZE || |dirs[flag]| + 1 > MAX_DIR_ENTS {
          Refused(nblocks, args, j);
          return;
        }
        ghost var blocks, pos := disk.blocks, disk.pos;
        var f;
        ok, f := disk.WriteFile(junk(flag, |dirs[flag]|), size, j);
        if !ok {
          Refused(nblocks, args, j);
          return;
        }
        ListedKept(blocks, pos, args, j, dirs, disk.blocks, disk.pos);
        ListedAdd(disk.blocks, disk.pos, args, j, dirs, f);
        OwnedFile(blocks, pos, disk.blocks, args, j);
        dirs := dirs[flag := dirs[flag] + [f]];
      }
      j := j + 1;
    }
    RootLong(disk.blocks, disk.pos, args, |args|, dirs);
    FitsAtEnd(disk.blocks, disk.pos, nblocks, args, dirs);
    ok, r, ents := Finish(disk, args, dirs, junk(4, 0));
    if ok { Mountable(r.value.volume, nblocks, args); }
  }

  lemma Mountable(v: Volume, nblocks: nat, args: seq<Arg>)
    requires v.magic == FS_MAGIC && v.nblocks == nblocks <= 10240
    requires forall b: nat :: BlockIsFree(v, b) <==> High(args) <= b < nblocks
    ensures SuperOk(v) && ReservedInUse(v)
  {
    hide Total, DirBlocks;
  }

  /** What the image is for: the k-th input of directory d is found from the root directory, through
      its own directory if it is in one, and reads back block by block. */
  lemma InputReadable(img: Image, args: seq<Arg>, ents: seq<seq<File>>, d: nat, k: nat)
    requires Listed(img.blocks, img.high, args, |args|, ents) && DirOk(img.blocks, img.high, img.root, 0, ents[0])
    requires AllDone(img, ents) && d < DIRS && k < |InputsOf(args, |args|, d)|
    ensures ReadRecords(img.blocks, img.root, 0) == ents[0]
    ensures d > 0 ==> ReadRecords(img.blocks, ents[0][d - 1], 0) == ents[d]
    ensures Base(d) + k < |ents[d]|
    ensures var a := InputsOf(args, |args|, d)[k];
            && a < |args| && args[a].Input?
            && ReadAll(img.blocks, ents[d][Base(d) + k]) == seq(Ceil(args[a].size), i requires 0 <= i => Some(Data(a, i)))
  {
    hide DirOk, ReadRecords, ReadAll, FileOk, InputsOf, Claims;
    ReadDir(img.blocks, img.high, img.root, 0, ents[0]);
    var a := InputsOf(args, |args|, d)[k];
    assert ListOk(img.blocks, img.high, args, InputsOf(args, |args|, d), Base(d), ents[d]);
    assert EntryOk(img.blocks, img.high, args, ents[d][Base(d) + k], a);
    if d > 0 { ReadDir(img.blocks, img.high, ents[0][d - 1], d, ents[d]); }
    ReadBack(img.blocks, img.high, ents[d][Base(d) + k], a, args[a].size);
  }

  // ---------------------------------------------------------------- the partition

  lemma {:induction false} InputListed(args: seq<Arg>, j: nat, a: nat) returns (k: nat)
    requires a < j <= |args| && args[a].Input?
    ensures k < |InputsOf(args, j, DirAt(args, a))| && InputsOf(args, j, DirAt(args, a))[k] == a
    decreases j
  {
    if a == j - 1 {
      k := |InputsOf(args, j - 1, DirAt(args, a))|;
    } else {
      k := InputListed(args, j - 1, a);
    }
  }

  /** Block b below the high-water mark is the one with that owner and number. */
  ghost predicate Holds(img: Image, b: nat, key: (nat, nat, nat)) {
    b < img.high <= |img.blocks| && Key(img.blocks[b]) == key
  }

  ghost predicate Placed(img: Image, key: (nat, nat, nat)) { exists b: nat :: Holds(img, b, key) }

  /** Every block that an input needs is below the high-water mark. */
  lemma InputPlaced(img: Image, args: seq<Arg>, ents: seq<seq<File>>, a: nat)
    requires ArgsOk(args) && Listed(img.blocks, img.high, args, |args|, ents) && a < |args| && args[a].Input?
    ensures forall i: nat :: i < Ceil(args[a].size) ==> Placed(img, (4, a, i))
    ensures Ceil(args[a].size) >= NDIRECT ==> Placed(img, (5, a, 0))
  {
    hide InputsOf, Base, Ceil;
    var d := DirAt(args, a);
    DirAtOk(args, a);
    var k := InputListed(args, |args|, a);
    assert ListOk(img.blocks, img.high, args, InputsOf(args, |args|, d), Base(d), ents[d]);
    var f := ents[d][Base(d) + k];
    assert EntryOk(img.blocks, img.high, args, f, a);
    forall i: nat | i < Ceil(args[a].size) ensures Placed(img, (4, a, i)) {
      assert BlockAt(img.blocks, img.high, f, i, Data(a, i));
      assert Holds(img, Slot(img.blocks, f, i).value, (4, a, i));
    }
    if Ceil(args[a].size) >= NDIRECT { assert Holds(img, f.indirect, (5, a, 0)); }
  }

  lemma DirPlaced(img: Image, f: File, d: nat, ents: seq<File>, i: nat)
    requires DirOk(img.blocks, img.high, f, d, ents) && i < DirBlocks(|ents|)
    ensures Placed(img, (6, d, i))
  {
    assert BlockAt(img.blocks, img.high, f, i, Records(d, i, Chunk(ents, i)));
    assert Holds(img, Slot(img.blocks, f, i).value, (6, d, i));
  }

  /** The blocks that the file system, the inputs and the directories need. */
  ghost predicate NeededKey(args: seq<Arg>, key: (nat, nat, nat)) {
    match key.0
    case 1 => key.1 == 0 && key.2 == 0
    case 2 => key.1 == 0 && key.2 == 0
    case 3 => key.1 == 0 && key.2 == 0
    case 4 => key.1 < |args| && args[key.1].Input? && key.2 < Ceil(args[key.1].size)
    case 5 => key.1 < |args| && args[key.1].Input? && Ceil(args[key.1].size) >= NDIRECT && key.2 == 0
    case 6 => key.1 < DIRS && key.2 < DirBlocks(Count(args, key.1))
    case _ => false
  }

  /** What Format promises of an image. */
  ghost predicate Formatted(nblocks: nat, args: seq<Arg>, img: Image, ents: seq<seq<File>>) {
    && Layout(nblocks, img.blocks, img.high) && OneOwner(img.blocks, img.high)
    && Listed(img.blocks, img.high, args, |args|, ents) && DirOk(img.blocks, img.high, img.root, 0, ents[0])
    && AllDone(img, ents) && Owned(img.blocks, img.high, args, |args|)
  }

  /** The partition: of the blocks below the high-water mark each is one that is needed, and each that
      is needed is exactly one of them. */
  lemma Partition(nblocks: nat, args: seq<Arg>, img: Image, ents: seq<seq<File>>, key: (nat, nat, nat))
    requires ArgsOk(args) && Formatted(nblocks, args, img, ents)
    ensures NeededKey(args, key) <==> Placed(img, key)
    ensures forall b: nat, c: nat :: Holds(img, b, key) && Holds(img, c, key) ==> b == c
  {
    hide Ceil, DirBlocks, Count, Listed, ListOk, AllDone, DirOk, Slot;
    if b: nat :| Holds(img, b, key) {
      assert Needed(img.blocks[b], args, |args|);
    }
    if NeededKey(args, key) { NeededPlaced(nblocks, args, img, ents, key); }
  }

  lemma NeededPlaced(nblocks: nat, args: seq<Arg>, img: Image, ents: seq<seq<File>>, key: (nat, nat, nat))
    requires ArgsOk(args) && Formatted(nblocks, args, img, ents) && NeededKey(args, key)
    ensures Placed(img, key)
  {
    hide Ceil, DirBlocks, Count, Listed, ListOk, DirOk, OneOwner, Owned;
    if key.0 <= 3 {
      assert Holds(img, key.0 - 1, key);
    } else if key.0 <= 5 {
      InputPlaced(img, args, ents, key.1);
    } else {
      DirLength(img, args, ents, key.1);
      DirPlaced(img, if key.1 == 0 then img.root else ents[0][key.1 - 1], key.1, ents[key.1], key.2);
    }
  }

  lemma DirLength(img: Image, args: seq<Arg>, ents: seq<seq<File>>, d: nat)
    requires Listed(img.blocks, img.high, args, |args|, ents) && d < DIRS
    ensures |ents| == DIRS && |ents[d]| == Count(args, d) && (ents[d] == [] ==> DirBlocks(Count(args, d)) == 0)
  {
    hide EntryOk;
    assert ListOk(img.blocks, img.high, args, InputsOf(args, |args|, d), Base(d), ents[d]);
  }
}
