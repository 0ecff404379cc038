/** What the submitted blocks of a direct write amount to on disk. */
module DioCoverage {
  import opened Common
  import opened DioBlocks
  import opened DioSpec
  import opened DioSections
  import opened DioWalk

  /** A request that met no hole has a disk block for everything it walked. */
  lemma {:induction false} NoHoles(disk: imap<nat, int>, start: nat, mem: seq<Slot>, k: nat)
    requires k <= |mem| && Holes(disk, start, mem, k) == []
    ensures forall b :: start <= b < start + k ==> b in disk
  {
    if k > 0 {
      NoHoles(disk, start, mem, k - 1);
    }
  }

  /** Inside one filesystem block, disk blocks follow file blocks. */
  lemma {:induction false} ScaleSibling(fsMap: imap<nat, int>, f: nat, b: nat, c: nat)
    requires f >= 1 && b in Scale(fsMap, f) && b - b % f <= c < b - b % f + f
    ensures c in Scale(fsMap, f) && Scale(fsMap, f)[c] == Scale(fsMap, f)[b] + (c - b)
  {
    var q, r := b / f, c - (b - b % f);
    assert b == q * f + b % f;
    DivModUnique(c, q, r, f);
    assert Scale(fsMap, f)[c] == fsMap[q] * f + r;
  }

  /** Whatever get_block gives maps every block up to where it is asked next. */
  lemma {:induction false} AnswerMaps(rq: Request, fs: imap<nat, Reply>, b: nat)
    requires rq.Valid() && Answer(rq, fs, b).bh.mapped
    ensures b in rq.disk && Maps(rq.disk, b, NextAsk(rq, fs, b) - b, rq.disk[b])
    ensures NextAsk(rq, fs, b) % rq.fsBlocks == 0
  {
    var bh := Answer(rq, fs, b).bh;
    ExtentFrom(rq.disk, rq.fsBlocks, b, bh.count, bh.blocknr);
  }

  /** A request that ends inside a new filesystem block has a disk block for what follows. */
  lemma {:induction false} TailMapped(rq: Request, fs: imap<nat, Reply>, k: nat)
    requires rq.Valid() && TailNew(rq, fs, k) && (rq.start + k) % rq.fsBlocks != 0
    ensures rq.start + k in rq.disk
  {
    var a, end := LastAsk(rq, fs, rq.start, rq.start + k), rq.start + k;
    AnswerMaps(rq, fs, a);
    assert end < NextAsk(rq, fs, a);
  }

  lemma {:induction false} RunLength(log: seq<BlockIo>, disk: int, page: Page, off: nat, len: nat)
    ensures |Run(log, disk, page, off, len)| == |log| + len
  {
    if len > 0 {
      RunLength(log, disk, page, off, len - 1);
    }
  }

  /** Zeroes are written in front of a request just if it walked something, get_block gave its
      first filesystem block as new and it starts inside that block; they fill that block. */
  lemma {:induction false} HeadExactly(rq: Request, fs: imap<nat, Reply>, k: nat)
    requires rq.Valid()
    ensures |rq.HeadZeroes(HeadNew(rq, fs, k))|
            == if k > 0 && Answer(rq, fs, rq.start).bh.isNew then rq.start % rq.fsBlocks else 0
  {
    if HeadNew(rq, fs, k) {
      AnswerMaps(rq, fs, rq.start);
      RunLength([], rq.disk[rq.start] - rq.start % rq.fsBlocks, ZERO_PAGE, 0, rq.start % rq.fsBlocks);
    }
  }

  /** They are written behind it just if it walked something, the extent that get_block gave
      last is new and the request ends inside a filesystem block; they fill that block. */
  lemma {:induction false} TailExactly(rq: Request, fs: imap<nat, Reply>, k: nat, log: seq<BlockIo>)
    requires rq.Valid()
    ensures var r := (rq.start + k) % rq.fsBlocks;
            |rq.TailZeroes(log, TailNew(rq, fs, k), rq.start + k)| - |log|
            == if k > 0 && Answer(rq, fs, LastAsk(rq, fs, rq.start, rq.start + k)).bh.isNew && r != 0
               then rq.fsBlocks - r else 0
  {
    var end := rq.start + k;
    if TailNew(rq, fs, k) && end % rq.fsBlocks != 0 {
      TailMapped(rq, fs, k);
      RunLength(log, rq.disk[end], ZERO_PAGE, 0, rq.fsBlocks - end % rq.fsBlocks);
    }
  }

  /** A read is never given new blocks, so it submits just the transfers of its mapped blocks. */
  lemma {:induction false} ReadSubmits(rq: Request, fs: imap<nat, Reply>, mem: seq<Slot>, k: nat)
    requires rq.Valid() && !rq.isWrite && k <= |mem|
    ensures Submission(rq, fs, mem, k) == Transfers([], rq.disk, rq.start, mem, k)
  {
    assert !HeadNew(rq, fs, k) && !TailNew(rq, fs, k);
  }

  /** The first file block that a request writes, its leading zeroes included. */
  ghost function First(rq: Request, fs: imap<nat, Reply>, k: nat): (b: int)
    requires rq.Valid()
  {
    if HeadNew(rq, fs, k) then rq.start - rq.start % rq.fsBlocks else rq.start
  }

  /** One past the last file block that it writes, its trailing zeroes included. */
  ghost function Last(rq: Request, fs: imap<nat, Reply>, k: nat): (b: int)
    requires rq.Valid()
  {
    var end := rq.start + k;
    if TailNew(rq, fs, k) && end % rq.fsBlocks != 0 then end + (rq.fsBlocks - end % rq.fsBlocks) else end
  }

  /** File block `b` goes to its own disk block, from the user's memory if the request covers
      it and from the zero page otherwise. */
  ghost predicate BlockWritten(rq: Request, mem: seq<Slot>, k: nat, b: nat, io: BlockIo)
    requires k <= |mem|
  {
    && b in rq.disk && io.disk == rq.disk[b]
    && if rq.start <= b < rq.start + k then io.slot == mem[b - rq.start] else io.slot.page == ZERO_PAGE
  }

  /** The log writes file blocks [lo, lo + |log|), each exactly once and in order. */
  ghost predicate Writes(rq: Request, mem: seq<Slot>, k: nat, lo: int, log: seq<BlockIo>)
    requires k <= |mem|
  {
    0 <= lo && forall i :: 0 <= i < |log| ==> BlockWritten(rq, mem, k, lo + i, log[i])
  }

  /** A log stays in step with the file while zeroes add the next blocks. */
  lemma {:induction false} ZeroesWrite(rq: Request, mem: seq<Slot>, k: nat, lo: int, log: seq<BlockIo>, disk: int,
                                       len: nat)
    requires k <= |mem| && Writes(rq, mem, k, lo, log)
    requires lo + |log| + len <= rq.start || rq.start + k <= lo + |log|
    requires Maps(rq.disk, lo + |log|, len, disk)
    ensures Writes(rq, mem, k, lo, Run(log, disk, ZERO_PAGE, 0, len))
    ensures |Run(log, disk, ZERO_PAGE, 0, len)| == |log| + len
  {
    if len > 0 {
      ZeroesWrite(rq, mem, k, lo, log, disk, len - 1);
      var b := lo + |log| + len - 1;
      assert b in rq.disk && rq.disk[b] == disk + (b - (lo + |log|));
      WritesSnoc(rq, mem, k, lo, Run(log, disk, ZERO_PAGE, 0, len - 1),
                 BlockIo(disk + len - 1, Slot(ZERO_PAGE, 0 + len - 1)));
    }
  }

  lemma {:induction false} WritesSnoc(rq: Request, mem: seq<Slot>, k: nat, lo: int, log: seq<BlockIo>, io: BlockIo)
    requires k <= |mem| && Writes(rq, mem, k, lo, log) && BlockWritten(rq, mem, k, lo + |log|, io)
    ensures Writes(rq, mem, k, lo, log + [io])
  {
    forall i | 0 <= i < |log| + 1
      ensures BlockWritten(rq, mem, k, lo + i, (log + [io])[i])
    {
    }
  }

  /** Part of the filesystem block that holds file block `b`, mapped from its first block on. */
  lemma {:induction false} SiblingsMapped(fsMap: imap<nat, int>, f: nat, b: nat, c: nat, n: nat)
    requires f >= 1 && b in Scale(fsMap, f) && b - b % f <= c && c + n <= b - b % f + f
    ensures Maps(Scale(fsMap, f), c, n, Scale(fsMap, f)[b] + (c - b))
  {
    forall x | c <= x < c + n
      ensures x in Scale(fsMap, f) && Scale(fsMap, f)[x] == Scale(fsMap, f)[b] + (c - b) + (x - c)
    {
      ScaleSibling(fsMap, f, b, x);
    }
  }

  lemma {:induction false} HeadWrites(rq: Request, isNew: bool, fsMap: imap<nat, int>, mem: seq<Slot>, k: nat)
    requires rq.fsBlocks >= 1 && rq.disk == Scale(fsMap, rq.fsBlocks) && k <= |mem| && (isNew ==> rq.start in rq.disk)
    ensures var lo := if isNew then rq.start - rq.start % rq.fsBlocks else rq.start;
            Writes(rq, mem, k, lo, rq.HeadZeroes(isNew)) && lo + |rq.HeadZeroes(isNew)| == rq.start
  {
    if isNew {
      var r := rq.start % rq.fsBlocks;
      SiblingsMapped(fsMap, rq.fsBlocks, rq.start, rq.start - r, r);
      ZeroesWrite(rq, mem, k, rq.start - r, [], rq.disk[rq.start] - r, r);
    }
  }

  lemma {:induction false} TailWrites(rq: Request, isNew: bool, fsMap: imap<nat, int>, mem: seq<Slot>, k: nat,
                   lo: int, log: seq<BlockIo>)
    requires rq.fsBlocks >= 1 && rq.disk == Scale(fsMap, rq.fsBlocks) && k <= |mem|
    requires isNew && (rq.start + k) % rq.fsBlocks != 0 ==> rq.start + k in rq.disk
    requires Writes(rq, mem, k, lo, log) && lo + |log| == rq.start + k
    ensures var all, end := rq.TailZeroes(log, isNew, rq.start + k), rq.start + k;
            && Writes(rq, mem, k, lo, all)
            && lo + |all| == if isNew && end % rq.fsBlocks != 0 then end + (rq.fsBlocks - end % rq.fsBlocks) else end
  {
    var end := rq.start + k;
    if isNew && end % rq.fsBlocks != 0 {
      var n := rq.fsBlocks - end % rq.fsBlocks;
      SiblingsMapped(fsMap, rq.fsBlocks, end, end, n);
      ZeroesWrite(rq, mem, k, lo, log, rq.disk[end], n);
    }
  }

  lemma {:induction false} DataWrites(rq: Request, mem: seq<Slot>, k: nat, j: nat, lo: int, log: seq<BlockIo>)
    requires j <= k <= |mem| && Writes(rq, mem, k, lo, log) && lo + |log| == rq.start
    requires forall b :: rq.start <= b < rq.start + k ==> b in rq.disk
    ensures var all := Transfers(log, rq.disk, rq.start, mem, j);
            Writes(rq, mem, k, lo, all) && |all| == |log| + j
  {
    if j > 0 {
      DataWrites(rq, mem, k, j - 1, lo, log);
      WritesSnoc(rq, mem, k, lo, Transfers(log, rq.disk, rq.start, mem, j - 1),
                 BlockIo(rq.disk[rq.start + j - 1], mem[j - 1]));
    }
  }

  /** Exact coverage: over a layout of whole filesystem blocks, what a write submits is the
      contiguous file range from First to Last, every block of it once and in order, on the
      disk block that the layout gives it. */
  lemma {:induction false} WriteCoverage(rq: Request, fs: imap<nat, Reply>, fsMap: imap<nat, int>, mem: seq<Slot>,
                                         k: nat)
    requires rq.Valid() && rq.disk == Scale(fsMap, rq.fsBlocks) && k <= |mem|
    requires Holes(rq.disk, rq.start, mem, k) == []
    ensures var log := Submission(rq, fs, mem, k);
            Writes(rq, mem, k, First(rq, fs, k), log) && First(rq, fs, k) + |log| == Last(rq, fs, k)
  {
    var lo, head := First(rq, fs, k), rq.HeadZeroes(HeadNew(rq, fs, k));
    if HeadNew(rq, fs, k) {
      AnswerMaps(rq, fs, rq.start);
    }
    HeadWrites(rq, HeadNew(rq, fs, k), fsMap, mem, k);
    NoHoles(rq.disk, rq.start, mem, k);
    DataWrites(rq, mem, k, k, lo, head);
    if TailNew(rq, fs, k) && (rq.start + k) % rq.fsBlocks != 0 {
      TailMapped(rq, fs, k);
    }
    TailWrites(rq, TailNew(rq, fs, k), fsMap, mem, k, lo, Transfers(head, rq.disk, rq.start, mem, k));
  }

  /** If the filesystem gives different file blocks different disk blocks, no disk block is
      written twice, not even by the zero padding. */
  lemma {:induction false} WrittenOnce(rq: Request, fsMap: imap<nat, int>, mem: seq<Slot>, k: nat, lo: int,
                                       log: seq<BlockIo>, i: nat, j: nat)
    requires rq.fsBlocks >= 1 && rq.disk == Scale(fsMap, rq.fsBlocks) && k <= |mem|
    requires forall a, b :: a in fsMap && b in fsMap && fsMap[a] == fsMap[b] ==> a == b
    requires Writes(rq, mem, k, lo, log) && i < |log| && j < |log|
    requires log[i].disk == log[j].disk
    ensures i == j
  {
    assert BlockWritten(rq, mem, k, lo + i, log[i]) && BlockWritten(rq, mem, k, lo + j, log[j]);
    ScaleDistinct(fsMap, rq.fsBlocks, lo + i, lo + j);
  }

  lemma {:induction false} ScaleDistinct(fsMap: imap<nat, int>, f: nat, a: nat, b: nat)
    requires f >= 1 && a in Scale(fsMap, f) && b in Scale(fsMap, f) && Scale(fsMap, f)[a] == Scale(fsMap, f)[b]
    requires forall x, y :: x in fsMap && y in fsMap && fsMap[x] == fsMap[y] ==> x == y
    ensures a == b
  {
    var x, y := a / f, b / f;
    assert fsMap[x] * f + a % f == fsMap[y] * f + b % f;
    DigitsUnique(fsMap[x], a % f, fsMap[y], b % f, f);
    SameDigits(a, b, f);
  }

  lemma {:induction false} SameDigits(a: nat, b: nat, f: nat)
    requires f >= 1 && a / f == b / f && a % f == b % f
    ensures a == b
  {
    assert a == (a / f) * f + a % f && b == (b / f) * f + b % f;
  }

  lemma {:induction false} DigitsUnique(p: int, r: nat, q: int, s: nat, f: nat)
    requires f >= 1 && r < f && s < f && p * f + r == q * f + s
    ensures p == q && r == s
  {
    MulBound(p - q, f);
    assert (p - q) * f == p * f - q * f;
  }

  /** get_block finds a mapped extent for file block `b`, as `fsMap` lays the file out. */
  ghost predicate Provides(fs: imap<nat, Reply>, fsMap: imap<nat, int>, f: nat, b: nat)
    requires f >= 1
  {
    var x := b / f;
    && x in fs && fs[x].ret == 0 && fs[x].bh.mapped && fs[x].bh.count >= 1
    && forall i :: x <= i < x + fs[x].bh.count ==> i in fsMap && fsMap[i] == fs[x].bh.blocknr + (i - x)
  }

  /** So it does for every block of a request. */
  ghost predicate AllProvided(rq: Request, fs: imap<nat, Reply>, fsMap: imap<nat, int>)
    requires rq.Valid()
  {
    forall open: bool {:trigger Open(open)} :: Open(open) ==>
      forall b :: rq.start <= b < rq.start + |rq.Memory()| ==> Provides(fs, fsMap, rq.fsBlocks, b)
  }

  /** A direct write from start to end: over any layout of whole filesystem blocks, whatever
      extents the filesystem reports and however bio_add_page splits the bios, the bios submitted
      write the contiguous file range from First to Last, each block once, in order and at its
      own disk block, user data inside the request and zeroes around it; no bio is empty, and each
      is contiguous in the file as well.  First and Last leave the request only where get_block
      reported a filesystem block as new.  If the filesystem provides every block, the whole
      request is written and no error is returned. */
  method DirectWrite(rq: Request, fs: imap<nat, Reply>, ghost fsMap: imap<nat, int>)
    returns (ret: int, result: nat, fallback: bool, bios: seq<Bio>)
    requires rq.Valid() && rq.isWrite && rq.disk == Scale(fsMap, rq.fsBlocks)
    ensures result <= |rq.Memory()| && AllContiguous(bios)
    ensures Writes(rq, rq.Memory(), result, First(rq, fs, result), Flatten(bios))
    ensures First(rq, fs, result) + |Flatten(bios)| == Last(rq, fs, result)
    ensures ret == 0 && !fallback ==> result == |rq.Memory()|
    ensures AllProvided(rq, fs, fsMap) ==> ret == 0 && !fallback
  {
    var dio := new Dio(rq, fs);
    ret, result, fallback := dio.DirectIO();
    bios := dio.sections.submitted;
    WriteCoverage(rq, fs, fsMap, dio.memory, result);
    if ret != 0 || fallback {
      if AllProvided(rq, fs, fsMap) {
        ProvidedGoesOn(dio, fsMap, ret);
      }
    }
  }

  /** A direct read from start to end: the bios move just the mapped blocks of the file, each to
      its own memory, and the holes are zeroed; it stops short without an error only at the end
      of the file. */
  method DirectRead(rq: Request, fs: imap<nat, Reply>)
    returns (ret: int, result: nat, fallback: bool, bios: seq<Bio>, zeroed: seq<Slot>)
    requires rq.Valid() && !rq.isWrite
    ensures result <= |rq.Memory()| && AllContiguous(bios)
    ensures Flatten(bios) == Transfers([], rq.disk, rq.start, rq.Memory(), result)
    ensures zeroed == Holes(rq.disk, rq.start, rq.Memory(), result)
    ensures ret == 0 && !fallback && result < |rq.Memory()| ==>
              rq.start + result >= rq.sizeBlocks && rq.start + result !in rq.disk
  {
    var dio := new Dio(rq, fs);
    ret, result, fallback := dio.DirectIO();
    bios, zeroed := dio.sections.submitted, dio.zeroed;
    ReadSubmits(rq, fs, dio.memory, result);
  }

  lemma {:induction false} ProvidedGoesOn(dio: Dio, fsMap: imap<nat, int>, ret: int)
    requires dio.rq.Valid() && dio.rq.isWrite && dio.rq.disk == Scale(fsMap, dio.rq.fsBlocks)
    requires AllProvided(dio.rq, dio.fs, fsMap)
    requires dio.rq.start <= dio.blockInFile < dio.rq.start + |dio.rq.Memory()|
    ensures !dio.Stops(ret) || ret == 0
    ensures !dio.Stops(ENOTBLK)
  {
    assert Open(true);
    assert Provides(dio.fs, fsMap, dio.rq.fsBlocks, dio.blockInFile);
    var x := dio.blockInFile / dio.rq.fsBlocks;
    ScaledExtent(fsMap, dio.rq.fsBlocks, x, dio.fs[x].bh.count, dio.fs[x].bh.blocknr);
    assert Answer(dio.rq, dio.fs, dio.blockInFile) == dio.fs[x];
  }

  /** What a read does to the first `k` blocks of memory: each is filled from its disk block or
      zeroed, never both. */
  lemma {:induction false} ReadCovers(disk: imap<nat, int>, start: nat, mem: seq<Slot>, k: nat, i: nat)
    requires i < k <= |mem|
    ensures |Transfers([], disk, start, mem, k)| + |Holes(disk, start, mem, k)| == k
    ensures if start + i in disk then BlockIo(disk[start + i], mem[i]) in Transfers([], disk, start, mem, k)
            else mem[i] in Holes(disk, start, mem, k)
  {
    if k > 1 {
      ReadCovers(disk, start, mem, k - 1, if i < k - 1 then i else 0);
    }
  }
}
