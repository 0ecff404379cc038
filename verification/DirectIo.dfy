/** Blocks, pages and bios of direct I/O (fs/direct-io.c), in units of dio blocks.

    A bio records only a first disk block and a list of page sections; the device places
    the sections on consecutive disk blocks.  `Blocks` spells that placement out, one dio
    block at a time, so that what was submitted can be compared with what was asked for. */
module DioBlocks {

  type Page = nat

  const ZERO_PAGE: Page := 0

  /** One dio block's worth of memory: block number `off` of a page. */
  datatype Slot = Slot(page: Page, off: nat)

  /** The transfer of one dio block between a disk block and a slot of memory. */
  datatype BlockIo = BlockIo(disk: int, slot: Slot)

  /** A section of a page, as held by a bio (struct bio_vec), with the file block at which it
      was begun (cur_page_fs_offset). */
  datatype Vec = Vec(page: Page, off: nat, len: nat, file: int)

  /** A bio: its first disk block, its first file block (logical_offset_in_bio) and its
      sections. */
  datatype Bio = Bio(start: int, logical: int, vecs: seq<Vec>)

  /** `log` followed by `len` consecutive disk blocks from `disk` on, to or from consecutive
      blocks of a page. */
  function Run(log: seq<BlockIo>, disk: int, page: Page, off: nat, len: nat): seq<BlockIo>
  {
    if len == 0 then log
    else Run(log, disk, page, off, len - 1) + [BlockIo(disk + len - 1, Slot(page, off + len - 1))]
  }

  lemma {:induction false} RunSplit(log: seq<BlockIo>, disk: int, page: Page, off: nat, a: nat, b: nat)
    ensures Run(log, disk, page, off, a + b) == Run(Run(log, disk, page, off, a), disk + a, page, off + a, b)
  {
    if b > 0 {
      RunSplit(log, disk, page, off, a, b - 1);
    }
  }

  /** bi_size, in dio blocks. */
  function Size(vecs: seq<Vec>): nat
  {
    if vecs == [] then 0 else Size(vecs[..|vecs| - 1]) + vecs[|vecs| - 1].len
  }

  /** The sections of a bio follow each other in the file as they do on disk. */
  ghost predicate Contiguous(logical: int, vecs: seq<Vec>)
  {
    if vecs == [] then true
    else
      var init, v := vecs[..|vecs| - 1], vecs[|vecs| - 1];
      Contiguous(logical, init) && v.file == logical + Size(init)
  }

  lemma {:induction false} ContiguousSnoc(logical: int, vecs: seq<Vec>, v: Vec)
    requires Contiguous(logical, vecs) && v.file == logical + Size(vecs)
    ensures Contiguous(logical, vecs + [v])
  {
    assert (vecs + [v])[..|vecs|] == vecs;
  }

  /** `log` followed by the blocks of page sections placed from disk block `start` on. */
  function Placed(log: seq<BlockIo>, start: int, vecs: seq<Vec>): seq<BlockIo>
  {
    if vecs == [] then log
    else
      var init, v := vecs[..|vecs| - 1], vecs[|vecs| - 1];
      Run(Placed(log, start, init), start + Size(init), v.page, v.off, v.len)
  }

  /** Everything a list of submitted bios moves, in submission order. */
  function Flatten(bios: seq<Bio>): seq<BlockIo>
  {
    if bios == [] then []
    else Placed(Flatten(bios[..|bios| - 1]), bios[|bios| - 1].start, bios[|bios| - 1].vecs)
  }

  lemma {:induction false} FlattenSnoc(bios: seq<Bio>, b: Bio)
    ensures Flatten(bios + [b]) == Placed(Flatten(bios), b.start, b.vecs)
  {
    assert (bios + [b])[..|bios|] == bios;
  }

  /** Adding a section to a bio adds its run at the bio's end on disk. */
  lemma {:induction false} PlacedSnoc(log: seq<BlockIo>, b: Bio, v: Vec)
    ensures Size(b.vecs + [v]) == Size(b.vecs) + v.len
    ensures Placed(log, b.start, b.vecs + [v])
            == Run(Placed(log, b.start, b.vecs), b.start + Size(b.vecs), v.page, v.off, v.len)
  {
    assert (b.vecs + [v])[..|b.vecs|] == b.vecs;
  }
}

/** What a direct I/O request is supposed to move, independently of how the code walks it. */
module DioSpec {
  import opened Common
  import opened DioBlocks

  /** One iovec: `count` dio blocks starting `first` blocks into pages[0]. */
  datatype Segment = Segment(first: nat, count: nat, pages: seq<Page>)

  /** The request as the filesystem and the user see it.
      `disk` maps the file's dio blocks to disk blocks, holes being left out; a filesystem
      block is `fsBlocks` dio blocks (1 << blkfactor), a page is `pageBlocks` dio blocks, and
      the file has `sizeBlocks` dio blocks. */
  datatype Request = Request(isWrite: bool, start: nat, segs: seq<Segment>, fsBlocks: nat,
                             pageBlocks: nat, sizeBlocks: nat, disk: imap<nat, int>)
  {
    ghost predicate Valid() {
      && fsBlocks >= 1
      && pageBlocks >= 1
      && forall i :: 0 <= i < |segs| ==> SegmentValid(segs[i], pageBlocks)
    }

    /** The user memory of the request, block by block. */
    ghost function Memory(): seq<Slot>
      requires Valid()
    {
      SegmentsSlots(segs, pageBlocks)
    }

    /** Zeroes for the part of the first filesystem block that precedes the request, if
        get_block reported that block as new. */
    ghost function HeadZeroes(isNew: bool): seq<BlockIo>
      requires fsBlocks >= 1
    {
      if isNew && start in disk
      then Run([], disk[start] - start % fsBlocks, ZERO_PAGE, 0, start % fsBlocks)
      else []
    }

    /** `log` followed by zeroes for the part of the last filesystem block that follows file
        block `end`, if get_block reported that block as new. */
    ghost function TailZeroes(log: seq<BlockIo>, isNew: bool, end: nat): seq<BlockIo>
      requires fsBlocks >= 1
    {
      if isNew && end in disk && end % fsBlocks != 0
      then Run(log, disk[end], ZERO_PAGE, 0, fsBlocks - end % fsBlocks)
      else log
    }
  }

  /** `log` followed by the transfers of the first `k` blocks: block i of the request, at
      disk[start + i], to or from mem[i]; holes of a read move nothing. */
  ghost function Transfers(log: seq<BlockIo>, disk: imap<nat, int>, start: nat, mem: seq<Slot>, k: nat): seq<BlockIo>
    requires k <= |mem|
  {
    if k == 0 then log
    else
      var before := Transfers(log, disk, start, mem, k - 1);
      if start + k - 1 in disk then before + [BlockIo(disk[start + k - 1], mem[k - 1])] else before
  }

  /** The slots among the first `k` that a read zeroes because their file block is a hole. */
  ghost function Holes(disk: imap<nat, int>, start: nat, mem: seq<Slot>, k: nat): seq<Slot>
    requires k <= |mem|
  {
    if k == 0 then []
    else
      var before := Holes(disk, start, mem, k - 1);
      if start + k - 1 in disk then before else before + [mem[k - 1]]
  }

  /** The pages cover the segment. */
  ghost predicate SegmentValid(s: Segment, pageBlocks: nat) {
    && s.first < pageBlocks
    && s.first + s.count <= |s.pages| * pageBlocks
  }

  /** The memory of one segment: block j is block (first + j) % pageBlocks of page
      (first + j) / pageBlocks. */
  ghost function SegmentSlots(s: Segment, pageBlocks: nat): (mem: seq<Slot>)
    requires SegmentValid(s, pageBlocks)
  {
    seq(s.count, j requires 0 <= j < s.count =>
      PageIndexBound(s.first + j, |s.pages|, pageBlocks);
      Slot(s.pages[(s.first + j) / pageBlocks], (s.first + j) % pageBlocks))
  }

  ghost function SegmentsSlots(segs: seq<Segment>, pageBlocks: nat): (mem: seq<Slot>)
    requires forall i :: 0 <= i < |segs| ==> SegmentValid(segs[i], pageBlocks)
  {
    if segs == [] then []
    else SegmentsSlots(segs[..|segs| - 1], pageBlocks) + SegmentSlots(segs[|segs| - 1], pageBlocks)
  }

  /** dio blocks [b, b + n) lie on consecutive disk blocks from `next` on. */
  predicate Maps(disk: imap<nat, int>, b: nat, n: nat, next: int)
  {
    forall x :: b <= x < b + n ==> x in disk && disk[x] == next + (x - b)
  }

  /** Memory [k, k + n) is blocks [off, off + n) of one page. */
  ghost predicate InPage(mem: seq<Slot>, k: nat, n: nat, page: Page, off: nat)
  {
    k + n <= |mem| && forall x :: k <= x < k + n ==> mem[x] == Slot(page, off + (x - k))
  }

  /** The get_block contract: filesystem blocks [fs, fs + count) at disk blocks from `blocknr`
      on, both counted in filesystem blocks. */
  predicate Extent(disk: imap<nat, int>, f: nat, fs: nat, count: nat, blocknr: int)
  {
    count >= 1 && Maps(disk, fs * f, count * f, blocknr * f)
  }

  /** Walking `n` mapped blocks of one page moves exactly one run of disk blocks. */
  lemma {:induction false} TransfersRun(log: seq<BlockIo>, disk: imap<nat, int>, start: nat, mem: seq<Slot>, k: nat,
                                        page: Page, off: nat, n: nat, next: int)
    requires InPage(mem, k, n, page, off) && Maps(disk, start + k, n, next)
    ensures Transfers(log, disk, start, mem, k + n) == Run(Transfers(log, disk, start, mem, k), next, page, off, n)
    ensures Holes(disk, start, mem, k + n) == Holes(disk, start, mem, k)
  {
    if n > 0 {
      TransfersRun(log, disk, start, mem, k, page, off, n - 1, next);
      var b := start + k + n - 1;
      assert b in disk && disk[b] == next + (n - 1) && mem[k + n - 1] == Slot(page, off + (n - 1));
    }
  }

  lemma {:induction false} PageIndexBound(k: nat, n: nat, pageBlocks: nat)
    requires pageBlocks >= 1 && k < n * pageBlocks
    ensures 0 <= k / pageBlocks < n
  {
  }

  lemma {:induction false} DivModShift(a: nat, r: nat, f: nat)
    requires f >= 1
    ensures (a * f + r) / f == a + r / f
    ensures (a * f + r) % f == r % f
  {
    var q := r / f;
    assert a * f + r == (a + q) * f + r % f;
    DivModUnique(a * f + r, a + q, r % f, f);
  }

  /** An extent cut at dio block `b`: it maps every dio block up to its end, and it ends on a
      filesystem block boundary. */
  lemma {:induction false} ExtentFrom(disk: imap<nat, int>, f: nat, b: nat, count: nat, blocknr: int)
    requires f >= 1 && Extent(disk, f, b / f, count, blocknr)
    ensures b % f < count * f
    ensures Maps(disk, b, count * f - b % f, blocknr * f + b % f)
    ensures (b + (count * f - b % f)) % f == 0
  {
    MulBound(count, f);
    assert (b / f) * f == b - b % f;
    var n := count * f - b % f;
    assert b + n == (b / f + count) * f;
    DivModUnique(b + n, b / f + count, 0, f);
  }

  /** The dio-block layout of a file whose filesystem blocks are laid out by `fsMap`. */
  ghost function Scale(fsMap: imap<nat, int>, f: nat): imap<nat, int>
    requires f >= 1
  {
    imap b: nat | b / f in fsMap :: fsMap[b / f] * f + b % f
  }

  /** A filesystem that answers consistently with `fsMap` meets the get_block contract for
      the scaled layout. */
  lemma {:induction false} ScaledExtent(fsMap: imap<nat, int>, f: nat, fs: nat, count: nat, blocknr: int)
    requires f >= 1 && count >= 1
    requires forall i :: fs <= i < fs + count ==> i in fsMap && fsMap[i] == blocknr + (i - fs)
    ensures Extent(Scale(fsMap, f), f, fs, count, blocknr)
  {
    forall x | fs * f <= x < fs * f + count * f
      ensures x in Scale(fsMap, f) && Scale(fsMap, f)[x] == blocknr * f + (x - fs * f)
    {
      ScaledBlock(fsMap, f, fs, count, blocknr, x - fs * f);
    }
  }

  lemma {:induction false} ScaledBlock(fsMap: imap<nat, int>, f: nat, fs: nat, count: nat, blocknr: int, y: nat)
    requires f >= 1 && y < count * f
    requires forall i :: fs <= i < fs + count ==> i in fsMap && fsMap[i] == blocknr + (i - fs)
    ensures fs * f + y in Scale(fsMap, f) && Scale(fsMap, f)[fs * f + y] == blocknr * f + y
  {
    PageIndexBound(y, count, f);
    DivModShift(fs, y, f);
    Rescale(blocknr, y, f);
    var i := fs + y / f;
    assert i in fsMap && fsMap[i] == blocknr + y / f;
  }

  lemma {:induction false} Rescale(a: int, x: nat, f: nat)
    requires f >= 1
    ensures (a + x / f) * f + x % f == a * f + x
  {
    assert (a + x / f) * f == a * f + (x / f) * f;
  }

  lemma {:induction false} SegmentAt(s: Segment, pageBlocks: nat, i: nat, off: nat, j: nat)
    requires SegmentValid(s, pageBlocks)
    requires i * pageBlocks + off == s.first + j && off < pageBlocks && j < s.count
    ensures i < |s.pages| && SegmentSlots(s, pageBlocks)[j] == Slot(s.pages[i], off)
  {
    PageIndexBound(s.first + j, |s.pages|, pageBlocks);
    DivModUnique(s.first + j, i, off, pageBlocks);
  }

  /** The next `n` blocks of a segment lie in one page. */
  lemma {:induction false} SegmentInPage(s: Segment, pageBlocks: nat, i: nat, off: nat, j: nat, n: nat)
    requires SegmentValid(s, pageBlocks)
    requires i * pageBlocks + off == s.first + j && off + n <= pageBlocks && j + n <= s.count && n > 0
    ensures i < |s.pages| && InPage(SegmentSlots(s, pageBlocks), j, n, s.pages[i], off)
  {
    SegmentAt(s, pageBlocks, i, off, j);
    var mem := SegmentSlots(s, pageBlocks);
    forall x | j <= x < j + n
      ensures mem[x] == Slot(s.pages[i], off + (x - j))
    {
      SegmentAt(s, pageBlocks, i, off + (x - j), x);
    }
  }

  /** The same, seen from the request's memory, where the segment begins at `base`. */
  lemma {:induction false} SegmentInMemory(mem: seq<Slot>, base: nat, s: Segment, pageBlocks: nat, i: nat, off: nat,
                                           j: nat, n: nat)
    requires SegmentValid(s, pageBlocks) && base + s.count <= |mem|
    requires mem[base..base + s.count] == SegmentSlots(s, pageBlocks)
    requires i * pageBlocks + off == s.first + j && off + n <= pageBlocks && j + n <= s.count && n > 0
    ensures i < |s.pages| && InPage(mem, base + j, n, s.pages[i], off)
  {
    SegmentInPage(s, pageBlocks, i, off, j, n);
    var slots := SegmentSlots(s, pageBlocks);
    forall x | base + j <= x < base + j + n
      ensures mem[x] == Slot(s.pages[i], off + (x - (base + j)))
    {
      assert mem[base..base + s.count][x - base] == slots[x - base];
    }
  }

  /** The memory of segment `i` stands in the request's memory after that of the earlier ones. */
  lemma {:induction false} SegmentsSplit(segs: seq<Segment>, pageBlocks: nat, i: nat)
    requires i < |segs|
    requires forall k :: 0 <= k < |segs| ==> SegmentValid(segs[k], pageBlocks)
    ensures SegmentsSlots(segs[..i], pageBlocks) + SegmentSlots(segs[i], pageBlocks)
            == SegmentsSlots(segs[..i + 1], pageBlocks)
    ensures SegmentsSlots(segs[..i + 1], pageBlocks) <= SegmentsSlots(segs, pageBlocks)
    ensures var base := |SegmentsSlots(segs[..i], pageBlocks)|;
            SegmentsSlots(segs, pageBlocks)[base..base + segs[i].count] == SegmentSlots(segs[i], pageBlocks)
    decreases |segs| - i
  {
    assert segs[..i + 1][..i] == segs[..i];
    if i + 1 == |segs| {
      assert segs[..i + 1] == segs;
    } else {
      SegmentsSplit(segs, pageBlocks, i + 1);
    }
  }
}
