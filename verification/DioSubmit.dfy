/** The lower half of direct I/O submission (lines 339-392 and 591-767 of fs/direct-io.c):
    the deferred page section and the bio under assembly. */
module DioSections {
  import opened Common
  import opened DioBlocks

  /** Every bio of a list holds something and is contiguous in the file. */
  ghost predicate AllContiguous(bios: seq<Bio>)
  {
    forall i :: 0 <= i < |bios| ==> bios[i].vecs != [] && Contiguous(bios[i].logical, bios[i].vecs)
  }

  /** What is known about the bios' place in the file enters a proof where this asks for it. */
  ghost predicate OpenBios(open: bool) { true }

  /** So does what the sections hold. */
  ghost predicate OpenLog(open: bool) { true }

  class Sections {
    var bio: Option<Bio>
    var boundary: bool
    var logicalOffsetInBio: int
    var finalBlockInBio: int
    var curPage: Option<Page>
    var curPageOffset: nat
    var curPageLen: nat
    var curPageBlock: int
    var curPageFsOffset: int

    /** Bios handed to the block layer. */
    var submitted: seq<Bio>

    /** Every block accepted so far, in order, one entry per dio block. */
    ghost var log: seq<BlockIo>

    /** What the bios built so far move. */
    ghost function Sent(): seq<BlockIo>
      reads `submitted, `bio
    {
      if bio.None? then Flatten(submitted) else Placed(Flatten(submitted), bio.value.start, bio.value.vecs)
    }

    /** The same, with the deferred section. */
    ghost function Pending(): seq<BlockIo>
      reads `submitted, `bio, `curPage, `curPageBlock, `curPageOffset, `curPageLen
    {
      if curPage.None? then Sent() else Run(Sent(), curPageBlock, curPage.value, curPageOffset, curPageLen)
    }

    /** final_block_in_bio is where the open bio's next block would land, and all bios are
        contiguous in the file, too. */
    ghost predicate BioOk()
      reads `bio, `finalBlockInBio, `logicalOffsetInBio, `submitted
    {
      && BiosOk()
      && (bio.Some? ==> bio.value.vecs != [] && finalBlockInBio == bio.value.start + Size(bio.value.vecs))
    }

    ghost predicate BiosOk()
      reads `bio, `logicalOffsetInBio, `submitted
    {
      && (bio.Some? ==> bio.value.logical == logicalOffsetInBio)
      && (forall open: bool {:trigger OpenBios(open)} :: OpenBios(open) ==>
            && (bio.Some? ==> Contiguous(bio.value.logical, bio.value.vecs))
            && AllContiguous(submitted))
    }

    /** Each accepted block is submitted, in the open bio, or deferred; nothing else is. */
    ghost predicate Valid()
      reads this
    {
      forall open: bool {:trigger OpenLog(open)} :: OpenLog(open) ==> BioOk() && log == Pending()
    }

    constructor ()
      ensures Valid() && log == [] && submitted == [] && bio.None? && curPage.None? && !boundary
    {
      bio, curPage := None, None;
      boundary, logicalOffsetInBio, finalBlockInBio := false, 0, -1;
      curPageOffset, curPageLen, curPageBlock, curPageFsOffset := 0, 0, 0, 0;
      submitted, log := [], [];
    }

    method BioSubmit()
      requires bio.Some? && BiosOk() && bio.value.vecs != []
      modifies `submitted, `bio, `boundary, `logicalOffsetInBio
      ensures bio.None? && !boundary && logicalOffsetInBio == 0 && BiosOk()
      ensures Sent() == old(Sent())
    {
      assert OpenBios(true);
      FlattenSnoc(submitted, bio.value);
      submitted := submitted + [bio.value];
      bio := None;
      boundary := false;
      logicalOffsetInBio := 0;
    }

    method NewBio(start: int)
      requires bio.None? && BiosOk()
      modifies `bio, `boundary, `logicalOffsetInBio
      ensures bio == Some(Bio(start, curPageFsOffset, [])) && !boundary && BiosOk()
      ensures Sent() == old(Sent())
    {
      assert OpenBios(true);
      bio := Some(Bio(start, curPageFsOffset, []));
      logicalOffsetInBio := curPageFsOffset;
      boundary := false;
    }

    /** bio_add_page may refuse a bio that already holds something; an empty bio accepts. */
    method BioAddPage() returns (ok: bool)
      requires bio.Some? && curPage.Some? && BiosOk()
      requires bio.value.start + Size(bio.value.vecs) == curPageBlock
      requires bio.value.logical + Size(bio.value.vecs) == curPageFsOffset
      modifies `bio, `finalBlockInBio
      ensures bio.Some? && BiosOk()
      ensures ok ==> BioOk() && Sent() == old(Pending())
      ensures !ok ==> bio == old(bio) && old(bio).value.vecs != []
    {
      ok := *;
      if bio.value.vecs == [] {
        ok := true;
      }
      if ok {
        var v := Vec(curPage.value, curPageOffset, curPageLen, curPageFsOffset);
        PlacedSnoc(Flatten(submitted), bio.value, v);
        assert OpenBios(true);
        ContiguousSnoc(bio.value.logical, bio.value.vecs, v);
        bio := Some(Bio(bio.value.start, bio.value.logical, bio.value.vecs + [v]));
        finalBlockInBio := curPageBlock + curPageLen;
      }
    }

    /** Leave an open bio that the deferred section continues, on disk and in the file. */
    method OpenBio()
      requires BioOk() && curPage.Some?
      modifies `bio, `submitted, `boundary, `logicalOffsetInBio
      ensures bio.Some? && BiosOk() && bio.value.start + Size(bio.value.vecs) == curPageBlock
      ensures bio.value.logical + Size(bio.value.vecs) == curPageFsOffset
      ensures Sent() == old(Sent()) && (boundary ==> old(boundary))
    {
      if bio.Some? {
        if finalBlockInBio != curPageBlock || curPageFsOffset != logicalOffsetInBio + Size(bio.value.vecs) {
          BioSubmit();
        }
      }
      if bio.None? {
        NewBio(curPageBlock);
      }
    }

    /** dio_send_cur_page: after it, the open bio ends with the deferred section, on disk
        exactly where that section belongs. */
    method SendCurPage()
      requires BioOk() && curPage.Some?
      modifies `bio, `submitted, `boundary, `logicalOffsetInBio, `finalBlockInBio
      ensures BioOk() && bio.Some?
      ensures Sent() == old(Pending()) && (boundary ==> old(boundary))
    {
      OpenBio();
      var ok := BioAddPage();
      if !ok {
        BioSubmit();
        NewBio(curPageBlock);
        ok := BioAddPage();
        assert ok;
      }
    }

    /** The deferred section goes on with this one. */
    predicate Continues(page: Page, offset: nat, blocknr: int)
      reads `curPage, `curPageOffset, `curPageLen, `curPageBlock
    {
      curPage == Some(page) && curPageOffset + curPageLen == offset && curPageBlock + curPageLen == blocknr
    }

    /** Grow the deferred section across its page. */
    method Grow(page: Page, offset: nat, len: nat, blocknr: int)
      requires Valid() && Continues(page, offset, blocknr)
      modifies `curPageLen, `log
      ensures Valid() && curPage.Some? && log == Run(old(log), blocknr, page, offset, len)
    {
      assert OpenLog(true);
      RunSplit(Sent(), curPageBlock, page, curPageOffset, curPageLen, len);
      log := Run(log, blocknr, page, offset, len);
      curPageLen := curPageLen + len;
    }

    /** Put the deferred section under I/O now. */
    method FlushCurPage()
      requires Valid() && curPage.Some?
      modifies `bio, `submitted, `boundary, `logicalOffsetInBio, `finalBlockInBio, `curPage
      ensures Valid() && bio.None? && curPage.None? && !boundary
    {
      assert OpenLog(true);
      SendCurPage();
      BioSubmit();
      curPage := None;
    }

    /** Replace the deferred section, sending the old one to a bio. */
    method Defer(page: Page, offset: nat, len: nat, blocknr: int, fileBlock: int)
      requires Valid()
      modifies this
      ensures Valid() && curPage.Some? && (boundary ==> old(boundary)) && (old(boundary && curPage.None?) ==> boundary)
      ensures log == Run(old(log), blocknr, page, offset, len) && curPageFsOffset == fileBlock
    {
      assert OpenLog(true);
      if curPage.Some? {
        SendCurPage();
        curPage := None;
      }
      curPage := Some(page);
      curPageOffset := offset;
      curPageLen := len;
      curPageBlock := blocknr;
      curPageFsOffset := fileBlock;
      log := Run(log, blocknr, page, offset, len);
    }

    /** submit_page_section: accepting a section appends exactly that section to the log,
        however it is coalesced, deferred or split over bios.  At a boundary everything is put
        under I/O at once, unless the old deferred section has to be sent first: starting a bio
        for it forgets the boundary. */
    method SubmitPageSection(page: Page, offset: nat, len: nat, blocknr: int, fileBlock: int)
      requires Valid()
      modifies this
      ensures Valid() && !boundary
      ensures log == Run(old(log), blocknr, page, offset, len)
      ensures old(boundary && (curPage.None? || Continues(page, offset, blocknr))) ==> bio.None? && curPage.None?
      ensures !old(boundary) ==> curPage.Some?
      ensures curPageFsOffset == if old(Continues(page, offset, blocknr)) then old(curPageFsOffset) else fileBlock
    {
      assert OpenLog(true);
      if Continues(page, offset, blocknr) {
        Grow(page, offset, len, blocknr);
      } else {
        Defer(page, offset, len, blocknr, fileBlock);
      }
      if boundary {
        FlushCurPage();
      }
    }

    /** Lines 1227-1237: the end of the request.  All that was accepted is in submitted bios,
        none of them empty and each contiguous on disk and in the file. */
    method Finish()
      requires Valid()
      modifies this
      ensures Valid() && log == old(log) && Flatten(submitted) == log
      ensures AllContiguous(submitted)
    {
      assert OpenLog(true);
      if curPage.Some? {
        SendCurPage();
        curPage := None;
      }
      if bio.Some? {
        BioSubmit();
      }
      assert OpenBios(true);
    }
  }
}

/** The upper half (lines 536-585 and 796-1237): the walk over user pages and extents. */
module DioWalk {
  import opened Common
  import opened DioBlocks
  import opened DioSpec
  import opened DioSections

  /** struct buffer_head as get_block fills it in; `count` filesystem blocks at `blocknr`. */
  datatype MapBh = MapBh(mapped: bool, isNew: bool, boundary: bool, blocknr: int, count: nat)

  const CLEAR_BH := MapBh(false, false, false, 0, 0)

  /** What get_block returns for a filesystem block. */
  datatype Reply = Reply(ret: int, bh: MapBh)

  const ENOTBLK := -15
  const EIO := -5

  function Min(a: nat, b: nat): (m: nat)
    ensures m <= a && m <= b && (m == a || m == b)
  {
    if a < b then a else b
  }

  /** The filesystem's get_block, asked for the filesystem block that holds file block `b`: any
      error, an unmapped block, or an extent of whole filesystem blocks that agrees with the
      file's layout.  A read finds unmapped only holes, and only a write is given new blocks;
      any other answer counts as an I/O error. */
  function Answer(rq: Request, fs: imap<nat, Reply>, b: nat): (r: Reply)
    requires rq.Valid()
    ensures r.ret != 0 || !r.bh.mapped ==> r.bh == CLEAR_BH
    ensures r.ret == 0 && r.bh.mapped ==>
              && Extent(rq.disk, rq.fsBlocks, b / rq.fsBlocks, r.bh.count, r.bh.blocknr)
              && (r.bh.isNew ==> rq.isWrite)
    ensures r.ret == 0 && !r.bh.mapped && !rq.isWrite ==> b !in rq.disk
  {
    var fsBlock := b / rq.fsBlocks;
    if fsBlock !in fs then Reply(EIO, CLEAR_BH)
    else
      var r := fs[fsBlock];
      if r.ret != 0 then Reply(r.ret, CLEAR_BH)
      else if !r.bh.mapped then Reply(if !rq.isWrite && b in rq.disk then EIO else 0, CLEAR_BH)
      else if Extent(rq.disk, rq.fsBlocks, fsBlock, r.bh.count, r.bh.blocknr) && (r.bh.isNew ==> rq.isWrite) then r
      else Reply(EIO, CLEAR_BH)
  }

  /** Where get_block is asked next after it has been asked at `b`: at the end of the extent it
      gave, or after the one block that is a hole. */
  ghost function NextAsk(rq: Request, fs: imap<nat, Reply>, b: nat): (n: nat)
    requires rq.Valid()
    ensures n > b
  {
    var bh := Answer(rq, fs, b).bh;
    if bh.mapped then
      ExtentFrom(rq.disk, rq.fsBlocks, b, bh.count, bh.blocknr);
      b + (bh.count * rq.fsBlocks - b % rq.fsBlocks)
    else b + 1
  }

  /** A walk from `b` on asks get_block at `e`. */
  ghost predicate Asked(rq: Request, fs: imap<nat, Reply>, b: nat, e: nat)
    requires rq.Valid()
    decreases e - b
  {
    b == e || (b < e && Asked(rq, fs, NextAsk(rq, fs, b), e))
  }

  /** The last time that a walk over [b, end) asks get_block. */
  ghost function LastAsk(rq: Request, fs: imap<nat, Reply>, b: nat, end: nat): (a: nat)
    requires rq.Valid() && b < end
    ensures b <= a < end <= NextAsk(rq, fs, a)
    decreases end - b
  {
    var n := NextAsk(rq, fs, b);
    if end <= n then b else LastAsk(rq, fs, n, end)
  }

  lemma {:induction false} AskedNext(rq: Request, fs: imap<nat, Reply>, b: nat, e: nat)
    requires rq.Valid() && Asked(rq, fs, b, e)
    ensures Asked(rq, fs, b, NextAsk(rq, fs, e))
    decreases e - b
  {
    if b < e {
      AskedNext(rq, fs, NextAsk(rq, fs, b), e);
    }
  }

  lemma {:induction false} AskedLast(rq: Request, fs: imap<nat, Reply>, b: nat, a: nat, end: nat)
    requires rq.Valid() && Asked(rq, fs, b, a) && a < end <= NextAsk(rq, fs, a)
    ensures b <= a && LastAsk(rq, fs, b, end) == a
    decreases a - b
  {
    if b < a {
      AskedLast(rq, fs, NextAsk(rq, fs, b), a, end);
    }
  }

  /** The first filesystem block of a request that has walked `k` blocks is new. */
  ghost predicate HeadNew(rq: Request, fs: imap<nat, Reply>, k: nat)
    requires rq.Valid()
  {
    k > 0 && Answer(rq, fs, rq.start).bh.isNew
  }

  /** So is the last one: the extent that get_block gave last. */
  ghost predicate TailNew(rq: Request, fs: imap<nat, Reply>, k: nat)
    requires rq.Valid()
  {
    k > 0 && Answer(rq, fs, LastAsk(rq, fs, rq.start, rq.start + k)).bh.isNew
  }

  /** What a request that walks `k` blocks is to submit. */
  ghost function Submission(rq: Request, fs: imap<nat, Reply>, mem: seq<Slot>, k: nat): seq<BlockIo>
    requires rq.Valid() && k <= |mem|
  {
    rq.TailZeroes(Transfers(rq.HeadZeroes(HeadNew(rq, fs, k)), rq.disk, rq.start, mem, k),
                  TailNew(rq, fs, k), rq.start + k)
  }

  class Dio {
    const rq: Request
    const fs: imap<nat, Reply>       // get_block, by filesystem block
    ghost const memory: seq<Slot>
    const sections: Sections

    var startZeroDone: bool
    var blockInFile: nat
    var blocksAvailable: nat
    var finalBlockInRequest: nat
    var nextBlockForIo: int
    var mapBh: MapBh

    /** Slots cleared by zero_user. */
    var zeroed: seq<Slot>

    /** Where get_block gave the extent under the cursor. */
    ghost var asked: nat

    /** The zeroes that precede the request. */
    ghost var head: seq<BlockIo>

    /** The extent under the cursor ends on a filesystem block boundary. */
    ghost predicate ExtentOk()
      requires rq.Valid()
      reads `mapBh, `blockInFile, `blocksAvailable, `startZeroDone
    {
      && (mapBh.isNew ==> rq.isWrite && mapBh.mapped)
      && (blocksAvailable > 0 ==> mapBh.mapped && (blockInFile + blocksAvailable) % rq.fsBlocks == 0)
      && (blocksAvailable == 0 && blockInFile % rq.fsBlocks != 0 ==>
            !mapBh.isNew && (rq.isWrite ==> blockInFile == rq.start && !startZeroDone))
    }

    /** It is what get_block answered when it was asked last, and there are zeroes in front of
        the request just if its first answer was new. */
    ghost predicate TrailOk()
      requires rq.Valid()
      reads `mapBh, `blockInFile, `blocksAvailable, `asked, `head
    {
      && (if blocksAvailable > 0 then
            && rq.start <= asked <= blockInFile && Asked(rq, fs, rq.start, asked)
            && NextAsk(rq, fs, asked) == blockInFile + blocksAvailable && Answer(rq, fs, asked).bh == mapBh
          else Asked(rq, fs, rq.start, blockInFile))
      && head == if blocksAvailable > 0 || blockInFile > rq.start
                 then rq.HeadZeroes(Answer(rq, fs, rq.start).bh.isNew) else []
    }

    /** The extent under the cursor has been put to use. */
    ghost predicate Settled()
      reads `blockInFile, `blocksAvailable, `asked
    {
      blocksAvailable > 0 ==> asked < blockInFile
    }

    /** The file and disk cursors. */
    ghost predicate CursorOk()
      reads `mapBh, `asked, `head, `blockInFile, `blocksAvailable, `startZeroDone, `nextBlockForIo
    {
      && rq.Valid()
      && ExtentOk() && TrailOk()
      && rq.start <= blockInFile <= rq.start + |memory|
      && (blocksAvailable > 0 ==>
            && Maps(rq.disk, blockInFile, blocksAvailable, nextBlockForIo)
            && (rq.fsBlocks > 1 ==> startZeroDone))
    }

    /** The state between two steps of the walk: what has been accepted is exactly what the
        blocks before the cursor call for. */
    ghost predicate Accepted()
      reads `mapBh, `asked, `head, `blockInFile, `blocksAvailable, `startZeroDone, `nextBlockForIo, `zeroed, sections
    {
      && CursorOk()
      && sections.Valid()
      && sections.log == Transfers(head, rq.disk, rq.start, memory, blockInFile - rq.start)
      && zeroed == Holes(rq.disk, rq.start, memory, blockInFile - rq.start)
      && (rq.isWrite ==> zeroed == [])
    }

    /** What the methods that only sequence the walk need to know; the rest of Accepted enters
        a proof where Open asks for it. */
    ghost predicate Walk()
      reads `mapBh, `asked, `head, `blockInFile, `blocksAvailable, `startZeroDone, `nextBlockForIo, `zeroed, sections
    {
      && rq.Valid()
      && rq.start <= blockInFile <= rq.start + |memory|
      && (blocksAvailable > 0 ==> mapBh.mapped && blockInFile in rq.disk)
      && (forall open: bool {:trigger Open(open)} :: Open(open) ==> memory == rq.Memory() && Accepted())
    }

    /** A mapped extent is under the cursor, but the zeroes in front of the request may still
        be owed. */
    ghost predicate Owing()
      reads this, sections
    {
      && rq.Valid()
      && ExtentOk() && TrailOk()
      && rq.start <= blockInFile <= rq.start + |memory|
      && blocksAvailable > 0
      && sections.Valid()
      && zeroed == Holes(rq.disk, rq.start, memory, blockInFile - rq.start)
      && (rq.isWrite ==> zeroed == [])
      && var lead := if mapBh.isNew && !startZeroDone then blockInFile % rq.fsBlocks else 0;
      && Maps(rq.disk, blockInFile, blocksAvailable, nextBlockForIo + lead)
      && Run(sections.log, nextBlockForIo, ZERO_PAGE, 0, lead)
         == Transfers(head, rq.disk, rq.start, memory, blockInFile - rq.start)
    }

    /** A read has reached a hole at or beyond the end of the file. */
    ghost predicate AtEof()
      reads `blockInFile
    {
      !rq.isWrite && blockInFile >= rq.sizeBlocks && blockInFile !in rq.disk
    }

    constructor (rq: Request, fs: imap<nat, Reply>)
      requires rq.Valid()
      ensures this.rq == rq && this.fs == fs && memory == rq.Memory() && fresh(sections) && Walk() && Settled()
      ensures blockInFile == rq.start && sections.submitted == []
    {
      this.rq, this.fs := rq, fs;
      memory := rq.Memory();
      startZeroDone := false;
      blockInFile, blocksAvailable, finalBlockInRequest := rq.start, 0, rq.start;
      nextBlockForIo := -1;
      mapBh := CLEAR_BH;
      zeroed, asked, head := [], 0, [];
      sections := new Sections();
    }

    /** The walk cannot go on at the cursor: get_block fails there with `ret`, or finds nothing
        mapped under a write. */
    ghost predicate Stops(ret: int)
      reads `blockInFile
    {
      && rq.Valid()
      && forall open: bool {:trigger Open(open)} :: Open(open) ==>
           Answer(rq, fs, blockInFile) == Reply(ret, CLEAR_BH)
           || (ret == ENOTBLK && rq.isWrite && Answer(rq, fs, blockInFile) == Reply(0, CLEAR_BH))
    }

    /** Take over the extent get_block returned.  If the request starts inside a new
        filesystem block the cursor is left on that block's first disk block. */
    method TakeExtent()
      requires rq.Valid() && Extent(rq.disk, rq.fsBlocks, blockInFile / rq.fsBlocks, mapBh.count, mapBh.blocknr)
      modifies `blocksAvailable, `nextBlockForIo
      ensures blocksAvailable > 0 && (blockInFile + blocksAvailable) % rq.fsBlocks == 0
      ensures blocksAvailable == mapBh.count * rq.fsBlocks - blockInFile % rq.fsBlocks
      ensures Maps(rq.disk, blockInFile, blocksAvailable,
                   nextBlockForIo + if mapBh.isNew then blockInFile % rq.fsBlocks else 0)
    {
      ExtentFrom(rq.disk, rq.fsBlocks, blockInFile, mapBh.count, mapBh.blocknr);
      blocksAvailable := mapBh.count * rq.fsBlocks;
      nextBlockForIo := mapBh.blocknr * rq.fsBlocks;
      var remainder := blockInFile % rq.fsBlocks;
      if rq.fsBlocks == 1 {
        assert remainder == 0;
        return;
      }
      if !mapBh.isNew {
        nextBlockForIo := nextBlockForIo + remainder;
      }
      blocksAvailable := blocksAvailable - remainder;
    }

    /** Lines 872-914 of do_direct_IO: map some more disk. */
    method MapBlocks() returns (ret: int)
      requires rq.Valid() && ExtentOk() && blocksAvailable == 0 && rq.start <= blockInFile < finalBlockInRequest
      modifies `mapBh, `blocksAvailable, `nextBlockForIo
      ensures ExtentOk() && Reply(ret, mapBh) == Answer(rq, fs, blockInFile)
      ensures ret != 0 || !mapBh.mapped ==> blocksAvailable == 0
      ensures ret != 0 ==> Stops(ret)
      ensures ret == 0 && !mapBh.mapped && rq.isWrite ==> Stops(ENOTBLK)
      ensures ret == 0 && mapBh.mapped ==>
                var lead := if mapBh.isNew then blockInFile % rq.fsBlocks else 0;
                && blocksAvailable > 0 && blockInFile + blocksAvailable == NextAsk(rq, fs, blockInFile)
                && Maps(rq.disk, blockInFile, blocksAvailable, nextBlockForIo + lead)
    {
      var r := Answer(rq, fs, blockInFile);
      ret, mapBh := r.ret, r.bh;
      if ret == 0 && mapBh.mapped {
        TakeExtent();
      }
    }

    method MapStep() returns (ret: int)
      requires Accepted() && blocksAvailable == 0 && blockInFile < finalBlockInRequest
      modifies `mapBh, `blocksAvailable, `nextBlockForIo, `asked, `head
      ensures ret != 0 || !mapBh.mapped ==> Accepted() && blocksAvailable == 0
      ensures Reply(ret, mapBh) == Answer(rq, fs, blockInFile)
      ensures ret == 0 && mapBh.mapped ==> Owing()
      ensures ret != 0 ==> Stops(ret)
      ensures ret == 0 && !mapBh.mapped && rq.isWrite ==> Stops(ENOTBLK)
    {
      ret := MapBlocks();
      if ret == 0 && mapBh.mapped {
        assert blockInFile in rq.disk;
        asked := blockInFile;
        if blockInFile == rq.start {
          head := rq.HeadZeroes(mapBh.isNew);
        }
      }
    }

    /** Lines 823-828: hand `n` blocks of the zero page on. */
    method SubmitZeroes(n: nat)
      requires sections.Valid()
      modifies `nextBlockForIo, sections
      ensures sections.Valid() && nextBlockForIo == old(nextBlockForIo) + n
      ensures sections.log == Run(old(sections.log), old(nextBlockForIo), ZERO_PAGE, 0, n)
    {
      sections.SubmitPageSection(ZERO_PAGE, 0, n, nextBlockForIo, blockInFile);
      nextBlockForIo := nextBlockForIo + n;
    }

    /** dio_zero_block: pad a new, partly written filesystem block with the zero page. */
    method ZeroBlock(end: bool)
      requires sections.Valid() && rq.Valid()
      modifies `startZeroDone, `nextBlockForIo, sections
      ensures sections.Valid() && startZeroDone
      ensures var r := blockInFile % rq.fsBlocks;
              var pad := if !mapBh.isNew || r == 0 then 0 else if end then rq.fsBlocks - r else r;
              && nextBlockForIo == old(nextBlockForIo) + pad
              && sections.log == Run(old(sections.log), old(nextBlockForIo), ZERO_PAGE, 0, pad)
    {
      startZeroDone := true;
      if rq.fsBlocks == 1 || !mapBh.isNew {
        return;
      }
      var chunk := blockInFile % rq.fsBlocks;
      if chunk == 0 {
        return;
      }
      if end {
        chunk := rq.fsBlocks - chunk;
      }
      SubmitZeroes(chunk);
    }

    method ZeroStart()
      requires Owing()
      modifies `startZeroDone, `nextBlockForIo, sections
      ensures Accepted()
    {
      if rq.fsBlocks > 1 && !startZeroDone {
        ZeroBlock(false);
      }
    }

    /** Make sure the cursor stands on mapped blocks, zeroing in front of the request when
        its first filesystem block is new. */
    method Prepare() returns (ret: int)
      requires Walk() && blockInFile < finalBlockInRequest
      modifies `mapBh, `blocksAvailable, `nextBlockForIo, `asked, `head, `startZeroDone, sections
      ensures Walk()
      ensures ret == 0 && mapBh.mapped ==> blocksAvailable > 0
      ensures ret != 0 || !mapBh.mapped ==> blocksAvailable == 0
      ensures ret == 0 && !mapBh.mapped ==> Hole()
      ensures ret != 0 ==> Stops(ret)
      ensures ret == 0 && !mapBh.mapped && rq.isWrite ==> Stops(ENOTBLK)
    {
      assert Open(true);
      ret := 0;
      if blocksAvailable == 0 {
        ret := MapStep();
        if ret == 0 && mapBh.mapped {
          ZeroStart();
        }
      }
    }

    /** get_block finds nothing at the cursor. */
    ghost predicate Hole()
      reads `blockInFile
    {
      && rq.Valid() && (!rq.isWrite ==> blockInFile !in rq.disk)
      && forall open: bool {:trigger Open(open)} :: Open(open) ==> Answer(rq, fs, blockInFile) == Reply(0, CLEAR_BH)
    }

    /** zero_user: a hole inside the file reads as zeroes. */
    method ZeroHole(page: Page, blockInPage: nat)
      requires Walk() && blocksAvailable == 0 && !rq.isWrite && Hole()
      requires InPage(memory, blockInFile - rq.start, 1, page, blockInPage)
      modifies `blockInFile, `zeroed
      ensures Walk() && blockInFile == old(blockInFile) + 1
    {
      assert Open(true);
      AskedNext(rq, fs, rq.start, blockInFile);
      zeroed := zeroed + [Slot(page, blockInPage)];
      blockInFile := blockInFile + 1;
    }

    /** Lines 967-977: hand `n` mapped blocks of one page on. */
    method AppendChunk(page: Page, blockInPage: nat, n: nat)
      requires sections.Valid() && 0 < n
      modifies sections
      ensures sections.Valid()
      ensures sections.log == Run(old(sections.log), nextBlockForIo, page, blockInPage, n)
      ensures n == blocksAvailable && mapBh.boundary
              && old(sections.curPage.None? || sections.Continues(page, blockInPage, nextBlockForIo)) ==>
                sections.bio.None? && sections.curPage.None?
      ensures !(if n == blocksAvailable then mapBh.boundary else old(sections.boundary)) ==> sections.curPage.Some?
      ensures sections.curPageFsOffset == if old(sections.Continues(page, blockInPage, nextBlockForIo))
                                          then old(sections.curPageFsOffset) else blockInFile
    {
      sections.boundary := if n == blocksAvailable then mapBh.boundary else sections.boundary;
      sections.SubmitPageSection(page, blockInPage, n, nextBlockForIo, blockInFile);
    }

    /** Lines 978-982: move the cursors over `n` blocks. */
    method Advance(n: nat)
      requires CursorOk() && 0 < n <= blocksAvailable && blockInFile + n <= rq.start + |memory|
      modifies `blocksAvailable, `nextBlockForIo, `blockInFile
      ensures CursorOk() && blockInFile == old(blockInFile) + n
    {
      AskedNext(rq, fs, rq.start, asked);
      nextBlockForIo := nextBlockForIo + n;
      blockInFile := blockInFile + n;
      blocksAvailable := blocksAvailable - n;
    }

    /** What `n` mapped blocks of one page add to what the cursor calls for. */
    lemma {:induction false} ChunkOk(page: Page, blockInPage: nat, n: nat)
      requires Walk() && 0 < n <= blocksAvailable
      requires InPage(memory, blockInFile - rq.start, n, page, blockInPage)
      ensures CursorOk() && sections.Valid() && memory == rq.Memory()
      ensures Run(sections.log, nextBlockForIo, page, blockInPage, n)
              == Transfers(head, rq.disk, rq.start, memory, blockInFile - rq.start + n)
      ensures zeroed == Holes(rq.disk, rq.start, memory, blockInFile - rq.start + n) && (rq.isWrite ==> zeroed == [])
    {
      assert Open(true);
      TransfersRun(head, rq.disk, rq.start, memory, blockInFile - rq.start, page, blockInPage, n, nextBlockForIo);
    }

    /** What was accepted `n` blocks on is what the cursor now calls for. */
    lemma {:induction false} Moved(was: nat, n: nat)
      requires CursorOk() && sections.Valid() && memory == rq.Memory()
      requires rq.start <= was && blockInFile == was + n && (rq.isWrite ==> zeroed == [])
      requires sections.log == Transfers(head, rq.disk, rq.start, memory, was - rq.start + n)
      requires zeroed == Holes(rq.disk, rq.start, memory, was - rq.start + n)
      ensures Walk()
    {
      assert blockInFile - rq.start == was - rq.start + n;
    }

    method SubmitChunk(page: Page, blockInPage: nat, n: nat)
      requires Walk() && 0 < n <= blocksAvailable
      requires InPage(memory, blockInFile - rq.start, n, page, blockInPage)
      modifies `blocksAvailable, `nextBlockForIo, `blockInFile, sections
      ensures Walk() && Settled() && blockInFile == old(blockInFile) + n
    {
      ChunkOk(page, blockInPage, n);
      AppendChunk(page, blockInPage, n);
      Advance(n);
      Moved(old(blockInFile), n);
    }

    /** One pass of the inner loop of do_direct_IO (lines 866-987): consume `n` blocks of
        `page` from `blockInPage` on, or stop at an error, a hole under a write, or the end
        of the file. */
    method WalkPage(page: Page, blockInPage: nat, left: nat) returns (ret: int, eof: bool, n: nat)
      requires Walk() && Settled() && 0 < left && blockInFile + left <= finalBlockInRequest
      requires !AtEof() ==> InPage(memory, blockInFile - rq.start, left, page, blockInPage)
      modifies `mapBh, `blocksAvailable, `nextBlockForIo, `asked, `head, `startZeroDone, `blockInFile, `zeroed, sections
      ensures Walk() && Settled() && blockInFile == old(blockInFile) + n && n <= left
      ensures ret != 0 || eof <==> n == 0
      ensures eof ==> ret == 0 && AtEof()
      ensures old(AtEof()) ==> n == 0
      ensures ret != 0 ==> Stops(ret) && (rq.isWrite ==> blockInFile < rq.start + |memory|)
    {
      eof, n := false, 0;
      ret := Prepare();
      if ret != 0 {
        return;
      }
      if !mapBh.mapped {
        if rq.isWrite {
          ret := ENOTBLK;
        } else if blockInFile >= rq.sizeBlocks {
          eof := true;
        } else {
          ZeroHole(page, blockInPage);
          n := 1;
        }
        return;
      }
      n := Min(blocksAvailable, left);
      SubmitChunk(page, blockInPage, n);
    }

    /** The loop over the blocks of one page, entered at block `first`. */
    method WalkWholePage(page: Page, first: nat) returns (ret: int, eof: bool, n: nat)
      requires Walk() && Settled() && blockInFile < finalBlockInRequest && first < rq.pageBlocks
      requires !AtEof() ==> InPage(memory, blockInFile - rq.start,
                                   Min(rq.pageBlocks - first, finalBlockInRequest - blockInFile), page, first)
      modifies `mapBh, `blocksAvailable, `nextBlockForIo, `asked, `head, `startZeroDone, `blockInFile, `zeroed, sections
      ensures Walk() && Settled() && first + n <= rq.pageBlocks
      ensures blockInFile == old(blockInFile) + n <= finalBlockInRequest
      ensures ret == 0 && !eof ==> first + n == rq.pageBlocks || blockInFile == finalBlockInRequest
      ensures eof ==> ret == 0 && AtEof()
      ensures old(AtEof()) ==> n == 0 && (ret != 0 || eof)
      ensures ret != 0 ==> Stops(ret) && (rq.isWrite ==> blockInFile < rq.start + |memory|)
    {
      ret, eof, n := 0, false, 0;
      while first + n < rq.pageBlocks
        invariant Walk() && Settled() && first + n <= rq.pageBlocks
        invariant blockInFile == old(blockInFile) + n <= finalBlockInRequest
        invariant first + n < rq.pageBlocks ==> blockInFile < finalBlockInRequest
        invariant ret == 0 && !eof
        invariant old(AtEof()) ==> n == 0
      {
        var k;
        ret, eof, k := WalkPage(page, first + n, Min(rq.pageBlocks - first - n, finalBlockInRequest - blockInFile));
        n := n + k;
        if ret != 0 || eof || blockInFile == finalBlockInRequest {
          return;
        }
      }
    }

    /** Where the memory of a segment stands, unless the file has already ended. */
    ghost predicate SegmentAt(seg: Segment, base: nat)
      requires SegmentValid(seg, rq.pageBlocks)
      reads `blockInFile
    {
      !AtEof() ==> base + seg.count <= |memory| && memory[base..base + seg.count] == SegmentSlots(seg, rq.pageBlocks)
    }

    /** What of the segment lies in the page ahead. */
    lemma {:induction false} PageAhead(seg: Segment, base: nat, i: nat, blockInPage: nat, j: nat)
      requires rq.Valid() && SegmentValid(seg, rq.pageBlocks) && SegmentAt(seg, base)
      requires j < seg.count && finalBlockInRequest - blockInFile == seg.count - j && rq.start <= blockInFile
      requires !AtEof() ==> base + j == blockInFile - rq.start
      requires blockInPage < rq.pageBlocks && i * rq.pageBlocks + blockInPage == seg.first + j
      ensures i < |seg.pages|
      ensures !AtEof() ==> InPage(memory, blockInFile - rq.start,
                                  Min(rq.pageBlocks - blockInPage, finalBlockInRequest - blockInFile),
                                  seg.pages[i], blockInPage)
    {
      var c := Min(rq.pageBlocks - blockInPage, finalBlockInRequest - blockInFile);
      SegmentInPage(seg, rq.pageBlocks, i, blockInPage, j, c);
      if !AtEof() {
        SegmentInMemory(memory, base, seg, rq.pageBlocks, i, blockInPage, j, c);
      }
    }

    static lemma {:induction false} NextPage(i: nat, pageBlocks: nat)
      ensures (i + 1) * pageBlocks == i * pageBlocks + pageBlocks
    {
    }

    /** Page `i` of a segment, entered at `blockInPage`, `j` blocks into the segment. */
    method WalkSegmentPage(seg: Segment, ghost base: nat, i: nat, blockInPage: nat, ghost j: nat)
      returns (ret: int, eof: bool, n: nat)
      requires Walk() && Settled() && SegmentValid(seg, rq.pageBlocks) && SegmentAt(seg, base)
      requires j < seg.count && finalBlockInRequest - blockInFile == seg.count - j
      requires !AtEof() ==> base + j == blockInFile - rq.start
      requires blockInPage < rq.pageBlocks && i * rq.pageBlocks + blockInPage == seg.first + j
      modifies `mapBh, `blocksAvailable, `nextBlockForIo, `asked, `head, `startZeroDone, `blockInFile, `zeroed, sections
      ensures Walk() && Settled() && blockInFile == old(blockInFile) + n && j + n <= seg.count
      ensures ret == 0 && !eof && j + n < seg.count ==> (i + 1) * rq.pageBlocks == seg.first + j + n
      ensures ret == 0 && !eof ==> n > 0
      ensures eof ==> ret == 0 && AtEof()
      ensures old(AtEof()) ==> n == 0 && (ret != 0 || eof)
      ensures ret != 0 ==> Stops(ret) && (rq.isWrite ==> blockInFile < rq.start + |memory|)
    {
      PageAhead(seg, base, i, blockInPage, j);
      ret, eof, n := WalkWholePage(seg.pages[i], blockInPage);
      NextPage(i, rq.pageBlocks);
    }

    /** do_direct_IO for one segment, whose memory begins at `base`: stopping short without an
        error means the end of the file. */
    method DoDirectIO(seg: Segment, ghost base: nat) returns (ret: int)
      requires Walk() && Settled() && SegmentValid(seg, rq.pageBlocks) && SegmentAt(seg, base)
      requires !AtEof() ==> base == blockInFile - rq.start
      modifies `finalBlockInRequest, `mapBh, `blocksAvailable, `nextBlockForIo, `asked, `head,
               `startZeroDone, `blockInFile, `zeroed, sections
      ensures Walk() && Settled()
      ensures old(blockInFile) <= blockInFile <= finalBlockInRequest == old(blockInFile) + seg.count
      ensures ret == 0 ==> blockInFile == finalBlockInRequest || AtEof()
      ensures old(AtEof()) ==> blockInFile == old(blockInFile)
      ensures ret != 0 ==> Stops(ret) && (rq.isWrite ==> blockInFile < rq.start + |memory|)
    {
      var i: nat, blockInPage: nat := 0, seg.first;
      ghost var j: nat := 0;
      ret := 0;
      finalBlockInRequest := blockInFile + seg.count;
      while blockInFile < finalBlockInRequest
        invariant finalBlockInRequest == old(blockInFile) + seg.count
        invariant Walk() && Settled() && j <= seg.count && blockInFile == old(blockInFile) + j
        invariant j < seg.count ==> blockInPage < rq.pageBlocks && i * rq.pageBlocks + blockInPage == seg.first + j
        invariant ret == 0
        invariant old(AtEof()) ==> j == 0
      {
        var eof, n;
        ret, eof, n := WalkSegmentPage(seg, base, i, blockInPage, j);
        j := j + n;
        if ret != 0 || eof {
          return;
        }
        i, blockInPage := i + 1, 0;
      }
    }

    /** Segment `i`, entered `result` blocks into the request. */
    method WalkSegment(i: nat, result: nat) returns (ret: int, n: nat)
      requires i < |rq.segs| && Walk() && Settled() && result == blockInFile - rq.start
      requires !AtEof() ==> result == |SegmentsSlots(rq.segs[..i], rq.pageBlocks)|
      modifies `finalBlockInRequest, `mapBh, `blocksAvailable, `nextBlockForIo, `asked, `head,
               `startZeroDone, `blockInFile, `zeroed, sections
      ensures Walk() && Settled() && result + n == blockInFile - rq.start
      ensures ret == 0 && !AtEof() ==> result + n == |SegmentsSlots(rq.segs[..i + 1], rq.pageBlocks)|
      ensures ret != 0 ==> Stops(ret) && (rq.isWrite ==> blockInFile < rq.start + |memory|)
    {
      var seg := rq.segs[i];
      ghost var base := |SegmentsSlots(rq.segs[..i], rq.pageBlocks)|;
      assert Open(true);
      SegmentsSplit(rq.segs, rq.pageBlocks, i);
      ret := DoDirectIO(seg, base);
      n := seg.count - (finalBlockInRequest - blockInFile);
    }

    /** The iovec loop of do_blockdev_direct_IO (lines 1181-1212). */
    method WalkSegments() returns (ret: int, result: nat)
      requires Walk() && Settled() && blockInFile == rq.start
      modifies `finalBlockInRequest, `mapBh, `blocksAvailable, `nextBlockForIo, `asked, `head,
               `startZeroDone, `blockInFile, `zeroed, sections
      ensures Walk() && Settled() && result == blockInFile - rq.start
      ensures ret == 0 ==> result == |memory| || AtEof()
      ensures ret != 0 ==> Stops(ret) && (rq.isWrite ==> blockInFile < rq.start + |memory|)
    {
      var i: nat := 0;
      ret, result := 0, 0;
      while i < |rq.segs|
        invariant i <= |rq.segs| && Walk() && Settled() && result == blockInFile - rq.start
        invariant !AtEof() ==> result == |SegmentsSlots(rq.segs[..i], rq.pageBlocks)|
      {
        var n;
        ret, n := WalkSegment(i, result);
        result := result + n;
        if ret != 0 {
          return;
        }
        i := i + 1;
      }
      assert Open(true);
      assert rq.segs[..i] == rq.segs;
    }

    /** Line 1225: zero what follows the request in a new last filesystem block. */
    method ZeroEnd()
      requires Accepted() && Settled()
      modifies `startZeroDone, `nextBlockForIo, sections
      ensures sections.Valid()
      ensures sections.log == rq.TailZeroes(old(sections.log), TailNew(rq, fs, blockInFile - rq.start), blockInFile)
    {
      if blocksAvailable > 0 {
        AskedLast(rq, fs, rq.start, asked, blockInFile);
      }
      ZeroBlock(true);
    }

    /** What is known when the walk is over. */
    lemma {:induction false} Walked()
      requires Walk() && Settled()
      ensures Accepted() && head == rq.HeadZeroes(HeadNew(rq, fs, blockInFile - rq.start))
    {
      assert Open(true);
    }

    /** Lines 1225-1237: the same, and submit what is still held back. */
    method Close()
      requires Walk() && Settled()
      modifies `startZeroDone, `nextBlockForIo, sections
      ensures AllContiguous(sections.submitted) && rq.Valid() && rq.start <= blockInFile <= rq.start + |memory|
      ensures Flatten(sections.submitted) == Submission(rq, fs, memory, blockInFile - rq.start)
      ensures zeroed == Holes(rq.disk, rq.start, memory, blockInFile - rq.start) && (rq.isWrite ==> zeroed == [])
    {
      Walked();
      ZeroEnd();
      sections.Finish();
    }

    /** The submission half of do_blockdev_direct_IO.  For every request, every answer of the
        filesystem and every refusal of bio_add_page, the bios submitted move exactly: zeroes
        in front if the first filesystem block is new, then each block of the request that was
        walked, once, in order, at its disk block and from its own memory, then zeroes behind
        if the last filesystem block is new.  `result` is the number of blocks walked; a run
        without an error walks all of them, stopping early only where buffered I/O must take
        over (`fallback`) or where a read meets the end of the file; an error is get_block's
        answer for the block where the walk stopped. */
    method DirectIO() returns (ret: int, result: nat, fallback: bool)
      requires Walk() && Settled() && blockInFile == rq.start
      modifies `finalBlockInRequest, `mapBh, `blocksAvailable, `nextBlockForIo, `asked, `head,
               `startZeroDone, `blockInFile, `zeroed, sections
      ensures rq.Valid() && result == blockInFile - rq.start <= |memory|
      ensures Flatten(sections.submitted) == Submission(rq, fs, memory, result)
      ensures AllContiguous(sections.submitted)
      ensures zeroed == Holes(rq.disk, rq.start, memory, result) && (rq.isWrite ==> zeroed == [])
      ensures ret == 0 && !fallback ==> result == |memory| || AtEof()
      ensures ret != 0 ==> Stops(ret) && (rq.isWrite ==> blockInFile < rq.start + |memory|)
      ensures fallback ==> ret == 0 && Stops(ENOTBLK) && (rq.isWrite ==> blockInFile < rq.start + |memory|)
    {
      ret, result := WalkSegments();
      fallback := ret == ENOTBLK;
      if fallback {
        ret := 0;
      }
      Close();
    }
  }
}
