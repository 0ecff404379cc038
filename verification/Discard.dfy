/** Splitting a discard (block/blk-lib.c:40-143). */
module Discard {
  import opened Common

  const EIO := 5
  const ENXIO := 6
  const ENOMEM := 12
  const EOPNOTSUPP := 95

  /** UINT_MAX >> 9: the most sectors whose size in bytes fits 32 bits. */
  const MAX_SECTORS := 8388607

  datatype Bio = Bio(sector: int, sects: int)

  /** Limits in sectors; a granularity below one sector counts as one. */
  datatype Limits = Limits(granularity: nat, alignment: nat, maxDiscardSectors: nat)

  function Granularity(l: Limits): (g: nat)
    ensures g >= 1
  {
    if l.granularity > 1 then l.granularity else 1
  }

  function Alignment(l: Limits): (a: nat)
    ensures a < Granularity(l)
  {
    l.alignment % Granularity(l)
  }

  /** The largest multiple of the granularity that the device takes at once. */
  function MaxSectors(l: Limits): (m: nat)
    ensures m <= l.maxDiscardSectors && m <= MAX_SECTORS
    ensures m == 0 || m >= Granularity(l)
    ensures m % Granularity(l) == 0
  {
    var cap := if l.maxDiscardSectors < MAX_SECTORS then l.maxDiscardSectors else MAX_SECTORS;
    RoundedDown(cap, Granularity(l));
    cap / Granularity(l) * Granularity(l)
  }

  lemma {:induction false} RoundedDown(x: nat, g: nat)
    requires g >= 1
    ensures 0 <= x / g * g <= x && (x / g * g == 0 || x / g * g >= g)
    ensures (x / g * g) % g == 0
  {
    var q := x / g;
    DivBounds(x, g);
    assert q >= 1 ==> q * g >= g;
    assert q <= -1 ==> q * g + g <= 0;
    DivModUnique(q * g, q, 0, g);
  }

  ghost predicate Aligned(x: int, g: nat, a: int)
  {
    g >= 1 && forall open: bool {:trigger Open(open)} :: Open(open) ==> x % g == a
  }

  /** The last sector not after `end` that is aligned: the code's detour through a division. */
  function AlignedEnd(end: int, g: nat, a: nat): (e: int)
    requires g >= 1 && a < g
    ensures end - g < e <= end && e % g == a
    ensures end % g == a ==> e == end
  {
    var q := (end - a) / g;
    DivBounds(end - a, g);
    DivModUnique(q * g + a, q, a, g);
    AlignedSame(end, g, a);
    q * g + a
  }

  lemma {:induction false} AlignedSame(end: int, g: nat, a: nat)
    requires g >= 1 && a < g
    ensures end % g == a ==> ((end - a) / g) * g + a == end
  {
    if end % g == a {
      DivBounds(end, g);
      DivModUnique(end - a, end / g, 0, g);
      DivBounds(end - a, g);
    }
  }

  /** Going a multiple of the granularity further keeps the alignment. */
  lemma {:induction false} AlignedStep(x: int, m: nat, g: nat, a: nat)
    requires g >= 1 && x % g == a && m % g == 0
    ensures (x + m) % g == a
  {
    DivBounds(x, g);
    DivBounds(m, g);
    assert x + m == (x / g + m / g) * g + a;
    DivModUnique(x + m, x / g + m / g, a, g);
  }

  /** The bios cover [start, end) without gaps or overlaps, in order. */
  ghost predicate Tiles(bios: seq<Bio>, start: int, end: int)
  {
    if bios == [] then start == end
    else
      var last := bios[|bios| - 1];
      last.sector + last.sects == end && Tiles(bios[..|bios| - 1], start, last.sector)
  }

  /** What every bio of a split obeys: `open` says that more is to come after the last one. */
  ghost predicate SplitOk(bios: seq<Bio>, g: nat, a: nat, max: nat, open: bool)
  {
    && (forall i :: 0 <= i < |bios| ==> 0 < bios[i].sects <= max)
    && (forall i :: 0 < i < |bios| ==> Aligned(bios[i].sector, g, a))
    && (forall i :: 0 < i < |bios| && (open || i < |bios| - 1) ==> bios[i].sects == max)
  }

  /** The size of the next bio. */
  method NextSize(sector: int, left: nat, g: nat, a: nat, max: nat) returns (sects: int)
    requires a < g <= max && Aligned(max, g, 0) && left > 0
    ensures 0 < sects <= max && sects <= left
    ensures sects < left ==> Aligned(sector + sects, g, a) && (Aligned(sector, g, a) ==> sects == max)
  {
    assert Open(true);
    sects := if left < max then left else max;
    var end := sector + sects;
    if sects < left && end % g != a {
      if sector % g == a {
        AlignedStep(sector, max, g, a);
        assert false;
      }
      end := AlignedEnd(end, g, a);
      sects := end - sector;
    }
  }

  /** The loop of blkdev_issue_discard; bio_alloc succeeds `grants` times. */
  method Split(sector: int, nrSects: nat, g: nat, a: nat, max: nat, grants: nat)
    returns (ok: bool, bios: seq<Bio>, reached: int)
    requires a < g <= max && Aligned(max, g, 0)
    ensures Tiles(bios, sector, reached) && reached <= sector + nrSects
    ensures ok <==> reached == sector + nrSects
    ensures |bios| <= grants && (!ok ==> |bios| == grants)
    ensures SplitOk(bios, g, a, max, reached < sector + nrSects)
  {
    ok, bios, reached := true, [], sector;
    var left: nat := nrSects;
    while left > 0
      invariant reached + left == sector + nrSects && Tiles(bios, sector, reached)
      invariant SplitOk(bios, g, a, max, left > 0)
      invariant left > 0 && bios != [] ==> Aligned(reached, g, a)
      invariant |bios| <= grants
    {
      if |bios| == grants {
        ok := false;
        break;
      }
      var sects := NextSize(reached, left, g, a, max);
      TilesSnoc(bios, sector, Bio(reached, sects));
      SplitSnoc(bios, g, a, max, Bio(reached, sects), sects < left);
      bios := bios + [Bio(reached, sects)];
      left := left - sects;
      reached := reached + sects;
    }
  }

  /** blkdev_issue_discard.  With every allocation succeeding the bios
      tile the range; each is positive, at most the rounded maximum (whose size in bytes fits
      32 bits), starts aligned unless it is the first, and has exactly that maximum unless it
      is the first or the last.  A failed allocation, after `grants` good ones, leaves such a
      split of a prefix; `ioError` says that some bio, if there is any, comes back with an error. */
  method IssueDiscard(hasQueue: bool, supported: bool, secure: bool, secureSupported: bool, l: Limits,
                      sector: int, nrSects: nat, grants: nat, ioError: bool)
    returns (ret: int, bios: seq<Bio>, reached: int)
    ensures ret == -ENXIO <==> !hasQueue
    ensures ret == -EOPNOTSUPP <==> hasQueue && (!supported || MaxSectors(l) == 0 || (secure && !secureSupported))
    ensures ret == -ENXIO || ret == -EOPNOTSUPP ==> bios == []
    ensures ret in {0, -EIO, -ENXIO, -ENOMEM, -EOPNOTSUPP}
    ensures Tiles(bios, sector, reached) && reached <= sector + nrSects
    ensures ret == -EIO ==> reached < sector + nrSects ==> |bios| == grants
    ensures ret == -EIO <==> ret != -ENXIO && ret != -EOPNOTSUPP && ioError && bios != []
    ensures ret == 0 ==> reached == sector + nrSects
    ensures ret == -ENOMEM ==> reached < sector + nrSects && |bios| == grants
    ensures SplitOk(bios, Granularity(l), Alignment(l), MaxSectors(l), reached < sector + nrSects)
  {
    if !hasQueue {
      return -ENXIO, [], sector;
    }
    var g, a, max := Granularity(l), Alignment(l), MaxSectors(l);
    if !supported || max == 0 || (secure && !secureSupported) {
      return -EOPNOTSUPP, [], sector;
    }
    var ok;
    ok, bios, reached := Split(sector, nrSects, g, a, max, grants);
    ret := if ioError && bios != [] then -EIO else if ok then 0 else -ENOMEM;
  }

  /** The size in bytes of every bio of a split fits 32 bits. */
  lemma {:induction false} BytesFit(bios: seq<Bio>, l: Limits, open: bool, i: nat)
    requires SplitOk(bios, Granularity(l), Alignment(l), MaxSectors(l), open) && i < |bios|
    ensures bios[i].sects * 512 < 0x1_0000_0000
  {
  }

  /** Every boundary inside a split sits at the device's alignment offset, in sectors. */
  lemma {:induction false} InnerAligned(bios: seq<Bio>, start: int, end: int, l: Limits, open: bool, i: nat)
    requires Tiles(bios, start, end) && 0 < i < |bios|
    requires SplitOk(bios, Granularity(l), Alignment(l), MaxSectors(l), open)
    ensures bios[i].sector % Granularity(l) == Alignment(l)
    ensures bios[i - 1].sector + bios[i - 1].sects == bios[i].sector
  {
    assert Open(true);
    InnerTiles(bios, start, end, i);
  }

  lemma {:induction false} InnerTiles(bios: seq<Bio>, start: int, end: int, i: nat)
    requires Tiles(bios, start, end) && 0 < i < |bios|
    ensures bios[i - 1].sector + bios[i - 1].sects == bios[i].sector
  {
    var front := bios[..|bios| - 1];
    assert Tiles(front, start, bios[|bios| - 1].sector);
    if i < |front| {
      InnerTiles(front, start, bios[|bios| - 1].sector, i);
    }
  }

  lemma {:induction false} SplitSnoc(bios: seq<Bio>, g: nat, a: nat, max: nat, b: Bio, open: bool)
    requires SplitOk(bios, g, a, max, true) && 0 < b.sects <= max
    requires bios != [] ==> Aligned(b.sector, g, a) && (open ==> b.sects == max)
    ensures SplitOk(bios + [b], g, a, max, open)
  {
  }

  lemma {:induction false} TilesSnoc(bios: seq<Bio>, start: int, b: Bio)
    requires Tiles(bios, start, b.sector)
    ensures Tiles(bios + [b], start, b.sector + b.sects)
  {
    assert (bios + [b])[..|bios|] == bios;
  }
}
