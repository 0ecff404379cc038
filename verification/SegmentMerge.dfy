/** Counting, merging and mapping (block/blk-merge_957_27.c:12-198 and 268-381, with the
    merge entry points of block/blk-core_957-27.c). */
module SegmentMerge {
  import opened Common
  import opened SegmentTheory
  import opened SegmentBytes

  /** struct bio: its vectors, bi_seg_front_size, bi_seg_back_size, bi_phys_segments and the
      BIO_SEG_VALID flag. */
  datatype Bio = Bio(vecs: seq<Vec>, segFront: nat, segBack: nat, physSegments: nat, segValid: bool)

  /** Bios here carry data, in vectors that are not empty. */
  ghost predicate HasData(b: Bio)
  {
    b.vecs != [] && forall i :: 0 <= i < |b.vecs| ==> Len(b.vecs[i]) >= 1
  }

  ghost predicate BioValid(q: Queue, b: Bio)
  {
    forall open: bool {:trigger Open(open)} :: Open(open) ==>
      HasData(b) && (b.segValid ==> Counted(q, b.vecs, b.physSegments, b.segFront, b.segBack))
  }

  ghost function AllVecs(bios: seq<Bio>): seq<Vec>
  {
    if bios == [] then [] else AllVecs(bios[..|bios| - 1]) + bios[|bios| - 1].vecs
  }

  /** The vectors before vector `j` of bio `i`. */
  ghost function Before(bios: seq<Bio>, i: nat, j: nat): seq<Vec>
    requires i < |bios| && j <= |bios[i].vecs|
  {
    AllVecs(bios[..i]) + bios[i].vecs[..j]
  }

  lemma {:induction false} BeforeNext(bios: seq<Bio>, i: nat, j: nat)
    requires i < |bios| && j < |bios[i].vecs|
    ensures Before(bios, i, j + 1) == Before(bios, i, j) + [bios[i].vecs[j]]
  {
    assert bios[i].vecs[..j + 1] == bios[i].vecs[..j] + [bios[i].vecs[j]];
  }

  lemma {:induction false} BeforeEnd(bios: seq<Bio>, i: nat)
    requires i < |bios|
    ensures Before(bios, i, 0) == AllVecs(bios[..i])
    ensures Before(bios, i, |bios[i].vecs|) == AllVecs(bios[..i + 1])
  {
    assert bios[..i + 1][..i] == bios[..i];
    assert bios[i].vecs[..|bios[i].vecs|] == bios[i].vecs;
  }

  /** The locals of __blk_recalc_rq_segments; `front` is the first bio's bi_seg_front_size. */
  datatype Counter = Counter(nr: nat, segSize: nat, prev: Option<Vec>, highPrev: bool, front: nat)

  /** The vectors counted so far are cut as `c` says; only a first segment that is still open
      may exceed the recorded front size. */
  ghost predicate CountsTo(q: Queue, done: seq<Vec>, s: Counter, c: Cut)
  {
    if done == [] then s.nr == 0 && s.highPrev
    else
      && Vecs(c) == done && Ok(q, c) && s.prev == Some(c.v)
      && Segments(c) == s.nr && Last(c) == s.segSize
      && (s.nr > 1 ==> First(c) <= s.front)
      && (AllLow(done) ==> !s.highPrev && (s.nr, s.segSize) == Greedy(q, done))
  }

  /** No vector needs bouncing. */
  ghost predicate AllLow(vs: seq<Vec>)
  {
    forall i :: 0 <= i < |vs| ==> !vs[i].high
  }

  lemma {:induction false} AllLowSnoc(vs: seq<Vec>, v: Vec)
    ensures AllLow(vs + [v]) <==> AllLow(vs) && !v.high
  {
    if AllLow(vs + [v]) {
      assert (vs + [v])[|vs|] == v;
      assert forall i :: 0 <= i < |vs| ==> vs[i] == (vs + [v])[i];
    }
  }

  /** One vector in __blk_recalc_rq_segments. */
  method CountVec(q: Queue, s: Counter, v: Vec, ghost done: seq<Vec>, ghost c: Cut) returns (t: Counter, ghost d: Cut)
    requires CountsTo(q, done, s, c)
    ensures CountsTo(q, done + [v], t, d) && s.front <= t.front
  {
    AllLowSnoc(done, v);
    GreedySnoc(q, done, v);
    var joins := !v.high && !s.highPrev && q.cluster && s.prev.Some? && Joins(q, s.segSize, s.prev.value, v);
    if joins {
      t := s.(segSize := s.segSize + Len(v), prev := Some(v));
      d := Join(c, v);
    } else {
      var front := if s.nr == 1 && s.segSize > s.front then s.segSize else s.front;
      t := Counter(s.nr + 1, Len(v), Some(v), v.high, front);
      d := if done == [] then One(v) else New(c, v);
    }
  }

  /** __blk_recalc_rq_segments (sg merging enabled): the number of segments of a chain of bios,
      with the new front size of its first bio and back size of its last.  Unless some vector
      needs bouncing it is exactly the number of entries that mapping will need. */
  method Recalc(q: Queue, bios: seq<Bio>) returns (nr: nat, front: nat, back: nat)
    requires forall i :: 0 <= i < |bios| ==> HasData(bios[i])
    ensures bios == [] ==> nr == 0
    ensures bios != [] ==>
              && Counted(q, AllVecs(bios), nr, front, back)
              && bios[0].segFront <= front && bios[|bios| - 1].segBack <= back
              && (AllLow(AllVecs(bios)) ==> nr == Greedy(q, AllVecs(bios)).0)
  {
    if bios == [] {
      return 0, 0, 0;
    }
    var s := Counter(0, 0, None, true, bios[0].segFront);
    ghost var c: Cut := One(bios[0].vecs[0]);
    assert bios[..0] == [];
    for i := 0 to |bios|
      invariant CountsTo(q, AllVecs(bios[..i]), s, c) && bios[0].segFront <= s.front
      invariant i > 0 ==> AllVecs(bios[..i]) != []
    {
      s, c := CountBio(q, bios, i, s, c);
    }
    assert bios[..|bios|] == bios;
    front := if s.nr == 1 && s.segSize > s.front then s.segSize else s.front;
    back := if s.segSize > bios[|bios| - 1].segBack then s.segSize else bios[|bios| - 1].segBack;
    nr := s.nr;
    CountedBy(q, c, front, back);
  }

  /** The inner loop of __blk_recalc_rq_segments. */
  method CountBio(q: Queue, bios: seq<Bio>, i: nat, s0: Counter, ghost c0: Cut) returns (s: Counter, ghost c: Cut)
    requires i < |bios| && HasData(bios[i]) && CountsTo(q, AllVecs(bios[..i]), s0, c0)
    ensures CountsTo(q, AllVecs(bios[..i + 1]), s, c) && s0.front <= s.front && AllVecs(bios[..i + 1]) != []
  {
    s, c := s0, c0;
    BeforeEnd(bios, i);
    for j := 0 to |bios[i].vecs|
      invariant CountsTo(q, Before(bios, i, j), s, c) && s0.front <= s.front
    {
      BeforeNext(bios, i, j);
      s, c := CountVec(q, s, bios[i].vecs[j], Before(bios, i, j), c);
    }
  }

  lemma {:induction false} AllVecsOne(b: Bio)
    ensures AllVecs([b]) == b.vecs
  {
    assert AllVecs([b]) == AllVecs([b][..0]) + b.vecs;
  }

  /** blk_recount_segments on a bio by itself. */
  method Recount(q: Queue, b: Bio) returns (r: Bio)
    requires HasData(b)
    ensures r.segValid && BioValid(q, r) && r.vecs == b.vecs
    ensures b.segFront <= r.segFront && b.segBack <= r.segBack
    ensures AllLow(b.vecs) ==> r.physSegments == Greedy(q, b.vecs).0
  {
    ghost var vs := AllVecs([b]);
    AllVecsOne(b);
    var nr, front, back := Recalc(q, [b]);
    assert Counted(q, vs, nr, front, back);
    RecountOk(q, b, nr, front, back);
    r := Bio(b.vecs, front, back, nr, true);
  }

  lemma {:induction false} RecountOk(q: Queue, b: Bio, nr: nat, front: nat, back: nat)
    requires HasData(b) && Counted(q, b.vecs, nr, front, back)
    ensures BioValid(q, Bio(b.vecs, front, back, nr, true))
  {
  }

  /** blk_phys_contig_segment, on bios with data. */
  predicate Contiguous(q: Queue, b: Bio, next: Bio)
    requires b.vecs != [] && next.vecs != []
  {
    && q.cluster
    && b.segBack + next.segFront <= q.maxSegmentSize
    && Adjacent(q, b.vecs[|b.vecs| - 1], next.vecs[0])
  }

  /** With exact sizes, blk_phys_contig_segment answers exactly whether the last segment of one
      bio and the first of the next may be melted into one. */
  lemma {:induction false} ContiguousExact(q: Queue, b: Bio, next: Bio, c: Cut, d: Cut)
    requires Vecs(c) == b.vecs && Ok(q, c) && Last(c) == b.segBack
    requires Vecs(d) == next.vecs && Ok(q, d) && First(d) == next.segFront
    ensures Contiguous(q, b, next) <==> Ok(q, Concat(c, d, true))
  {
    if Contiguous(q, b, next) {
      ConcatJoin(q, c, d);
    } else if Ok(q, Concat(c, d, true)) {
      ConcatJoinOnly(q, c, d);
    }
  }

  lemma {:induction false} AllVecsEnds(bios: seq<Bio>)
    requires bios != [] && forall i :: 0 <= i < |bios| ==> bios[i].vecs != []
    ensures var vs, tail := AllVecs(bios), bios[|bios| - 1].vecs;
            vs != [] && vs[0] == bios[0].vecs[0] && vs[|vs| - 1] == tail[|tail| - 1]
  {
    if |bios| > 1 {
      AllVecsEnds(bios[..|bios| - 1]);
    }
  }

  lemma {:induction false} AllVecsConcat(a: seq<Bio>, b: seq<Bio>)
    requires b != []
    ensures AllVecs(a + b) == AllVecs(a) + AllVecs(b)
  {
    var k := |b| - 1;
    assert (a + b)[..|a| + k] == a + b[..k];
    if k == 0 {
      assert a + b[..k] == a && b == [b[0]];
      AllVecsOne(b[0]);
    } else {
      AllVecsConcat(a, b[..k]);
      ConcatAssoc(AllVecs(a), AllVecs(b[..k]), b[k].vecs);
    }
  }

  lemma {:induction false} ConcatAssoc(a: seq<Vec>, b: seq<Vec>, c: seq<Vec>)
    ensures (a + b) + c == a + (b + c)
  {
  }

  /** Changing anything but the vectors of a bio. */
  lemma {:induction false} AllVecsUpdate(bios: seq<Bio>, i: nat, b: Bio)
    requires i < |bios| && b.vecs == bios[i].vecs
    ensures AllVecs(bios[i := b]) == AllVecs(bios)
  {
    var k := |bios| - 1;
    if i < k {
      AllVecsUpdate(bios[..k], i, b);
      assert bios[i := b][..k] == bios[..k][i := b];
    } else {
      assert bios[i := b][..k] == bios[..k];
    }
  }

  /** The scatterlist built from the vectors `done`; what it describes enters a proof where Open
      asks for it. */
  ghost predicate MapsTo(q: Queue, done: seq<Vec>, prev: Option<Vec>, sg: seq<Piece>, groups: seq<seq<Vec>>)
  {
    && (if done == [] then prev.None? && sg == [] && groups == []
        else prev == Some(done[|done| - 1]) && sg != [] && |groups| == |sg|)
    && forall open: bool {:trigger Open(open)} :: Open(open) ==> done == [] || Described(q, done, sg, groups)
  }

  ghost predicate Described(q: Queue, done: seq<Vec>, sg: seq<Piece>, groups: seq<seq<Vec>>)
    requires done != []
  {
    && sg != [] && SgBytes(sg) == VecBytes(done)
    && EntriesOk(q, done, sg, groups)
    && (|sg|, sg[|sg| - 1].len) == Greedy(q, done)
    && EndsWith(q, sg[|sg| - 1], done[|done| - 1])
  }

  /** The entry `e` ends with the vector `p`, in whose window it begins. */
  ghost predicate EndsWith(q: Queue, e: Piece, p: Vec)
  {
    e.start + e.len == End(p) && e.start <= p.piece.start && Window(q, e.start) == Window(q, p.piece.start)
  }

  lemma {:induction false} EndsWithNext(q: Queue, e: Piece, p: Vec, v: Vec)
    requires EndsWith(q, e, p) && Adjacent(q, p, v) && Len(v) >= 1
    ensures var grown := Piece(e.start, e.len + Len(v));
            EndsWith(q, grown, v) && Window(q, e.start) == Window(q, e.start + grown.len - 1)
  {
    WindowBetween(q, e.start, v.piece.start, End(v) - 1);
  }

  lemma {:induction false} JoinedBytes(done: seq<Vec>, sg: seq<Piece>, v: Vec, e: Piece)
    requires sg != [] && SgBytes(sg) == VecBytes(done)
    requires var last := sg[|sg| - 1];
             last.start + last.len == v.piece.start && e == Piece(last.start, last.len + Len(v))
    ensures SgBytes(sg[|sg| - 1 := e]) == VecBytes(done + [v])
  {
    VecBytesSnoc(done, v);
    SgBytesGrow(sg, Len(v));
  }

  lemma {:induction false} DescribedJoined(q: Queue, done: seq<Vec>, sg: seq<Piece>, groups: seq<seq<Vec>>, v: Vec,
                                           e: Piece)
    requires done != [] && Described(q, done, sg, groups) && Len(v) >= 1
    requires Joins(q, sg[|sg| - 1].len, done[|done| - 1], v)
    requires e == Piece(sg[|sg| - 1].start, sg[|sg| - 1].len + Len(v))
    ensures var k := |sg| - 1;
            Described(q, done + [v], sg[k := e], groups[k := groups[k] + [v]])
  {
    GreedySnoc(q, done, v);
    JoinedBytes(done, sg, v, e);
    EndsWithNext(q, sg[|sg| - 1], done[|done| - 1], v);
    EntriesGrow(q, done, sg, groups, v, e);
  }

  /** A vector that goes on with the last entry: only neighbouring vectors are compared, yet the
      whole entry stays in one window. */
  lemma {:induction false} MapJoined(q: Queue, done: seq<Vec>, sg: seq<Piece>, groups: seq<seq<Vec>>, v: Vec, e: Piece)
    requires done != [] && MapsTo(q, done, Some(done[|done| - 1]), sg, groups) && Len(v) >= 1
    requires Joins(q, sg[|sg| - 1].len, done[|done| - 1], v)
    requires e == Piece(sg[|sg| - 1].start, sg[|sg| - 1].len + Len(v))
    ensures var k := |sg| - 1;
            MapsTo(q, done + [v], Some(v), sg[k := e], groups[k := groups[k] + [v]])
  {
    assert Open(true);
    DescribedJoined(q, done, sg, groups, v, e);
  }

  lemma {:induction false} StartedBytes(done: seq<Vec>, sg: seq<Piece>, v: Vec)
    requires SgBytes(sg) == VecBytes(done)
    ensures SgBytes(sg + [v.piece]) == VecBytes(done + [v])
  {
    VecBytesSnoc(done, v);
    SgBytesSnoc(sg, v.piece);
  }

  lemma {:induction false} EndsWithItself(q: Queue, v: Vec)
    ensures EndsWith(q, v.piece, v)
  {
  }

  /** A vector that starts an entry. */
  lemma {:induction false} MapStarted(q: Queue, done: seq<Vec>, prev: Option<Vec>, sg: seq<Piece>,
                                      groups: seq<seq<Vec>>, v: Vec)
    requires MapsTo(q, done, prev, sg, groups) && Len(v) >= 1
    requires done != [] ==> !Joins(q, sg[|sg| - 1].len, done[|done| - 1], v)
    ensures MapsTo(q, done + [v], Some(v), sg + [v.piece], groups + [[v]])
  {
    assert Open(true);
    GreedySnoc(q, done, v);
    StartedBytes(done, sg, v);
    EndsWithItself(q, v);
    EntriesAppend(q, done, sg, groups, v);
  }

  /** __blk_segment_map_sg. */
  method MapVec(q: Queue, v: Vec, prev: Option<Vec>, sg: seq<Piece>, ghost done: seq<Vec>, ghost groups: seq<seq<Vec>>)
    returns (sg': seq<Piece>, ghost groups': seq<seq<Vec>>)
    requires MapsTo(q, done, prev, sg, groups) && Len(v) >= 1
    ensures MapsTo(q, done + [v], Some(v), sg', groups')
  {
    if prev.Some? && q.cluster && Joins(q, sg[|sg| - 1].len, prev.value, v) {
      var k := |sg| - 1;
      sg' := sg[k := Piece(sg[k].start, sg[k].len + Len(v))];
      groups' := groups[k := groups[k] + [v]];
      MapJoined(q, done, sg, groups, v, sg'[k]);
    } else {
      sg', groups' := sg + [v.piece], groups + [[v]];
      MapStarted(q, done, prev, sg, groups, v);
    }
  }

  lemma {:induction false} MapsAll(q: Queue, done: seq<Vec>, prev: Option<Vec>, sg: seq<Piece>, groups: seq<seq<Vec>>)
    requires MapsTo(q, done, prev, sg, groups)
    ensures SgBytes(sg) == VecBytes(done) && EntriesOk(q, done, sg, groups) && |sg| == Greedy(q, done).0
  {
    assert Open(true);
  }

  method MapBio(q: Queue, bios: seq<Bio>, i: nat, prev0: Option<Vec>, sg0: seq<Piece>, ghost groups0: seq<seq<Vec>>)
    returns (prev: Option<Vec>, sg: seq<Piece>, ghost groups: seq<seq<Vec>>)
    requires i < |bios| && HasData(bios[i]) && MapsTo(q, AllVecs(bios[..i]), prev0, sg0, groups0)
    ensures MapsTo(q, AllVecs(bios[..i + 1]), prev, sg, groups)
  {
    prev, sg, groups := prev0, sg0, groups0;
    BeforeEnd(bios, i);
    for j := 0 to |bios[i].vecs|
      invariant MapsTo(q, Before(bios, i, j), prev, sg, groups)
    {
      BeforeNext(bios, i, j);
      sg, groups := MapVec(q, bios[i].vecs[j], prev, sg, Before(bios, i, j), groups);
      prev := Some(bios[i].vecs[j]);
    }
  }

  /** blk_rq_map_sg: the list describes exactly the bytes of the vectors, in order; every
      entry made of several vectors is within the size limit and inside one boundary window;
      and there are as few entries as any admissible cut allows. */
  method MapSg(q: Queue, bios: seq<Bio>) returns (sg: seq<Piece>, ghost groups: seq<seq<Vec>>)
    requires forall i :: 0 <= i < |bios| ==> HasData(bios[i])
    ensures SgBytes(sg) == VecBytes(AllVecs(bios))
    ensures EntriesOk(q, AllVecs(bios), sg, groups)
    ensures |sg| == Greedy(q, AllVecs(bios)).0
  {
    var prev: Option<Vec> := None;
    sg, groups := [], [];
    assert bios[..0] == [];
    for i := 0 to |bios|
      invariant MapsTo(q, AllVecs(bios[..i]), prev, sg, groups)
    {
      prev, sg, groups := MapBio(q, bios, i, prev, sg, groups);
    }
    assert bios[..|bios|] == bios;
    MapsAll(q, AllVecs(bios), prev, sg, groups);
  }

  /** The sizes that ll_merge_requests_fn assigns when the two requests are contiguous. */
  function FrontSet(bios: seq<Bio>, n: nat, size: nat): (r: seq<Bio>)
    requires bios != []
    ensures |r| == |bios|
  {
    if n == 1 then bios[0 := bios[0].(segFront := size)] else bios
  }

  function BackSet(bios: seq<Bio>, n: nat, size: nat): (r: seq<Bio>)
    requires bios != []
    ensures |r| == |bios|
  {
    if n == 1 then bios[|bios| - 1 := bios[|bios| - 1].(segBack := size)] else bios
  }

  /** What a request maintains about its bios; its parts enter a proof where Open asks for
      them. */
  ghost predicate ChainOk(q: Queue, bios: seq<Bio>, n: nat)
  {
    bios != [] && forall open: bool {:trigger Open(open)} :: Open(open) ==> ChainCounted(q, bios, n)
  }

  ghost predicate ChainCounted(q: Queue, bios: seq<Bio>, n: nat)
    requires bios != []
  {
    && (forall i :: 0 <= i < |bios| ==> HasData(bios[i]))
    && Counted(q, AllVecs(bios), n, bios[0].segFront, bios[|bios| - 1].segBack)
  }

  lemma {:induction false} ChainData(q: Queue, bios: seq<Bio>, n: nat)
    requires ChainOk(q, bios, n)
    ensures forall i :: 0 <= i < |bios| ==> HasData(bios[i])
  {
    assert Open(true);
  }

  /** The sizes that ll_merge_requests_fn assigns are sound even if it then refuses. */
  lemma {:induction false} FrontSetOk(q: Queue, bios: seq<Bio>, n: nat, size: nat)
    requires ChainOk(q, bios, n) && bios[|bios| - 1].segBack <= size
    ensures ChainOk(q, FrontSet(bios, n, size), n) && AllVecs(FrontSet(bios, n, size)) == AllVecs(bios)
  {
    if n == 1 {
      assert Open(true);
      AllVecsUpdate(bios, 0, bios[0].(segFront := size));
      CountedWiden(q, AllVecs(bios), n, bios[0].segFront, bios[|bios| - 1].segBack, size, bios[|bios| - 1].segBack);
    }
  }

  lemma {:induction false} BackSetOk(q: Queue, bios: seq<Bio>, n: nat, size: nat)
    requires ChainOk(q, bios, n) && bios[0].segFront <= size
    ensures ChainOk(q, BackSet(bios, n, size), n) && AllVecs(BackSet(bios, n, size)) == AllVecs(bios)
  {
    if n == 1 {
      assert Open(true);
      var k := |bios| - 1;
      AllVecsUpdate(bios, k, bios[k].(segBack := size));
      CountedWiden(q, AllVecs(bios), n, bios[0].segFront, bios[k].segBack, bios[0].segFront, size);
    }
  }

  /** The sizes of a bio at either end may grow. */
  lemma {:induction false} WidenedOk(q: Queue, bios: seq<Bio>, n: nat, k: nat, b: Bio)
    requires ChainOk(q, bios, n) && k < |bios| && b.vecs == bios[k].vecs
    requires bios[k].segFront <= b.segFront && bios[k].segBack <= b.segBack
    ensures ChainOk(q, bios[k := b], n) && AllVecs(bios[k := b]) == AllVecs(bios)
  {
    assert Open(true);
    AllVecsUpdate(bios, k, b);
    CountedWiden(q, AllVecs(bios), n, bios[0].segFront, bios[|bios| - 1].segBack,
                 bios[k := b][0].segFront, bios[k := b][|bios| - 1].segBack);
  }

  lemma {:induction false} BioData(q: Queue, b: Bio)
    requires BioValid(q, b)
    ensures HasData(b)
  {
    assert Open(true);
  }

  /** A chain is sound once its vectors are counted with the sizes at its two ends. */
  lemma {:induction false} JoinedOk(q: Queue, a: seq<Bio>, n: nat, b: seq<Bio>, n': nat, total: nat)
    requires ChainOk(q, a, n) && ChainOk(q, b, n')
    requires Counted(q, AllVecs(a) + AllVecs(b), total, a[0].segFront, b[|b| - 1].segBack)
    ensures ChainOk(q, a + b, total) && AllVecs(a + b) == AllVecs(a) + AllVecs(b)
  {
    AllVecsConcat(a, b);
    ChainData(q, a, n);
    ChainData(q, b, n');
    var all := a + b;
    assert all[0] == a[0] && all[|all| - 1] == b[|b| - 1];
  }

  lemma {:induction false} AppendOk(q: Queue, a: seq<Bio>, n: nat, b: seq<Bio>, n': nat, total: nat)
    requires ChainOk(q, a, n) && ChainOk(q, b, n') && total == n + n'
    ensures ChainOk(q, a + b, total) && AllVecs(a + b) == AllVecs(a) + AllVecs(b)
  {
    assert Open(true);
    CountedAppend(q, AllVecs(a), n, a[0].segFront, a[|a| - 1].segBack,
                  AllVecs(b), n', b[0].segFront, b[|b| - 1].segBack, total);
    JoinedOk(q, a, n, b, n', total);
  }

  lemma {:induction false} MeltOk(q: Queue, a: seq<Bio>, n: nat, b: seq<Bio>, n': nat, size: nat, total: int)
    requires ChainOk(q, a, n) && ChainOk(q, b, n') && total == n + n' - 1
    requires a[|a| - 1].vecs != [] && b[0].vecs != [] && Contiguous(q, a[|a| - 1], b[0])
    requires size == a[|a| - 1].segBack + b[0].segFront
    ensures var all := FrontSet(a, n, size) + BackSet(b, n', size);
            total >= 1 && ChainOk(q, all, total) && AllVecs(all) == AllVecs(a) + AllVecs(b)
  {
    var a', b' := FrontSet(a, n, size), BackSet(b, n', size);
    FrontSetOk(q, a, n, size);
    BackSetOk(q, b, n', size);
    MeltCounted(q, a, n, b, n', size, total, a'[0].segFront, b'[|b'| - 1].segBack);
    JoinedOk(q, a', n, b', n', total);
  }

  lemma {:induction false} MeltCounted(q: Queue, a: seq<Bio>, n: nat, b: seq<Bio>, n': nat, size: nat,
                                       total: int, first: nat, last: nat)
    requires ChainOk(q, a, n) && ChainOk(q, b, n') && total == n + n' - 1
    requires a[|a| - 1].vecs != [] && b[0].vecs != [] && Contiguous(q, a[|a| - 1], b[0])
    requires size == a[|a| - 1].segBack + b[0].segFront
    requires first == (if n == 1 then size else a[0].segFront) && last == (if n' == 1 then size else b[|b| - 1].segBack)
    ensures total >= 1 && Counted(q, AllVecs(a) + AllVecs(b), total, first, last)
  {
    assert Open(true);
    AllVecsEnds(a);
    AllVecsEnds(b);
    CountedMelt(q, AllVecs(a), n, a[0].segFront, a[|a| - 1].segBack, AllVecs(b), n', b[0].segFront, b[|b| - 1].segBack,
                total, first, last);
  }

  /** A chain with the sizes that a recount found. */
  function Resized(bios: seq<Bio>, front: nat, back: nat): (r: seq<Bio>)
    requires bios != []
    ensures |r| == |bios|
  {
    var first := bios[0 := bios[0].(segFront := front)];
    first[|bios| - 1 := first[|bios| - 1].(segBack := back)]
  }

  lemma {:induction false} ResizedOk(q: Queue, bios: seq<Bio>, nr: nat, front: nat, back: nat)
    requires bios != [] && forall i :: 0 <= i < |bios| ==> HasData(bios[i])
    requires Counted(q, AllVecs(bios), nr, front, back)
    ensures ChainOk(q, Resized(bios, front, back), nr) && AllVecs(Resized(bios, front, back)) == AllVecs(bios)
  {
    var first := bios[0 := bios[0].(segFront := front)];
    AllVecsUpdate(bios, 0, bios[0].(segFront := front));
    AllVecsUpdate(first, |bios| - 1, first[|bios| - 1].(segBack := back));
  }

  lemma {:induction false} OneBio(q: Queue, b: Bio)
    requires b.segValid && BioValid(q, b)
    ensures AllVecs([b]) == b.vecs && ChainOk(q, [b], b.physSegments)
  {
    assert Open(true);
    AllVecsOne(b);
  }

  /** struct request: the chain of its bios and nr_phys_segments. */
  class Request {
    const q: Queue
    var bios: seq<Bio>
    var nrPhysSegments: nat

    ghost predicate Valid()
      reads this
    {
      ChainOk(q, bios, nrPhysSegments)
    }

    /** blk_rq_bio_prep, with bio_phys_segments. */
    constructor (q: Queue, bio: Bio)
      requires BioValid(q, bio)
      ensures Valid() && this.q == q && AllVecs(bios) == bio.vecs
    {
      var b := bio;
      if !bio.segValid {
        BioData(q, bio);
        b := Recount(q, bio);
      }
      this.q := q;
      bios, nrPhysSegments := [b], b.physSegments;
      OneBio(q, b);
    }

    /** blk_recount_segments on the first or last bio of the request. */
    method RecountAt(k: nat)
      requires Valid() && (k == 0 || k == |bios| - 1)
      modifies `bios
      ensures Valid() && AllVecs(bios) == old(AllVecs(bios))
      ensures |bios| == old(|bios|) && bios[k].segValid
    {
      if !bios[k].segValid {
        ChainData(q, bios, nrPhysSegments);
        var b := Recount(q, bios[k]);
        WidenedOk(q, bios, nrPhysSegments, k, b);
        bios := bios[k := b];
      }
    }

    /** ll_new_hw_segment; `refuse` stands for the integrity check. */
    method NewHwSegment(bio: Bio, refuse: bool) returns (ok: bool)
      modifies `nrPhysSegments
      ensures ok <==> old(nrPhysSegments) + bio.physSegments <= q.maxSegments && !refuse
      ensures nrPhysSegments == old(nrPhysSegments) + if ok then bio.physSegments else 0
    {
      ok := nrPhysSegments + bio.physSegments <= q.maxSegments && !refuse;
      if ok {
        nrPhysSegments := nrPhysSegments + bio.physSegments;
      }
    }

    /** ll_back_merge_fn and bio_attempt_back_merge; `early` and `late` stand for the refusals
        that do not depend on segments.  `b` is the bio as the call leaves it. */
    method BackMerge(bio: Bio, early: bool, late: bool) returns (ok: bool, b: Bio)
      requires Valid() && BioValid(q, bio)
      modifies this
      ensures Valid() && BioValid(q, b) && b.vecs == bio.vecs
      ensures AllVecs(bios) == if ok then old(AllVecs(bios)) + bio.vecs else old(AllVecs(bios))
      ensures ok <==> !early && !late && old(nrPhysSegments) + b.physSegments <= q.maxSegments
      ensures nrPhysSegments == old(nrPhysSegments) + if ok then b.physSegments else 0
      ensures (early || bio.segValid ==> b == bio) && (!early ==> b.segValid)
      ensures |bios| == old(|bios|) + if ok then 1 else 0
      ensures !early ==> bios[old(|bios|) - 1].segValid
    {
      b := bio;
      if early {
        return false, b;
      }
      RecountAt(|bios| - 1);
      if !b.segValid {
        BioData(q, b);
        b := Recount(q, b);
      }
      ok := NewHwSegment(b, late);
      if ok {
        OneBio(q, b);
        AppendOk(q, bios, old(nrPhysSegments), [b], b.physSegments, nrPhysSegments);
        bios := bios + [b];
      }
    }

    /** ll_front_merge_fn and bio_attempt_front_merge. */
    method FrontMerge(bio: Bio, early: bool, late: bool) returns (ok: bool, b: Bio)
      requires Valid() && BioValid(q, bio)
      modifies this
      ensures Valid() && BioValid(q, b) && b.vecs == bio.vecs
      ensures AllVecs(bios) == if ok then bio.vecs + old(AllVecs(bios)) else old(AllVecs(bios))
      ensures ok <==> !early && !late && old(nrPhysSegments) + b.physSegments <= q.maxSegments
      ensures nrPhysSegments == old(nrPhysSegments) + if ok then b.physSegments else 0
      ensures (early || bio.segValid ==> b == bio) && (!early ==> b.segValid)
      ensures |bios| == old(|bios|) + if ok then 1 else 0
      ensures !early ==> bios[if ok then 1 else 0].segValid
    {
      b := bio;
      if early {
        return false, b;
      }
      if !b.segValid {
        BioData(q, b);
        b := Recount(q, b);
      }
      RecountAt(0);
      ok := NewHwSegment(b, late);
      if ok {
        OneBio(q, b);
        AppendOk(q, [b], b.physSegments, bios, old(nrPhysSegments), nrPhysSegments);
        bios := [b] + bios;
      }
    }

    /** The segments that two requests make together: one less than the sum if the last of one
        and the first of the other can be melted. */
    ghost function Together(next: Request): int
      reads this, next
    {
      if bios != [] && next.bios != [] && bios[|bios| - 1].vecs != [] && next.bios[0].vecs != []
         && Contiguous(q, bios[|bios| - 1], next.bios[0])
      then nrPhysSegments + next.nrPhysSegments - 1
      else nrPhysSegments + next.nrPhysSegments
    }

    /** ll_merge_requests_fn and attempt_merge: on success `next` gives up its bios, and a
        refusal leaves both requests countable although their sizes may have been rewritten. */
    method MergeRequest(next: Request, early: bool, late: bool) returns (ok: bool)
      requires Valid() && next.Valid() && next != this && next.q == q
      modifies this, next
      ensures Valid()
      ensures ok <==> !early && !late && old(Together(next)) <= q.maxSegments
      ensures nrPhysSegments == if ok then old(Together(next)) else old(nrPhysSegments)
      ensures ok ==> AllVecs(bios) == old(AllVecs(bios)) + old(AllVecs(next.bios)) && next.bios == []
      ensures !ok ==> next.Valid() && AllVecs(next.bios) == old(AllVecs(next.bios))
      ensures !ok ==> AllVecs(bios) == old(AllVecs(bios))
    {
      if early {
        return false;
      }
      var total := Meet(next);
      if total > q.maxSegments || late {
        return false;
      }
      nrPhysSegments := total;
      bios := bios + next.bios;
      next.bios := [];
      ok := true;
    }

    /** The first half: the sizes where the requests meet, and the segments of both. */
    method Meet(next: Request) returns (total: nat)
      requires Valid() && next.Valid() && next != this && next.q == q
      modifies `bios, next`bios
      ensures Valid() && next.Valid() && total == old(Together(next))
      ensures AllVecs(bios) == old(AllVecs(bios)) && AllVecs(next.bios) == old(AllVecs(next.bios))
      ensures ChainOk(q, bios + next.bios, total) && AllVecs(bios + next.bios) == AllVecs(bios) + AllVecs(next.bios)
    {
      ChainData(q, bios, nrPhysSegments);
      ChainData(q, next.bios, next.nrPhysSegments);
      var size := bios[|bios| - 1].segBack + next.bios[0].segFront;
      if Contiguous(q, bios[|bios| - 1], next.bios[0]) {
        MeltOk(q, bios, nrPhysSegments, next.bios, next.nrPhysSegments, size, nrPhysSegments + next.nrPhysSegments - 1);
        FrontSetOk(q, bios, nrPhysSegments, size);
        BackSetOk(q, next.bios, next.nrPhysSegments, size);
        total := nrPhysSegments + next.nrPhysSegments - 1;
        bios := FrontSet(bios, nrPhysSegments, size);
        next.bios := BackSet(next.bios, next.nrPhysSegments, size);
      } else {
        total := nrPhysSegments + next.nrPhysSegments;
        AppendOk(q, bios, nrPhysSegments, next.bios, next.nrPhysSegments, total);
      }
    }

    /** blk_recalc_rq_segments: without bounce pages the count is then exactly the number of
        entries that Map makes. */
    method RecalcSegments()
      requires Valid()
      modifies this
      ensures Valid() && AllVecs(bios) == old(AllVecs(bios)) && |bios| == old(|bios|)
      ensures AllLow(AllVecs(bios)) ==> nrPhysSegments == Greedy(q, AllVecs(bios)).0
    {
      ChainData(q, bios, nrPhysSegments);
      var nr, front, back := Recalc(q, bios);
      ResizedOk(q, bios, nr, front, back);
      nrPhysSegments, bios := nr, Resized(bios, front, back);
    }

    /** The scatterlist of a request never has more entries than nr_phys_segments promises. */
    method Map() returns (sg: seq<Piece>, ghost groups: seq<seq<Vec>>)
      requires Valid()
      ensures |sg| <= nrPhysSegments
      ensures SgBytes(sg) == VecBytes(AllVecs(bios)) && EntriesOk(q, AllVecs(bios), sg, groups)
    {
      assert Open(true);
      sg, groups := MapSg(q, bios);
      CountBounds(q, AllVecs(bios), nrPhysSegments, bios[0].segFront, bios[|bios| - 1].segBack);
    }
  }
}
