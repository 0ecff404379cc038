/** Physical segments of a request (block/blk-merge_957_27.c): the theory that connects the
    running counts kept by the merge functions with the scatterlist built at the end. */
module SegmentTheory {

  /** A physically contiguous piece of memory. */
  datatype Piece = Piece(start: nat, len: nat)

  /** struct bio_vec; `high` says that its page lies above the queue's bounce limit. */
  datatype Vec = Vec(piece: Piece, high: bool)

  /** The limits of a queue.  `window` is the segment boundary mask plus one. */
  datatype Queue = Queue(cluster: bool, maxSegmentSize: nat, window: nat, maxSegments: nat)

  function Len(v: Vec): nat { v.piece.len }

  function End(v: Vec): nat { v.piece.start + v.piece.len }

  function Window(q: Queue, addr: int): int
  {
    if q.window == 0 then 0 else addr / q.window
  }

  /** BIOVEC_PHYS_MERGEABLE and BIOVEC_SEG_BOUNDARY of neighbouring vectors. */
  predicate Adjacent(q: Queue, a: Vec, b: Vec)
  {
    End(a) == b.piece.start && Window(q, a.piece.start) == Window(q, End(b) - 1)
  }

  /** `b` may be put into the segment that ends with `a` and has `size` bytes so far. */
  predicate Joins(q: Queue, size: nat, a: Vec, b: Vec)
  {
    q.cluster && size + Len(b) <= q.maxSegmentSize && Adjacent(q, a, b)
  }

  /** A way of cutting a sequence of vectors into segments: each vector but the first either
      starts a new segment or is joined to the one before. */
  datatype Cut = One(v: Vec) | New(rest: Cut, v: Vec) | Join(rest: Cut, v: Vec)

  /** The vectors that are cut. */
  ghost function Vecs(c: Cut): (vs: seq<Vec>)
    ensures |vs| >= 1 && vs[|vs| - 1] == c.v
  {
    if c.One? then [c.v] else Vecs(c.rest) + [c.v]
  }

  ghost function Segments(c: Cut): (n: nat)
    ensures n >= 1
  {
    if c.One? then 1 else if c.New? then Segments(c.rest) + 1 else Segments(c.rest)
  }

  /** The size of the last segment. */
  ghost function Last(c: Cut): nat
  {
    if c.Join? then Last(c.rest) + Len(c.v) else Len(c.v)
  }

  /** The size of the first segment. */
  ghost function First(c: Cut): nat
  {
    if Segments(c) == 1 then Last(c) else First(c.rest)
  }

  /** Every join is admissible. */
  ghost predicate Ok(q: Queue, c: Cut)
  {
    c.One? || (Ok(q, c.rest) && (c.Join? ==> Joins(q, Last(c.rest), c.rest.v, c.v)))
  }

  /** What the merge code maintains: some admissible cut has exactly `n` segments, with the
      first and last of them bounded by the recorded front and back sizes. */
  ghost predicate Counted(q: Queue, vs: seq<Vec>, n: nat, front: nat, back: nat)
  {
    exists c :: Vecs(c) == vs && Ok(q, c) && Segments(c) == n && First(c) <= front && Last(c) <= back
  }

  /** The cut `a`, continued with the cut `b` in a new segment or in the same one. */
  ghost function Concat(a: Cut, b: Cut, join: bool): Cut
  {
    match b
    case One(v) => if join then Join(a, v) else New(a, v)
    case New(r, v) => New(Concat(a, r, join), v)
    case Join(r, v) => Join(Concat(a, r, join), v)
  }

  lemma {:induction false} ConcatVecs(a: Cut, b: Cut, join: bool)
    ensures Vecs(Concat(a, b, join)) == Vecs(a) + Vecs(b)
  {
    if !b.One? {
      ConcatVecs(a, b.rest, join);
      assert Vecs(a) + (Vecs(b.rest) + [b.v]) == (Vecs(a) + Vecs(b.rest)) + [b.v];
    }
  }

  lemma {:induction false} ConcatNew(q: Queue, a: Cut, b: Cut)
    requires Ok(q, a) && Ok(q, b)
    ensures var c := Concat(a, b, false);
            && Ok(q, c) && Segments(c) == Segments(a) + Segments(b)
            && First(c) == First(a) && Last(c) == Last(b) && c.v == b.v
  {
    if !b.One? {
      ConcatNew(q, a, b.rest);
    }
  }

  /** Joining two cuts melts the last segment of one and the first of the other. */
  lemma {:induction false} ConcatJoin(q: Queue, a: Cut, b: Cut)
    requires Ok(q, a) && Ok(q, b)
    requires q.cluster && Adjacent(q, a.v, Vecs(b)[0]) && Last(a) + First(b) <= q.maxSegmentSize
    ensures var c := Concat(a, b, true);
            && Ok(q, c) && Segments(c) == Segments(a) + Segments(b) - 1 && c.v == b.v
            && First(c) == (if Segments(a) == 1 then Last(a) + First(b) else First(a))
            && Last(c) == (if Segments(b) == 1 then Last(a) + Last(b) else Last(b))
  {
    if !b.One? {
      ConcatJoin(q, a, b.rest);
    }
  }

  /** Only then: a joined cut is admissible just when the two melted segments fit together. */
  lemma {:induction false} ConcatJoinOnly(q: Queue, a: Cut, b: Cut)
    requires Ok(q, a) && Ok(q, b) && Ok(q, Concat(a, b, true))
    ensures q.cluster && Adjacent(q, a.v, Vecs(b)[0]) && Last(a) + First(b) <= q.maxSegmentSize
  {
    if !b.One? {
      ConcatJoinOnly(q, a, b.rest);
      ConcatJoin(q, a, b.rest);
    }
  }

  lemma {:induction false} CountedBy(q: Queue, c: Cut, front: nat, back: nat)
    requires Ok(q, c) && First(c) <= front && Last(c) <= back
    ensures Counted(q, Vecs(c), Segments(c), front, back)
  {
  }

  /** Sizes may grow; with a single segment either size bounds it. */
  lemma {:induction false} CountedWiden(q: Queue, vs: seq<Vec>, n: nat, front: nat, back: nat, front': nat, back': nat)
    requires Counted(q, vs, n, front, back)
    requires front <= front' || (n == 1 && back <= front')
    requires back <= back' || (n == 1 && front <= back')
    ensures Counted(q, vs, n, front', back')
  {
    var c :| Vecs(c) == vs && Ok(q, c) && Segments(c) == n && First(c) <= front && Last(c) <= back;
    CountedBy(q, c, front', back');
  }

  /** Appending a bio in a new segment: ll_new_hw_segment. */
  lemma {:induction false} CountedAppend(q: Queue, vs: seq<Vec>, n: nat, front: nat, back: nat,
                      vs': seq<Vec>, n': nat, front': nat, back': nat, total: nat)
    requires Counted(q, vs, n, front, back) && Counted(q, vs', n', front', back') && total == n + n'
    ensures Counted(q, vs + vs', total, front, back')
  {
    var a :| Vecs(a) == vs && Ok(q, a) && Segments(a) == n && First(a) <= front && Last(a) <= back;
    var b :| Vecs(b) == vs' && Ok(q, b) && Segments(b) == n' && First(b) <= front' && Last(b) <= back';
    ConcatVecs(a, b, false);
    ConcatNew(q, a, b);
    CountedBy(q, Concat(a, b, false), front, back');
  }

  /** Melting two requests: the contiguous case of ll_merge_requests_fn. */
  lemma {:induction false} CountedMelt(q: Queue, vs: seq<Vec>, n: nat, front: nat, back: nat,
                                       vs': seq<Vec>, n': nat, front': nat, back': nat,
                                       total: int, first: nat, last: nat)
    requires Counted(q, vs, n, front, back) && Counted(q, vs', n', front', back')
    requires vs != [] && vs' != [] && q.cluster && back + front' <= q.maxSegmentSize
    requires Adjacent(q, vs[|vs| - 1], vs'[0])
    requires total == n + n' - 1
    requires first == (if n == 1 then back + front' else front) && last == (if n' == 1 then back + front' else back')
    ensures total >= 1 && Counted(q, vs + vs', total, first, last)
  {
    var a :| Vecs(a) == vs && Ok(q, a) && Segments(a) == n && First(a) <= front && Last(a) <= back;
    var b :| Vecs(b) == vs' && Ok(q, b) && Segments(b) == n' && First(b) <= front' && Last(b) <= back';
    ConcatVecs(a, b, true);
    ConcatJoin(q, a, b);
    CountedBy(q, Concat(a, b, true), first, last);
  }

  /** The greedy rule of __blk_segment_map_sg: the number of entries and the size of the last. */
  ghost function Greedy(q: Queue, vs: seq<Vec>): (nat, nat)
  {
    if vs == [] then (0, 0)
    else
      var k := |vs| - 1;
      var g := Greedy(q, vs[..k]);
      if k > 0 && Joins(q, g.1, vs[k - 1], vs[k]) then (g.0, g.1 + Len(vs[k])) else (g.0 + 1, Len(vs[k]))
  }

  lemma {:induction false} GreedySnoc(q: Queue, vs: seq<Vec>, v: Vec)
    ensures var g := Greedy(q, vs);
            Greedy(q, vs + [v])
            == if vs != [] && Joins(q, g.1, vs[|vs| - 1], v) then (g.0, g.1 + Len(v)) else (g.0 + 1, Len(v))
  {
    assert (vs + [v])[..|vs|] == vs;
  }

  /** No admissible cut has fewer segments than the greedy rule; among those with as few, none
      ends with a smaller segment. */
  lemma {:induction false} GreedyMinimal(q: Queue, c: Cut)
    requires Ok(q, c)
    ensures var g := Greedy(q, Vecs(c));
            g.0 < Segments(c) || (g.0 == Segments(c) && g.1 <= Last(c))
  {
    if c.One? {
      GreedySnoc(q, [], c.v);
      assert [] + [c.v] == Vecs(c);
    } else {
      GreedyMinimal(q, c.rest);
      GreedySnoc(q, Vecs(c.rest), c.v);
    }
  }

  /** The greedy cut itself is admissible, so the greedy count is the exact minimum. */
  lemma {:induction false} GreedyAdmissible(q: Queue, vs: seq<Vec>) returns (c: Cut)
    requires vs != []
    ensures Vecs(c) == vs && Ok(q, c) && Segments(c) == Greedy(q, vs).0 && Last(c) == Greedy(q, vs).1
  {
    var k := |vs| - 1;
    assert vs == vs[..k] + [vs[k]];
    if k == 0 {
      c := One(vs[0]);
    } else {
      var r := GreedyAdmissible(q, vs[..k]);
      c := if Joins(q, Last(r), vs[k - 1], vs[k]) then Join(r, vs[k]) else New(r, vs[k]);
    }
  }

  /** Both parts of an admissible cut are admissible. */
  lemma {:induction false} ConcatParts(q: Queue, a: Cut, b: Cut, join: bool)
    requires Ok(q, Concat(a, b, join))
    ensures Ok(q, a) && Ok(q, b)
    ensures Concat(a, b, join).v == b.v && Last(b) <= Last(Concat(a, b, join))
  {
    if !b.One? {
      ConcatParts(q, a, b.rest, join);
    }
  }

  /** Every cut of a concatenation is the concatenation of a cut of each part. */
  lemma {:induction false} SplitCut(c: Cut, x: seq<Vec>, y: seq<Vec>) returns (a: Cut, b: Cut, join: bool)
    requires x != [] && y != [] && Vecs(c) == x + y
    ensures c == Concat(a, b, join) && Vecs(a) == x && Vecs(b) == y
  {
    var k := |y| - 1;
    assert Vecs(c)[..|x| + k] == x + y[..k] && y == y[..k] + [y[k]];
    if k == 0 {
      assert x + y[..0] == x;
      a, b, join := c.rest, One(c.v), c.Join?;
    } else {
      a, b, join := SplitCut(c.rest, x, y[..k]);
      b := if c.Join? then Join(b, c.v) else New(b, c.v);
    }
  }

  /** The greedy rule from the back: the number of segments and the size of the first. */
  ghost function Backward(q: Queue, vs: seq<Vec>): (nat, nat)
  {
    if vs == [] then (0, 0)
    else
      var g := Backward(q, vs[1..]);
      if |vs| > 1 && q.cluster && Len(vs[0]) + g.1 <= q.maxSegmentSize && Adjacent(q, vs[0], vs[1])
      then (g.0, Len(vs[0]) + g.1) else (g.0 + 1, Len(vs[0]))
  }

  /** No admissible cut has fewer segments than the backward rule; among those with as few, none
      begins with a smaller segment. */
  lemma {:induction false} BackwardMinimal(q: Queue, c: Cut)
    requires Ok(q, c)
    ensures var g := Backward(q, Vecs(c));
            g.0 < Segments(c) || (g.0 == Segments(c) && g.1 <= First(c))
    decreases |Vecs(c)|
  {
    var vs := Vecs(c);
    if |vs| > 1 {
      assert vs == [vs[0]] + vs[1..];
      var a, b, join := SplitCut(c, [vs[0]], vs[1..]);
      OneVec(a);
      ConcatParts(q, a, b, join);
      BackwardMinimal(q, b);
      if join {
        ConcatJoinOnly(q, a, b);
        ConcatJoin(q, a, b);
      } else {
        ConcatNew(q, a, b);
      }
    } else {
      OneVec(c);
    }
  }

  lemma {:induction false} OneVec(c: Cut)
    requires |Vecs(c)| == 1
    ensures c == One(Vecs(c)[0])
  {
  }

  /** The backward cut itself is admissible. */
  lemma {:induction false} BackwardAdmissible(q: Queue, vs: seq<Vec>) returns (c: Cut)
    requires vs != []
    ensures Vecs(c) == vs && Ok(q, c) && Segments(c) == Backward(q, vs).0 && First(c) == Backward(q, vs).1
  {
    c := One(vs[0]);
    if |vs| > 1 {
      var r := BackwardAdmissible(q, vs[1..]);
      var g := Backward(q, vs[1..]);
      var join := q.cluster && Len(vs[0]) + g.1 <= q.maxSegmentSize && Adjacent(q, vs[0], vs[1]);
      ConcatVecs(c, r, join);
      assert [vs[0]] + vs[1..] == vs;
      if join {
        ConcatJoin(q, c, r);
      } else {
        ConcatNew(q, c, r);
      }
      c := Concat(c, r, join);
    }
  }

  /** The last segment of `a`, at its smallest, goes together with the first of `b`. */
  ghost predicate Melts(q: Queue, a: seq<Vec>, b: seq<Vec>)
  {
    && a != [] && b != [] && q.cluster && Adjacent(q, a[|a| - 1], b[0])
    && Greedy(q, a).1 + Backward(q, b).1 <= q.maxSegmentSize
  }

  /** Any admissible cut of both has at least the segments of both, less one that may melt. */
  lemma {:induction false} MeltsNeeded(q: Queue, a: seq<Vec>, b: seq<Vec>, c: Cut)
    requires a != [] && b != [] && Vecs(c) == a + b && Ok(q, c)
    ensures Segments(c) >= Greedy(q, a).0 + Greedy(q, b).0 - if Melts(q, a, b) then 1 else 0
  {
    var x, y, join := SplitCut(c, a, b);
    ConcatParts(q, x, y, join);
    GreedyMinimal(q, x);
    GreedyMinimal(q, y);
    if join {
      ConcatJoinOnly(q, x, y);
      ConcatJoin(q, x, y);
      BackwardMinimal(q, y);
      BackwardCounts(q, b);
    } else {
      ConcatNew(q, x, y);
    }
  }

  lemma {:induction false} BackwardCounts(q: Queue, vs: seq<Vec>)
    ensures Backward(q, vs).0 == Greedy(q, vs).0
  {
    if vs != [] {
      var c := BackwardAdmissible(q, vs);
      GreedyMinimal(q, c);
      var d := GreedyAdmissible(q, vs);
      BackwardMinimal(q, d);
    }
  }

  /** The count of a concatenation: that of its parts, less one exactly if the two segments in
      the middle melt. */
  lemma {:induction false} MeltsExactly(q: Queue, a: seq<Vec>, b: seq<Vec>)
    ensures Greedy(q, a + b).0 == Greedy(q, a).0 + Greedy(q, b).0 - if Melts(q, a, b) then 1 else 0
  {
    if a == [] {
      assert a + b == b;
    } else if b == [] {
      assert a + b == a;
    } else {
      var c := GreedyAdmissible(q, a + b);
      MeltsNeeded(q, a, b, c);
      MeltsEnough(q, a, b);
    }
  }

  lemma {:induction false} MeltsEnough(q: Queue, a: seq<Vec>, b: seq<Vec>)
    requires a != [] && b != []
    ensures Greedy(q, a + b).0 <= Greedy(q, a).0 + Greedy(q, b).0 - if Melts(q, a, b) then 1 else 0
  {
    var join := Melts(q, a, b);
    var c := GreedyAdmissible(q, a);
    var d := BackwardAdmissible(q, b);
    BackwardCounts(q, b);
    ConcatVecs(c, d, join);
    if join {
      ConcatJoin(q, c, d);
    } else {
      ConcatNew(q, c, d);
    }
    GreedyMinimal(q, Concat(c, d, join));
  }

  lemma {:induction false} CountBounds(q: Queue, vs: seq<Vec>, n: nat, front: nat, back: nat)
    requires Counted(q, vs, n, front, back)
    ensures Greedy(q, vs).0 <= n
  {
    var c :| Vecs(c) == vs && Ok(q, c) && Segments(c) == n && First(c) <= front && Last(c) <= back;
    GreedyMinimal(q, c);
  }
}

/** What a scatterlist describes. */
module SegmentBytes {
  import opened SegmentTheory

  /** `log` followed by the addresses of `len` bytes from `start` on. */
  ghost function Span(log: seq<nat>, start: nat, len: nat): seq<nat>
  {
    if len == 0 then log else Span(log, start, len - 1) + [start + len - 1]
  }

  lemma {:induction false} SpanSplit(log: seq<nat>, start: nat, a: nat, b: nat)
    ensures Span(log, start, a + b) == Span(Span(log, start, a), start + a, b)
  {
    if b > 0 {
      SpanSplit(log, start, a, b - 1);
    }
  }

  ghost function VecBytes(vs: seq<Vec>): seq<nat>
  {
    if vs == [] then []
    else Span(VecBytes(vs[..|vs| - 1]), vs[|vs| - 1].piece.start, vs[|vs| - 1].piece.len)
  }

  ghost function SgBytes(sg: seq<Piece>): seq<nat>
  {
    if sg == [] then []
    else Span(SgBytes(sg[..|sg| - 1]), sg[|sg| - 1].start, sg[|sg| - 1].len)
  }

  lemma {:induction false} VecBytesSnoc(vs: seq<Vec>, v: Vec)
    ensures VecBytes(vs + [v]) == Span(VecBytes(vs), v.piece.start, v.piece.len)
  {
    assert (vs + [v])[..|vs|] == vs;
  }

  lemma {:induction false} SgBytesSnoc(sg: seq<Piece>, e: Piece)
    ensures SgBytes(sg + [e]) == Span(SgBytes(sg), e.start, e.len)
  {
    assert (sg + [e])[..|sg|] == sg;
  }

  /** Growing the last entry of a list. */
  lemma {:induction false} SgBytesGrow(sg: seq<Piece>, n: nat)
    requires sg != []
    ensures var e := sg[|sg| - 1];
            SgBytes(sg[|sg| - 1 := Piece(e.start, e.len + n)]) == Span(SgBytes(sg), e.start + e.len, n)
  {
    var k := |sg| - 1;
    assert sg[k := Piece(sg[k].start, sg[k].len + n)][..k] == sg[..k];
    SpanSplit(SgBytes(sg[..k]), sg[k].start, sg[k].len, n);
  }

  ghost function Joined(groups: seq<seq<Vec>>): seq<Vec>
  {
    if groups == [] then [] else Joined(groups[..|groups| - 1]) + groups[|groups| - 1]
  }

  /** The entry `e` is made of the vectors of `group`: it covers their bytes, in order, and
      unless it is a single vector (which nobody could split) it keeps to the queue's limits. */
  ghost predicate EntryOk(q: Queue, group: seq<Vec>, e: Piece)
  {
    && group != [] && VecBytes(group) == Span([], e.start, e.len)
    && if |group| == 1 then e == group[0].piece
       else e.len <= q.maxSegmentSize && Window(q, e.start) == Window(q, e.start + e.len - 1)
  }

  /** The list cuts the vectors into consecutive groups, one for each entry. */
  ghost predicate EntriesOk(q: Queue, vs: seq<Vec>, sg: seq<Piece>, groups: seq<seq<Vec>>)
  {
    && Joined(groups) == vs && |groups| == |sg|
    && forall i :: 0 <= i < |sg| ==> EntryOk(q, groups[i], sg[i])
  }

  /** A vector that starts a new entry. */
  lemma {:induction false} EntriesAppend(q: Queue, vs: seq<Vec>, sg: seq<Piece>, groups: seq<seq<Vec>>, v: Vec)
    requires EntriesOk(q, vs, sg, groups)
    ensures EntriesOk(q, vs + [v], sg + [v.piece], groups + [[v]])
  {
    assert (groups + [[v]])[..|groups|] == groups;
    assert [] + [v] == [v];
    VecBytesSnoc([], v);
  }

  /** A vector that follows the last entry and goes on with it. */
  lemma {:induction false} EntriesGrow(q: Queue, vs: seq<Vec>, sg: seq<Piece>, groups: seq<seq<Vec>>, v: Vec, e: Piece)
    requires EntriesOk(q, vs, sg, groups) && sg != []
    requires var last := sg[|sg| - 1];
             last.start + last.len == v.piece.start && e == Piece(last.start, last.len + Len(v))
    requires e.len <= q.maxSegmentSize && Window(q, e.start) == Window(q, e.start + e.len - 1)
    ensures var k := |sg| - 1;
            EntriesOk(q, vs + [v], sg[k := e], groups[k := groups[k] + [v]])
  {
    var k := |sg| - 1;
    var g, grown := groups[k], groups[k := groups[k] + [v]];
    assert grown[..k] == groups[..k];
    assert (Joined(groups[..k]) + g) + [v] == Joined(groups[..k]) + (g + [v]);
    VecBytesSnoc(g, v);
    SpanSplit([], sg[k].start, sg[k].len, Len(v));
    assert EntryOk(q, g, sg[k]);
  }

  /** An address between two of one window is in that window. */
  lemma {:induction false} WindowBetween(q: Queue, a: nat, b: nat, c: nat)
    requires a <= b <= c && Window(q, a) == Window(q, c)
    ensures Window(q, b) == Window(q, a)
  {
    if q.window > 0 {
      DivMonotone(a, b, q.window);
      DivMonotone(b, c, q.window);
    }
  }

  lemma {:induction false} DivMonotone(a: nat, b: nat, w: nat)
    requires a <= b && w >= 1
    ensures a / w <= b / w
  {
    var d := a / w - b / w;
    assert d * w == (a / w) * w - (b / w) * w;
    assert d >= 1 ==> d * w >= w;
  }
}
