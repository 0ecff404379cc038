/** Integrity metadata segments (block/blk-integrity.c:44-128 and 185-216).  The counting and
    mapping loops follow the greedy rule of data segments on a clustering queue. */
module Integrity {
  import opened Common
  import opened SegmentTheory
  import opened SegmentBytes
  import opened SegmentMerge

  /** The segment limits that integrity vectors obey; blk_queue_cluster is not consulted. */
  function Limits(q: Queue): Queue { q.(cluster := true) }

  ghost function Entries(q: Queue, vs: seq<Vec>): nat
  {
    Greedy(Limits(q), vs).0
  }

  /** blk_rq_count_integrity_sg on the integrity vectors of a bio chain. */
  method Count(q: Queue, vs: seq<Vec>) returns (segments: nat)
    ensures segments == Entries(q, vs)
  {
    var segSize: nat := 0;
    segments := 0;
    assert vs[..0] == [];
    for i := 0 to |vs|
      invariant (segments, segSize) == Greedy(Limits(q), vs[..i])
    {
      assert vs[..i + 1] == vs[..i] + [vs[i]];
      GreedySnoc(Limits(q), vs[..i], vs[i]);
      if i > 0 && Adjacent(q, vs[i - 1], vs[i]) && segSize + Len(vs[i]) <= q.maxSegmentSize {
        segSize := segSize + Len(vs[i]);
      } else {
        segments := segments + 1;
        segSize := Len(vs[i]);
      }
    }
    assert vs[..|vs|] == vs;
  }

  /** blk_rq_map_integrity_sg: as many entries as were counted, describing the same bytes. */
  method Map(q: Queue, vs: seq<Vec>) returns (sg: seq<Piece>, ghost groups: seq<seq<Vec>>)
    requires forall i :: 0 <= i < |vs| ==> Len(vs[i]) >= 1
    ensures |sg| == Entries(q, vs)
    ensures SgBytes(sg) == VecBytes(vs) && EntriesOk(Limits(q), vs, sg, groups)
  {
    var prev: Option<Vec> := None;
    sg, groups := [], [];
    assert vs[..0] == [];
    for i := 0 to |vs|
      invariant MapsTo(Limits(q), vs[..i], prev, sg, groups)
    {
      assert vs[..i + 1] == vs[..i] + [vs[i]];
      sg, groups := MapVec(Limits(q), vs[i], prev, sg, vs[..i], groups);
      prev := Some(vs[i]);
    }
    assert vs[..|vs|] == vs;
    MapsAll(Limits(q), vs, prev, sg, groups);
  }

  /** The count of a concatenation is at most the sum of the counts. */
  lemma {:induction false} SubAdditive(q: Queue, a: seq<Vec>, b: seq<Vec>)
    ensures Entries(q, a + b) <= Entries(q, a) + Entries(q, b)
  {
    if a == [] {
      assert a + b == b;
    } else if b == [] {
      assert a + b == a;
    } else {
      var c := GreedyAdmissible(Limits(q), a);
      var d := GreedyAdmissible(Limits(q), b);
      ConcatVecs(c, d, false);
      ConcatNew(Limits(q), c, d);
      GreedyMinimal(Limits(q), Concat(c, d, false));
    }
  }

  lemma {:induction false} Nonempty(q: Queue, vs: seq<Vec>)
    ensures vs == [] <==> Entries(q, vs) == 0
  {
    if vs != [] {
      Nonempty(q, vs[..|vs| - 1]);
    }
  }

  /** Appending `b` costs no entry exactly when all of `b` fits into the last entry of `a`. */
  ghost predicate Absorbs(q: Queue, a: seq<Vec>, b: seq<Vec>)
    requires a != [] && b != []
  {
    && Entries(q, b) == 1
    && Adjacent(q, a[|a| - 1], b[0])
    && Greedy(Limits(q), a).1 + Greedy(Limits(q), b).1 <= q.maxSegmentSize
  }

  lemma {:induction false} AbsorbsExactly(q: Queue, a: seq<Vec>, b: seq<Vec>)
    requires a != [] && b != []
    ensures Entries(q, a) <= Entries(q, a + b)
    ensures Entries(q, a + b) == Entries(q, a) <==> Absorbs(q, a, b)
    ensures Absorbs(q, a, b) ==> Greedy(Limits(q), a + b).1 == Greedy(Limits(q), a).1 + Greedy(Limits(q), b).1
  {
    var k, l := |b| - 1, Limits(q);
    assert b == b[..k] + [b[k]];
    GreedySnoc(l, b[..k], b[k]);
    if k == 0 {
      assert b == [b[0]];
      GreedySnoc(l, a, b[0]);
    } else {
      AbsorbsExactly(q, a, b[..k]);
      Nonempty(q, b[..k]);
      assert a + b == (a + b[..k]) + [b[k]];
      GreedySnoc(l, a + b[..k], b[k]);
    }
  }

  /** What may happen to a request after it was made from its first bio. */
  datatype Merge =
    | OfBio(vecs: seq<Vec>, front: bool)    // blk_integrity_merge_bio and a front or back merge
    | OfRequest(vecs: seq<Vec>)             // blk_integrity_merge_rq and attempt_merge

  /** The integrity vectors of a request after its merges. */
  function Grown(first: seq<Vec>, ms: seq<Merge>): seq<Vec>
  {
    if ms == [] then first
    else
      var m, before := ms[|ms| - 1], Grown(first, ms[..|ms| - 1]);
      if m.OfBio? && m.front then m.vecs + before else before + m.vecs
  }

  /** nr_integrity_segments: it starts at zero, and only merges of bios add to it. */
  ghost function RunningTotal(q: Queue, ms: seq<Merge>): nat
  {
    if ms == [] then 0
    else RunningTotal(q, ms[..|ms| - 1]) + if ms[|ms| - 1].OfBio? then Entries(q, ms[|ms| - 1].vecs) else 0
  }

  /** Entries that nobody adds to it: those of the first bio and of merged requests. */
  ghost function Uncounted(q: Queue, first: seq<Vec>, ms: seq<Merge>): nat
  {
    if ms == [] then Entries(q, first)
    else Uncounted(q, first, ms[..|ms| - 1]) + if ms[|ms| - 1].OfRequest? then Entries(q, ms[|ms| - 1].vecs) else 0
  }

  /** A merge in the middle of which two segments melt into one. */
  ghost predicate Saves(q: Queue, vecs: seq<Vec>, m: Merge)
  {
    if m.OfBio? && m.front then Melts(Limits(q), m.vecs, vecs) else Melts(Limits(q), vecs, m.vecs)
  }

  ghost function Saved(q: Queue, first: seq<Vec>, ms: seq<Merge>): nat
  {
    if ms == [] then 0
    else
      var before := ms[..|ms| - 1];
      Saved(q, first, before) + if Saves(q, Grown(first, before), ms[|ms| - 1]) then 1 else 0
  }

  /** Over every history of a request: the counter bounds the mapping exactly if at least as many
      merges melted two segments into one as there are entries that were never counted. */
  lemma {:induction false} CounterBound(q: Queue, first: seq<Vec>, ms: seq<Merge>)
    ensures Entries(q, Grown(first, ms)) + Saved(q, first, ms) == RunningTotal(q, ms) + Uncounted(q, first, ms)
    ensures Entries(q, Grown(first, ms)) <= RunningTotal(q, ms) <==> Uncounted(q, first, ms) <= Saved(q, first, ms)
  {
    if ms != [] {
      var before, m := ms[..|ms| - 1], ms[|ms| - 1];
      CounterBound(q, first, before);
      MeltsExactly(Limits(q), Grown(first, before), m.vecs);
      MeltsExactly(Limits(q), m.vecs, Grown(first, before));
    }
  }

  /** A request that was never merged: only if there is nothing to map. */
  lemma {:induction false} FreshRequestBound(q: Queue, first: seq<Vec>)
    ensures Entries(q, Grown(first, [])) <= RunningTotal(q, []) <==> first == []
  {
    Nonempty(q, first);
  }

  lemma {:induction false} FreshRequestOverflows(q: Queue)
    ensures var first := [Vec(Piece(0, 8), false)];
            Entries(q, Grown(first, [])) == 1 && RunningTotal(q, []) == 0
  {
    OneEntry(q, Vec(Piece(0, 8), false));
  }

  lemma {:induction false} OneEntry(q: Queue, v: Vec)
    ensures Entries(q, [v]) == 1
  {
    GreedySnoc(Limits(q), [], v);
    assert [] + [v] == [v];
  }

  /** A request that one bio was merged into: only if the first bio brought nothing, or one entry
      that melts with its neighbour. */
  lemma {:induction false} MergedBioBound(q: Queue, first: seq<Vec>, b: Merge)
    requires b.OfBio?
    ensures Entries(q, Grown(first, [b])) <= RunningTotal(q, [b]) <==>
              first == [] || (Entries(q, first) == 1 && Saves(q, first, b))
  {
    CounterBound(q, first, [b]);
    Nonempty(q, first);
    assert [b][..0] == [];
  }

  lemma {:induction false} MergedBioOverflows(q: Queue)
    ensures var first, b := [Vec(Piece(0, 8), false)], OfBio([Vec(Piece(100, 8), false)], false);
            RunningTotal(q, [b]) == 1 && Entries(q, Grown(first, [b])) == 2
  {
    var v, w := Vec(Piece(0, 8), false), Vec(Piece(100, 8), false);
    OneEntry(q, v);
    OneEntry(q, w);
    CounterBound(q, [v], [OfBio([w], false)]);
    assert [OfBio([w], false)][..0] == [];
  }

  /** After a request merge a total `n` bounds the mapping exactly if what it had to spare covers
      the entries of the other request, less one if the two segments in the middle melt. */
  lemma {:induction false} MergedRequestBound(q: Queue, vecs: seq<Vec>, n: nat, next: seq<Vec>)
    ensures Entries(q, vecs + next) <= n <==>
              Entries(q, next) <= n - Entries(q, vecs) + if Melts(Limits(q), vecs, next) then 1 else 0
  {
    MeltsExactly(Limits(q), vecs, next);
  }

  /** The integrity side of struct request. */
  class IntegrityRequest {
    const q: Queue
    const maxSegments: nat
    var vecs: seq<Vec>
    var nrSegments: nat

    ghost const first: seq<Vec>
    ghost var merges: seq<Merge>

    /** What the request holds and counts is what its history makes of it. */
    ghost predicate Valid()
      reads this
    {
      vecs == Grown(first, merges) && nrSegments == RunningTotal(q, merges)
    }

    /** A request made from its first bio: the counter starts at zero. */
    constructor (q: Queue, maxSegments: nat, first: seq<Vec>)
      ensures Valid() && this.q == q && this.maxSegments == maxSegments && this.first == first && merges == []
    {
      this.q, this.maxSegments, vecs, nrSegments := q, maxSegments, first, 0;
      this.first, merges := first, [];
    }

    /** blk_integrity_merge_bio and the back or front merge that follows it. */
    method MergeBio(bio: seq<Vec>, front: bool) returns (ok: bool)
      requires Valid()
      modifies this
      ensures Valid() && (ok <==> old(nrSegments) + Entries(q, bio) <= maxSegments)
      ensures merges == if ok then old(merges) + [OfBio(bio, front)] else old(merges)
    {
      var n := Count(q, bio);
      if nrSegments + n > maxSegments {
        return false;
      }
      Snoc(OfBio(bio, front));
      nrSegments := nrSegments + n;
      vecs := if front then bio + vecs else vecs + bio;
      merges := merges + [OfBio(bio, front)];
      ok := true;
    }

    /** blk_integrity_merge_rq and attempt_merge: nobody adds the counter of `next`. */
    method MergeRequest(next: IntegrityRequest) returns (ok: bool)
      requires Valid() && next.Valid() && next != this && next.q == q
      modifies this
      ensures Valid() && (ok <==> old(nrSegments) + next.nrSegments <= maxSegments)
      ensures merges == if ok then old(merges) + [OfRequest(next.vecs)] else old(merges)
    {
      ok := nrSegments + next.nrSegments <= maxSegments;
      if ok {
        Snoc(OfRequest(next.vecs));
        vecs := vecs + next.vecs;
        merges := merges + [OfRequest(next.vecs)];
      }
    }

    lemma {:induction false} Snoc(m: Merge)
      ensures (merges + [m])[..|merges|] == merges
    {
    }
  }
}
