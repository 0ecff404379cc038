/** Driver tags of one tag map (block/blk-mq.c:331-372, 453-470, 1050-1091;
    block/blk-mq-tag.c:27-104, 159-284, 449-461; block/blk-mq-tag.h:91-125;
    block/blk-mq.h:204-237).  Requests of several hardware queues, with or without an
    elevator, take their tags from the same map. */
module Tags {
  import opened Common

  /** A request: one of tags->static_rqs or, with an elevator, of a hardware queue's
      sched_tags->static_rqs. */
  datatype RqId = Static(tag: nat) | Sched(hctx: nat, itag: nat)

  /** rq->tag, the internal tag, the hardware queue and REQ_MQ_INFLIGHT; -1 is no tag. */
  datatype Rq = Rq(tag: int, internalTag: int, hctx: nat, inflight: bool)

  /** The two bitmaps of a tag map: normal tags are numbered after the reserved ones. */
  datatype Bits = Bits(nrTags: nat, nrReserved: nat, normal: set<nat>, reserved: set<nat>)
  {
    ghost predicate Valid()
    {
      && nrReserved <= nrTags
      && (forall b :: b in normal ==> b < nrTags - nrReserved)
      && (forall b :: b in reserved ==> b < nrReserved)
    }

    /** The encoding: which bit stands for a tag. */
    predicate InUse(t: int)
    {
      if 0 <= t < nrReserved then t in reserved
      else nrReserved <= t && t - nrReserved in normal
    }

    function Depth(fromReserved: bool): nat
      requires Valid()
    {
      if fromReserved then nrReserved else nrTags - nrReserved
    }

    function Used(fromReserved: bool): set<nat>
    {
      if fromReserved then reserved else normal
    }

    /** No clear bit is left in a bitmap. */
    ghost predicate Full(fromReserved: bool)
    {
      Valid() && forall x: nat :: x < Depth(fromReserved) ==> x in Used(fromReserved)
    }

    /** blk_mq_tag_is_reserved decides which bitmap blk_mq_put_tag clears. */
    function Clear(t: nat): (b: Bits)
      requires Valid() && InUse(t)
      ensures b.Valid() && b.nrTags == nrTags && b.nrReserved == nrReserved
      ensures forall u :: b.InUse(u) <==> InUse(u) && u != t
    {
      if t < nrReserved then this.(reserved := reserved - {t}) else this.(normal := normal - {t - nrReserved})
    }

    /** The bit found by __sbitmap_queue_get, with the offset of its bitmap added. */
    function Set(bit: nat, fromReserved: bool): (r: (Bits, nat))
      requires Valid()
      requires bit < Depth(fromReserved) && bit !in Used(fromReserved)
      ensures r.0.Valid() && r.0.nrTags == nrTags && r.0.nrReserved == nrReserved
      ensures r.1 < nrTags && !InUse(r.1) && (fromReserved <==> r.1 < nrReserved)
      ensures r.1 == bit + if fromReserved then 0 else nrReserved
      ensures forall u :: r.0.InUse(u) <==> InUse(u) || u == r.1
    {
      if fromReserved then (this.(reserved := reserved + {bit}), bit)
      else (this.(normal := normal + {bit}), bit + nrReserved)
    }
  }

  function Ceiling(depth: nat, users: nat): nat
    requires users >= 1
  {
    (depth + users - 1) / users
  }

  /** rqs[rq->tag] is that request, and the bits in use are exactly the tags held. */
  ghost predicate Holders(bits: Bits, rqs: map<nat, RqId>, rq: map<RqId, Rq>)
  {
    && bits.Valid()
    && (forall id :: id in rq && rq[id].tag >= 0 ==>
          bits.InUse(rq[id].tag) && rq[id].tag in rqs && rqs[rq[id].tag] == id)
    && (forall t: nat :: bits.InUse(t) ==> t in rqs && rqs[t] in rq && rq[rqs[t]].tag == t)
  }

  /** Tag `t` is held by an in-flight request of hardware queue `h`. */
  ghost predicate Flies(bits: Bits, rqs: map<nat, RqId>, rq: map<RqId, Rq>, h: nat, t: nat)
  {
    bits.InUse(t) && t in rqs && rqs[t] in rq && rq[rqs[t]].inflight && rq[rqs[t]].hctx == h
  }

  /** nr_active counts the in-flight requests of each hardware queue. */
  ghost predicate Counts(bits: Bits, rqs: map<nat, RqId>, rq: map<RqId, Rq>,
                         nrActive: map<nat, int>, flying: map<nat, set<nat>>)
  {
    && nrActive.Keys == flying.Keys
    && (forall h :: h in nrActive ==> nrActive[h] == |flying[h]|)
    && (forall h, t: nat :: h in nrActive ==> (t in flying[h] <==> Flies(bits, rqs, rq, h, t)))
  }

  /** Giving the free tag `t` to a request without a tag. */
  lemma {:induction false} AssignHolders(bits: Bits, rqs: map<nat, RqId>, rq: map<RqId, Rq>, bits': Bits, t: nat,
                                         id: RqId, r: Rq)
    requires Holders(bits, rqs, rq) && (id in rq ==> rq[id].tag == -1) && r.tag == t
    requires bits'.Valid() && !bits.InUse(t) && forall u :: bits'.InUse(u) <==> bits.InUse(u) || u == t
    ensures Holders(bits', rqs[t := id], rq[id := r])
  {
  }

  lemma {:induction false} AssignFlies(bits: Bits, rqs: map<nat, RqId>, rq: map<RqId, Rq>, bits': Bits, t: nat,
                                       id: RqId, r: Rq, h: nat, u: nat)
    requires Holders(bits, rqs, rq) && (id in rq ==> rq[id].tag == -1)
    requires !bits.InUse(t) && forall u :: bits'.InUse(u) <==> bits.InUse(u) || u == t
    ensures Flies(bits', rqs[t := id], rq[id := r], h, u) <==>
              Flies(bits, rqs, rq, h, u) || (u == t && r.inflight && h == r.hctx)
  {
  }

  lemma {:induction false} AssignCounts(bits: Bits, rqs: map<nat, RqId>, rq: map<RqId, Rq>, nrActive: map<nat, int>,
                                        flying: map<nat, set<nat>>,
                                        bits': Bits, t: nat, id: RqId, r: Rq)
    requires Holders(bits, rqs, rq) && Counts(bits, rqs, rq, nrActive, flying)
    requires (id in rq ==> rq[id].tag == -1) && r.hctx in nrActive
    requires !bits.InUse(t) && forall u :: bits'.InUse(u) <==> bits.InUse(u) || u == t
    ensures var h, n := r.hctx, if r.inflight then 1 else 0;
            Counts(bits', rqs[t := id], rq[id := r], nrActive[h := nrActive[h] + n],
                   flying[h := if r.inflight then flying[h] + {t} else flying[h]])
  {
    assert !Flies(bits, rqs, rq, r.hctx, t);
    forall h, u: nat | h in nrActive
      ensures Flies(bits', rqs[t := id], rq[id := r], h, u) <==>
                Flies(bits, rqs, rq, h, u) || (u == t && r.inflight && h == r.hctx)
    {
      AssignFlies(bits, rqs, rq, bits', t, id, r, h, u);
    }
  }

  /** The bits of a map from which tag `t` has been cleared. */
  ghost predicate Cleared(bits: Bits, t: int, b: Bits)
  {
    b.Valid() && b.nrTags == bits.nrTags && forall u :: b.InUse(u) <==> bits.InUse(u) && u != t
  }

  /** Taking a tag away from its holder. */
  lemma {:induction false} ReleaseHolders(bits: Bits, rqs: map<nat, RqId>, rq: map<RqId, Rq>, id: RqId, r: Rq, b: Bits)
    requires Holders(bits, rqs, rq) && id in rq && rq[id].tag >= 0 && r.tag == -1 && Cleared(bits, rq[id].tag, b)
    ensures Holders(b, rqs, rq[id := r])
  {
  }

  lemma {:induction false} ReleaseFlies(bits: Bits, rqs: map<nat, RqId>, rq: map<RqId, Rq>, id: RqId, r: Rq, b: Bits,
                                        h: nat, u: nat)
    requires Holders(bits, rqs, rq) && id in rq && rq[id].tag >= 0 && Cleared(bits, rq[id].tag, b)
    ensures Flies(b, rqs, rq[id := r], h, u) <==> Flies(bits, rqs, rq, h, u) && u != rq[id].tag
  {
  }

  lemma {:induction false} ReleaseCounts(bits: Bits, rqs: map<nat, RqId>, rq: map<RqId, Rq>, nrActive: map<nat, int>,
                                         flying: map<nat, set<nat>>,
                                         id: RqId, r: Rq, b: Bits)
    requires Holders(bits, rqs, rq) && Counts(bits, rqs, rq, nrActive, flying)
    requires id in rq && rq[id].tag >= 0 && rq[id].hctx in nrActive && Cleared(bits, rq[id].tag, b)
    ensures var h, t, n := rq[id].hctx, rq[id].tag, if rq[id].inflight then 1 else 0;
            Counts(b, rqs, rq[id := r], nrActive[h := nrActive[h] - n], flying[h := flying[h] - {t}])
  {
    var h0, t: nat := rq[id].hctx, rq[id].tag;
    assert t in flying[h0] <==> rq[id].inflight;
    forall h, u: nat | h in nrActive
      ensures Flies(b, rqs, rq[id := r], h, u) <==> Flies(bits, rqs, rq, h, u) && u != t
    {
      ReleaseFlies(bits, rqs, rq, id, r, b, h, u);
    }
    forall h | h in nrActive && h != h0
      ensures t !in flying[h]
    {
      assert !Flies(bits, rqs, rq, h, t);
    }
  }

  /** Requests without a tag may come and go. */
  lemma {:induction false} TaglessOk(bits: Bits, rqs: map<nat, RqId>, rq: map<RqId, Rq>, nrActive: map<nat, int>,
                                     flying: map<nat, set<nat>>,
                                     rq': map<RqId, Rq>)
    requires Holders(bits, rqs, rq) && Counts(bits, rqs, rq, nrActive, flying)
    requires forall id :: (id in rq && rq[id].tag >= 0) <==> (id in rq' && rq'[id].tag >= 0)
    requires forall id :: id in rq && rq[id].tag >= 0 ==> rq'[id] == rq[id]
    ensures Holders(bits, rqs, rq') && Counts(bits, rqs, rq', nrActive, flying)
  {
    forall h, t: nat | h in nrActive
      ensures Flies(bits, rqs, rq', h, t) <==> Flies(bits, rqs, rq, h, t)
    {
    }
  }

  /** Where a request comes from tells which tags it has. */
  ghost predicate IdOk(shared: bool, sched: map<nat, Bits>, id: RqId, r: Rq)
  {
    && r.tag >= -1 && r.hctx in sched
    && (r.inflight <==> shared && r.tag >= 0)
    && match id
       case Static(t) => r.tag == t && r.internalTag == -1
       case Sched(h, i) => r.internalTag == i && r.hctx == h && h in sched && sched[h].InUse(i)
  }

  ghost predicate Sources(shared: bool, sched: map<nat, Bits>, rq: map<RqId, Rq>)
  {
    && (forall h :: h in sched ==> sched[h].Valid())
    && (forall id :: id in rq ==> IdOk(shared, sched, id, rq[id]))
    && (forall h, i: nat :: h in sched && sched[h].InUse(i) ==> Sched(h, i) in rq)
  }

  lemma {:induction false} SourcesSet(shared: bool, sched: map<nat, Bits>, rq: map<RqId, Rq>, id: RqId, r: Rq)
    requires Sources(shared, sched, rq) && (id.Sched? ==> id in rq) && IdOk(shared, sched, id, r)
    ensures Sources(shared, sched, rq[id := r])
  {
  }

  lemma {:induction false} SourcesAdd(shared: bool, sched: map<nat, Bits>, rq: map<RqId, Rq>, h: nat, p: (Bits, nat),
                                      r: Rq)
    requires Sources(shared, sched, rq) && h in sched && p.0.Valid()
    requires forall u :: p.0.InUse(u) <==> sched[h].InUse(u) || u == p.1
    requires IdOk(shared, sched[h := p.0], Sched(h, p.1), r)
    ensures Sources(shared, sched[h := p.0], rq[Sched(h, p.1) := r])
  {
    var sched', rq' := sched[h := p.0], rq[Sched(h, p.1) := r];
    forall id | id in rq'
      ensures IdOk(shared, sched', id, rq'[id])
    {
      assert id in rq ==> IdOk(shared, sched, id, rq[id]);
    }
  }

  lemma {:induction false} SourcesRemove(shared: bool, sched: map<nat, Bits>, rq: map<RqId, Rq>, id: RqId,
                                         rq': map<RqId, Rq>)
    requires Sources(shared, sched, rq) && id in rq
    requires rq' == rq - {id}
    ensures id.Static? ==> Sources(shared, sched, rq')
    ensures id.Sched? ==> id.hctx in sched && sched[id.hctx].InUse(id.itag)
                          && Sources(shared, sched[id.hctx := sched[id.hctx].Clear(id.itag)], rq')
  {
    assert IdOk(shared, sched, id, rq[id]);
    if id.Sched? {
      var sched' := sched[id.hctx := sched[id.hctx].Clear(id.itag)];
      forall x | x in rq'
        ensures IdOk(shared, sched', x, rq'[x])
      {
        assert IdOk(shared, sched, x, rq[x]);
      }
    }
  }

  lemma {:induction false} MapDrop(m: map<RqId, Rq>, id: RqId, r: Rq)
    ensures m[id := r] - {id} == m - {id}
  {
  }

  /** Both of these, entering a proof where Open asks for them. */
  ghost predicate Indexed(bits: Bits, rqs: map<nat, RqId>, rq: map<RqId, Rq>, nrActive: map<nat, int>,
                          flying: map<nat, set<nat>>)
  {
    forall open: bool {:trigger Open(open)} :: Open(open) ==>
      Holders(bits, rqs, rq) && Counts(bits, rqs, rq, nrActive, flying)
  }

  class TagMap {
    const shared: bool          // BLK_MQ_F_TAG_SHARED
    const hctxs: set<nat>

    var bits: Bits
    var rqs: map<nat, RqId>     // tags->rqs[]
    var rq: map<RqId, Rq>       // the live requests
    var sched: map<nat, Bits>   // sched_tags of the hardware queues
    var nrActive: map<nat, int>
    var active: set<nat>        // hardware queues with BLK_MQ_S_TAG_ACTIVE
    var activeQueues: int

    /** The tags of each hardware queue's REQ_MQ_INFLIGHT requests. */
    ghost var flying: map<nat, set<nat>>

    ghost predicate SchedOk()
      reads `sched, `rq
    {
      && sched.Keys == hctxs
      && forall open: bool {:trigger Open(open)} :: Open(open) ==> Sources(shared, sched, rq)
    }

    /** The tag invariants. */
    ghost predicate TagsOk()
      reads `bits, `rqs, `rq, `nrActive, `flying
    {
      && bits.Valid() && nrActive.Keys == hctxs == flying.Keys
      && Indexed(bits, rqs, rq, nrActive, flying)
    }

    /** active_queues counts the active hardware queues. */
    ghost predicate QueuesOk()
      reads `active, `activeQueues
    {
      active <= hctxs && activeQueues == |active|
    }

    ghost predicate Valid()
      reads this
    {
      TagsOk() && SchedOk() && QueuesOk()
    }

    constructor (shared: bool, hctxs: set<nat>, nrTags: nat, nrReserved: nat, schedTags: nat)
      requires nrReserved <= nrTags && nrReserved <= schedTags
      ensures Valid() && rq == map[] && this.shared == shared && this.hctxs == hctxs
    {
      this.shared, this.hctxs := shared, hctxs;
      bits := Bits(nrTags, nrReserved, {}, {});
      rqs, rq := map[], map[];
      sched := map h | h in hctxs :: Bits(schedTags, nrReserved, {}, {});
      nrActive := map h | h in hctxs :: 0;
      active, activeQueues := {}, 0;
      flying := map h | h in hctxs :: {};
    }

    /** hctx_may_queue. */
    predicate MayQueue(h: nat, depth: nat)
      requires h in nrActive
      reads `nrActive, `active, `activeQueues
    {
      || !shared
      || h !in active
      || depth == 1
      || activeQueues <= 0
      || nrActive[h] < (if Ceiling(depth, activeQueues) > 4 then Ceiling(depth, activeQueues) else 4)
    }

    /** blk_mq_tag_busy. */
    method TagBusy(h: nat) returns (inflight: bool)
      requires QueuesOk() && h in hctxs
      modifies `active, `activeQueues
      ensures QueuesOk() && inflight == shared
      ensures active == if shared then old(active) + {h} else old(active)
    {
      if shared && h !in active {
        active := active + {h};
        activeQueues := activeQueues + 1;
      }
      inflight := shared;
    }

    /** blk_mq_tag_idle. */
    method TagIdle(h: nat)
      requires QueuesOk()
      modifies `active, `activeQueues
      ensures QueuesOk()
      ensures active == if shared then old(active) - {h} else old(active)
    {
      if shared && h in active {
        active := active - {h};
        activeQueues := activeQueues - 1;
      }
    }

    /** __sbitmap_queue_get: some clear bit of a bitmap, or -1. */
    static method FindBit(b: Bits, fromReserved: bool) returns (bit: int)
      requires b.Valid()
      ensures bit >= 0 ==> bit < b.Depth(fromReserved) && bit !in b.Used(fromReserved)
      ensures bit < 0 ==> b.Full(fromReserved)
    {
      bit := *;
      if 0 <= bit < b.Depth(fromReserved) && bit !in b.Used(fromReserved) {
        return;
      }
      bit := 0;
      while bit < b.Depth(fromReserved)
        invariant 0 <= bit
        invariant forall x: nat :: x < bit && x < b.Depth(fromReserved) ==> x in b.Used(fromReserved)
      {
        if bit !in b.Used(fromReserved) {
          return;
        }
        bit := bit + 1;
      }
      bit := -1;
    }

    /** A hardware queue gets no tag from a bitmap: it has had its share, or all are taken. */
    ghost predicate Refused(h: nat, fromReserved: bool)
      reads `bits, `nrActive, `active, `activeQueues
    {
      && bits.Valid() && h in nrActive
      && (!MayQueue(h, bits.Depth(fromReserved)) || bits.Full(fromReserved))
    }

    /** blk_mq_get_tag without waiting, for a driver tag. */
    method GetTag(h: nat, fromReserved: bool) returns (bit: int)
      requires TagsOk() && h in hctxs
      ensures bit >= 0 ==> bit < bits.Depth(fromReserved) && bit !in bits.Used(fromReserved)
      ensures bit < 0 <==> Refused(h, fromReserved)
    {
      if (fromReserved && bits.nrReserved == 0) || !MayQueue(h, bits.Depth(fromReserved)) {
        return -1;
      }
      bit := FindBit(bits, fromReserved);
    }

    /** Give a clear bit to a request that has no tag: the part that __blk_mq_alloc_request
        and blk_mq_get_driver_tag have in common. */
    method Assign(id: RqId, r: Rq, bit: nat, fromReserved: bool) returns (t: nat)
      requires TagsOk() && QueuesOk() && r.hctx in hctxs && (id in rq ==> rq[id].tag == -1)
      requires bit < bits.Depth(fromReserved) && bit !in bits.Used(fromReserved)
      modifies `bits, `rqs, `rq, `nrActive, `active, `activeQueues, `flying
      ensures TagsOk() && QueuesOk()
      ensures bits.nrTags == old(bits).nrTags && bits.nrReserved == old(bits).nrReserved
      ensures t < bits.nrTags && !old(bits).InUse(t)
      ensures t == bit + if fromReserved then 0 else old(bits).nrReserved
      ensures rq == old(rq)[id := r.(tag := t, inflight := shared)]
    {
      var inflight := TagBusy(r.hctx);
      var p := bits.Set(bit, fromReserved);
      t := p.1;
      Attach(id, r.(tag := t, inflight := inflight), p.0);
    }

    /** Record that request `id` holds the tag r.tag, whose bit is set in `b`. */
    method Attach(id: RqId, r: Rq, b: Bits)
      requires TagsOk() && r.hctx in hctxs && (id in rq ==> rq[id].tag == -1) && r.tag >= 0 && b.Valid()
      requires !bits.InUse(r.tag) && forall u :: b.InUse(u) <==> bits.InUse(u) || u == r.tag
      modifies `bits, `rqs, `rq, `nrActive, `flying
      ensures TagsOk() && bits == b && rq == old(rq)[id := r]
    {
      var h := r.hctx;
      var counts := nrActive[h := nrActive[h] + if r.inflight then 1 else 0];
      var holders, live := rqs[r.tag := id], rq[id := r];
      ghost var sets := flying[h := if r.inflight then flying[h] + {r.tag} else flying[h]];
      AttachOk(id, r, b, counts, sets, holders, live);
      nrActive, bits, rqs, rq := counts, b, holders, live;
      flying := sets;
    }

    lemma {:induction false} AttachOk(id: RqId, r: Rq, b: Bits, counts: map<nat, int>, sets: map<nat, set<nat>>,
                                      holders: map<nat, RqId>, live: map<RqId, Rq>)
      requires TagsOk() && r.hctx in hctxs && (id in rq ==> rq[id].tag == -1) && r.tag >= 0 && b.Valid()
      requires !bits.InUse(r.tag) && forall u :: b.InUse(u) <==> bits.InUse(u) || u == r.tag
      requires counts == nrActive[r.hctx := nrActive[r.hctx] + if r.inflight then 1 else 0]
      requires sets == flying[r.hctx := if r.inflight then flying[r.hctx] + {r.tag} else flying[r.hctx]]
      requires holders == rqs[r.tag := id] && live == rq[id := r]
      ensures Indexed(b, holders, live, counts, sets)
      ensures counts.Keys == hctxs == sets.Keys
    {
      assert Open(true);
      AssignHolders(bits, rqs, rq, b, r.tag, id, r);
      AssignCounts(bits, rqs, rq, nrActive, flying, b, r.tag, id, r);
    }

    /** Take a request's driver tag away and clear its bit. */
    method Release(id: RqId)
      requires TagsOk() && id in rq && rq[id].tag >= 0 && rq[id].hctx in hctxs
      modifies `bits, `rq, `nrActive, `flying
      ensures TagsOk() && rq == old(rq)[id := old(rq)[id].(tag := -1, inflight := false)]
      ensures bits.nrTags == old(bits).nrTags && !bits.InUse(old(rq)[id].tag)
    {
      HolderInUse(id);
      Detach(id, bits.Clear(rq[id].tag));
    }

    lemma {:induction false} HolderInUse(id: RqId)
      requires TagsOk() && id in rq && rq[id].tag >= 0
      ensures bits.InUse(rq[id].tag)
    {
      assert Open(true);
    }

    /** Record that request `id` no longer holds its tag, whose bit is clear in `b`. */
    method Detach(id: RqId, b: Bits)
      requires TagsOk() && id in rq && rq[id].tag >= 0 && rq[id].hctx in hctxs && Cleared(bits, rq[id].tag, b)
      modifies `bits, `rq, `nrActive, `flying
      ensures TagsOk() && bits == b && rq == old(rq)[id := old(rq)[id].(tag := -1, inflight := false)]
    {
      var r := rq[id];
      var live := rq[id := r.(tag := -1, inflight := false)];
      var counts := nrActive[r.hctx := nrActive[r.hctx] - if r.inflight then 1 else 0];
      ghost var sets := flying[r.hctx := flying[r.hctx] - {r.tag}];
      DetachOk(id, b, counts, sets, live);
      nrActive, bits, rq := counts, b, live;
      flying := sets;
    }

    lemma {:induction false} DetachOk(id: RqId, b: Bits, counts: map<nat, int>, sets: map<nat, set<nat>>,
                                      live: map<RqId, Rq>)
      requires TagsOk() && id in rq && rq[id].tag >= 0 && rq[id].hctx in hctxs && Cleared(bits, rq[id].tag, b)
      requires live == rq[id := rq[id].(tag := -1, inflight := false)]
      requires var h := rq[id].hctx;
               && counts == nrActive[h := nrActive[h] - if rq[id].inflight then 1 else 0]
               && sets == flying[h := flying[h] - {rq[id].tag as nat}]
      ensures Indexed(b, rqs, live, counts, sets)
      ensures counts.Keys == hctxs == sets.Keys
    {
      assert Open(true);
      var r' := rq[id].(tag := -1, inflight := false);
      ReleaseHolders(bits, rqs, rq, id, r', b);
      ReleaseCounts(bits, rqs, rq, nrActive, flying, id, r', b);
    }

    /** __blk_mq_alloc_request without an elevator. */
    method AllocStatic(h: nat, fromReserved: bool) returns (ok: bool, id: RqId)
      requires Valid() && h in hctxs
      modifies `bits, `rqs, `rq, `nrActive, `active, `activeQueues, `flying
      ensures Valid()
      ensures ok ==> id !in old(rq) && id.Static? && rq == old(rq)[id := Rq(id.tag, -1, h, shared)]
      ensures !ok ==> rq == old(rq)
      ensures ok <==> !old(Refused(h, fromReserved))
      ensures ok ==> (fromReserved <==> id.tag < bits.nrReserved)
    {
      var bit := GetTag(h, fromReserved);
      ok, id := bit >= 0, Static(0);
      if ok {
        id := Static(if fromReserved then bit else bit + bits.nrReserved);
        FreeIsDead(id, h);
        var t := Assign(id, Rq(-1, -1, h, false), bit, fromReserved);
        assert Rq(-1, -1, h, false).(tag := t, inflight := shared) == Rq(id.tag, -1, h, shared);
      }
    }

    /** A static request is live only while its tag is in use. */
    lemma {:induction false} FreeIsDead(id: RqId, h: nat)
      requires Valid() && id.Static? && !bits.InUse(id.tag) && h in hctxs
      ensures id !in rq && Sources(shared, sched, rq[id := Rq(id.tag, -1, h, shared)])
    {
      assert Open(true);
      assert id in rq ==> IdOk(shared, sched, id, rq[id]);
      SourcesSet(shared, sched, rq, id, Rq(id.tag, -1, h, shared));
    }

    /** Replace the live requests by others with the same tag holders. */
    method SetTagless(rq': map<RqId, Rq>)
      requires TagsOk()
      requires forall id :: (id in rq && rq[id].tag >= 0) <==> (id in rq' && rq'[id].tag >= 0)
      requires forall id :: id in rq && rq[id].tag >= 0 ==> rq'[id] == rq[id]
      modifies `rq
      ensures TagsOk() && rq == rq'
    {
      assert Open(true);
      TaglessOk(bits, rqs, rq, nrActive, flying, rq');
      rq := rq';
    }

    /** What is known about one live request. */
    lemma {:induction false} LiveOk(id: RqId)
      requires Valid() && id in rq
      ensures IdOk(shared, sched, id, rq[id])
      ensures id.Sched? ==> forall t: nat ::
                Sources(shared, sched, rq[id := rq[id].(tag := t, inflight := shared)])
                && Sources(shared, sched, rq[id := rq[id].(tag := -1, inflight := false)])
    {
      assert Open(true);
      assert IdOk(shared, sched, id, rq[id]);
      if id.Sched? {
        SourcesSet(shared, sched, rq, id, rq[id].(tag := -1, inflight := false));
        forall t: nat
          ensures Sources(shared, sched, rq[id := rq[id].(tag := t, inflight := shared)])
        {
          SourcesSet(shared, sched, rq, id, rq[id].(tag := t, inflight := shared));
        }
      }
    }

    /** __blk_mq_alloc_request with an elevator: only an internal tag. */
    method AllocSched(h: nat, fromReserved: bool) returns (ok: bool, id: RqId)
      requires Valid() && h in hctxs
      modifies `sched, `rq
      ensures Valid()
      ensures ok ==> id !in old(rq) && id.Sched? && rq == old(rq)[id := Rq(-1, id.itag, h, false)]
      ensures ok ==> (fromReserved <==> id.itag < old(sched)[h].nrReserved)
      ensures !ok ==> rq == old(rq) && sched == old(sched)
      ensures ok <==> !old(sched)[h].Full(fromReserved)
    {
      SchedValid(h);
      var bit := FindBit(sched[h], fromReserved);
      ok, id := bit >= 0, Static(0);
      if ok {
        var p := sched[h].Set(bit, fromReserved);
        id := Sched(h, p.1);
        UnusedIsDead(h, p);
        SetTagless(rq[id := Rq(-1, p.1, h, false)]);
        sched := sched[h := p.0];
      }
    }

    lemma {:induction false} SchedValid(h: nat)
      requires Valid() && h in hctxs
      ensures sched[h].Valid()
    {
      assert Open(true);
    }

    lemma {:induction false} UnusedIsDead(h: nat, p: (Bits, nat))
      requires Valid() && h in hctxs && !sched[h].InUse(p.1) && p.0.Valid()
      requires forall u :: p.0.InUse(u) <==> sched[h].InUse(u) || u == p.1
      ensures Sched(h, p.1) !in rq
      ensures Sources(shared, sched[h := p.0], rq[Sched(h, p.1) := Rq(-1, p.1, h, false)])
    {
      assert Open(true);
      var id := Sched(h, p.1);
      assert id in rq ==> IdOk(shared, sched, id, rq[id]);
      SourcesAdd(shared, sched, rq, h, p, Rq(-1, p.1, h, false));
    }

    /** A reserved internal tag asks for a reserved driver tag. */
    ghost predicate WantsReserved(id: RqId)
      reads `rq, `sched
    {
      id in rq && rq[id].hctx in sched && rq[id].internalTag < sched[rq[id].hctx].nrReserved
    }

    /** blk_mq_get_driver_tag without waiting. */
    method GetDriverTag(id: RqId) returns (ok: bool)
      requires Valid() && id in rq
      modifies `bits, `rqs, `rq, `nrActive, `active, `activeQueues, `flying
      ensures Valid() && rq.Keys == old(rq).Keys
      ensures ok <==> rq[id].tag >= 0
      ensures !ok ==> rq == old(rq)
      ensures old(rq)[id].tag < 0 ==> (ok <==> !old(Refused(rq[id].hctx, WantsReserved(id))))
      ensures ok && old(rq)[id].tag == -1 ==> (rq[id].tag < bits.nrReserved <==> old(WantsReserved(id)))
      ensures ok ==> rq == old(rq)[id := old(rq)[id].(tag := rq[id].tag, inflight := shared)]
      ensures old(rq)[id].tag >= 0 ==> rq == old(rq)
    {
      LiveOk(id);
      if rq[id].tag != -1 {
        return true;
      }
      var h := rq[id].hctx;
      var fromReserved := rq[id].internalTag < sched[h].nrReserved;
      var bit := GetTag(h, fromReserved);
      ok := bit >= 0;
      if ok {
        var t := Assign(id, rq[id], bit, fromReserved);
      }
    }

    /** blk_mq_put_driver_tag, as used when a request is requeued. */
    method PutDriverTag(id: RqId)
      requires Valid() && id in rq
      modifies `bits, `rq, `nrActive, `flying
      ensures Valid()
      ensures rq == if old(rq)[id].tag == -1 || old(rq)[id].internalTag == -1 then old(rq)
                    else old(rq)[id := old(rq)[id].(tag := -1, inflight := false)]
    {
      LiveOk(id);
      if rq[id].tag == -1 || rq[id].internalTag == -1 {
        return;
      }
      Release(id);
    }

    /** The requests that remain when one goes away. */
    lemma {:induction false} RemoveOk(id: RqId)
      requires Valid() && id in rq
      ensures IdOk(shared, sched, id, rq[id])
      ensures id.Static? ==> Sources(shared, sched, rq - {id})
      ensures id.Sched? ==> sched[id.hctx].Valid()
                            && Sources(shared, sched[id.hctx := sched[id.hctx].Clear(id.itag)], rq - {id})
    {
      assert Open(true);
      assert IdOk(shared, sched, id, rq[id]);
      SourcesRemove(shared, sched, rq, id, rq - {id});
    }

    /** Give back a driver tag, if any, and forget the request. */
    method Drop(id: RqId)
      requires TagsOk() && id in rq && rq[id].tag >= -1 && rq[id].hctx in hctxs
      modifies `bits, `rq, `nrActive, `flying
      ensures TagsOk() && rq == old(rq) - {id}
    {
      if rq[id].tag >= 0 {
        Release(id);
        MapDrop(old(rq), id, rq[id]);
      }
      SetTagless(rq - {id});
    }

    /** __blk_mq_finish_request. */
    method FinishRequest(id: RqId)
      requires Valid() && id in rq
      modifies `bits, `rq, `nrActive, `flying, `sched
      ensures Valid() && rq == old(rq) - {id}
    {
      RemoveOk(id);
      Drop(id);
      if id.Sched? {
        sched := sched[id.hctx := sched[id.hctx].Clear(id.itag)];
      }
    }
  }

  /** No two live requests of a tag map hold the same tag, and every tag is below nr_tags. */
  lemma {:induction false} TagsDistinct(bits: Bits, rqs: map<nat, RqId>, rq: map<RqId, Rq>, a: RqId, b: RqId)
    requires Holders(bits, rqs, rq) && a in rq && b in rq && rq[a].tag >= 0
    ensures rq[a].tag < bits.nrTags
    ensures rq[a].tag == rq[b].tag ==> a == b
  {
    assert bits.InUse(rq[a].tag);
  }

  /** The sum of nr_active over a set of hardware queues. */
  ghost function Total(hs: set<nat>, nrActive: map<nat, int>): int
    requires hs <= nrActive.Keys
  {
    if hs == {} then 0
    else
      var h :| h in hs;
      nrActive[h] + Total(hs - {h}, nrActive)
  }

  /** In-flight requests of different hardware queues hold different tags. */
  lemma {:induction false} TotalBelow(hs: set<nat>, nrActive: map<nat, int>, flying: map<nat, set<nat>>, tags: set<nat>)
    requires hs <= nrActive.Keys && nrActive.Keys == flying.Keys
    requires forall h :: h in hs ==> nrActive[h] == |flying[h]| && flying[h] <= tags
    requires forall h, k :: h in hs && k in hs && h != k ==> flying[h] !! flying[k]
    ensures Total(hs, nrActive) <= |tags|
  {
    if hs != {} {
      var h :| h in hs && Total(hs, nrActive) == nrActive[h] + Total(hs - {h}, nrActive);
      TotalBelow(hs - {h}, nrActive, flying, tags - flying[h]);
      assert |tags - flying[h]| == |tags| - |flying[h]|;
    }
  }

  lemma {:induction false} TotalAtLeast(hs: set<nat>, nrActive: map<nat, int>, share: nat)
    requires hs <= nrActive.Keys && forall h :: h in hs ==> nrActive[h] >= share
    ensures Total(hs, nrActive) >= |hs| * share
  {
    if hs != {} {
      var h :| h in hs && Total(hs, nrActive) == nrActive[h] + Total(hs - {h}, nrActive);
      TotalAtLeast(hs - {h}, nrActive, share);
      assert |hs| * share == |hs - {h}| * share + share;
    }
  }

  lemma {:induction false} SharesCover(depth: nat, users: nat)
    requires users >= 1
    ensures users * Ceiling(depth, users) >= depth
  {
    var q := Ceiling(depth, users);
    assert (depth + users - 1) == q * users + (depth + users - 1) % users;
  }

  lemma {:induction false} BelowCeiling(n: nat, depth: nat, users: nat)
    requires users >= 1
    ensures n < Ceiling(depth, users) <==> n * users < depth
  {
    var c := Ceiling(depth, users);
    assert depth + users - 1 == c * users + (depth + users - 1) % users;
    if n < c {
      assert (n + 1) * users <= c * users;
    } else {
      assert n * users >= c * users;
    }
  }

  /** What hctx_may_queue allows: an active hardware queue of a shared map gets another tag iff
      it has fewer than four or fewer than its exact share of the depth; nobody else is held
      back, and a map with a single tag holds back nobody. */
  lemma {:induction false} FairShare(m: TagMap, h: nat, depth: nat)
    requires m.Valid() && h in m.hctxs && h in m.nrActive
    ensures m.MayQueue(h, depth) <==>
              (m.shared && h in m.active && depth != 1 ==> m.nrActive[h] < 4 || m.nrActive[h] * |m.active| < depth)
  {
    assert Open(true);
    assert m.nrActive[h] == |m.flying[h]|;
    if h in m.active {
      assert m.active != {};
      BelowCeiling(m.nrActive[h], depth, |m.active|);
    }
  }

  /** What the in-flight requests of the hardware queues hold: normal tags, each one only once. */
  lemma {:induction false} FlyingApart(m: TagMap)
    requires m.Valid() && m.bits.nrReserved == 0
    ensures m.active <= m.nrActive.Keys && m.nrActive.Keys == m.flying.Keys
    ensures forall h :: h in m.active ==> m.nrActive[h] == |m.flying[h]| && m.flying[h] <= m.bits.normal
    ensures forall h, k :: h in m.active && k in m.active && h != k ==> m.flying[h] !! m.flying[k]
  {
    assert Open(true);
    forall h, x: nat | h in m.active && x in m.flying[h]
      ensures x in m.bits.normal
    {
      assert Flies(m.bits, m.rqs, m.rq, h, x);
    }
    forall h, k, x: nat | h in m.active && k in m.active && x in m.flying[h] && x in m.flying[k]
      ensures h == k
    {
      assert Flies(m.bits, m.rqs, m.rq, h, x) && Flies(m.bits, m.rqs, m.rq, k, x);
    }
  }

  lemma {:induction false} RefusedHasShare(m: TagMap, h: nat, depth: nat)
    requires m.QueuesOk() && h in m.active && h in m.nrActive && !m.MayQueue(h, depth)
    ensures |m.active| >= 1 && m.nrActive[h] >= Ceiling(depth, |m.active|)
  {
  }

  /** Fair sharing never idles a tag: without reserved tags, if hctx_may_queue refuses every
      active hardware queue, all tags are in use. */
  lemma {:induction false} NoTagIdle(m: TagMap, t: nat)
    requires m.Valid() && m.bits.nrReserved == 0 && t < m.bits.nrTags
    requires m.active != {} && forall h :: h in m.active ==> !m.MayQueue(h, m.bits.nrTags)
    ensures m.bits.InUse(t)
  {
    var depth, users := m.bits.nrTags, |m.active|;
    var share := Ceiling(depth, users);
    FlyingApart(m);
    forall h | h in m.active
      ensures m.nrActive[h] >= share
    {
      RefusedHasShare(m, h, depth);
    }
    TotalBelow(m.active, m.nrActive, m.flying, m.bits.normal);
    TotalAtLeast(m.active, m.nrActive, share);
    SharesCover(depth, users);
    AllBelow(m.bits.normal, depth, t);
  }

  /** A set of `n` numbers below `n` is all of them. */
  lemma {:induction false} AllBelow(s: set<nat>, n: nat, t: nat)
    requires |s| >= n && t < n && forall x :: x in s ==> x < n
    ensures t in s
  {
    if t !in s {
      Smaller(s, n, t);
    }
  }

  lemma {:induction false} Smaller(s: set<nat>, n: nat, t: nat)
    requires t < n && t !in s && forall x :: x in s ==> x < n
    ensures |s| < n
    decreases n
  {
    if n - 1 != t {
      var s' := s - {n - 1};
      Smaller(s', n - 1, t);
      assert |s| <= |s'| + 1;
    } else if s != {} {
      Below(s, n - 1);
    }
  }

  lemma {:induction false} Below(s: set<nat>, n: nat)
    requires forall x :: x in s ==> x < n
    ensures |s| <= n
  {
    if n > 0 {
      Below(s - {n - 1}, n - 1);
    } else {
      assert s == {};
    }
  }
}
