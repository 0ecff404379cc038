/** Software queues: their mapping to hardware queues (block/blk-mq.c:2581-2674), the pending
    bitmap (blk-mq.c:56-67, 963-1034, 1634-1699), unplugging (blk-mq.c:1715-1784) and the
    round robin of blk_mq_do_dispatch_ctx (block/blk-mq-sched.c:230-301). */
module SwMapping {

  /** The parts of a request queue that blk_mq_map_swqueue rebuilds. */
  class Mapping {
    const nrHw: nat                // q->nr_hw_queues
    const online: seq<bool>        // one entry per possible CPU
    const canAlloc: seq<bool>      // what __blk_mq_alloc_rq_map answers if asked for this CPU
    var mqMap: seq<nat>            // q->mq_map
    var tags: seq<bool>            // set->tags[i] != NULL
    var ctxs: seq<seq<nat>>        // hctx->ctxs[0 .. nr_ctx), by CPU number
    var indexHw: seq<nat>          // ctx->index_hw

    ghost predicate Shape()
      reads this
    {
      && nrHw >= 1 && |tags| == nrHw && |ctxs| == nrHw
      && |mqMap| == |online| && |indexHw| == |online| && |canAlloc| == |online|
      && (forall c :: 0 <= c < |mqMap| ==> mqMap[c] < nrHw)
      && tags[0]
    }

    /** The software queues of online CPUs below `n` stand in exactly one place each, and
        nothing else does. */
    ghost predicate Mapped(n: nat)
      requires Shape() && n <= |online|
      reads this
    {
      && (forall c :: 0 <= c < n && online[c] ==> Placed(c))
      && (forall h, k :: 0 <= h < nrHw && 0 <= k < |ctxs[h]| ==>
            var c := ctxs[h][k]; c < n && online[c] && mqMap[c] == h && indexHw[c] == k)
    }

    ghost predicate Placed(c: nat)
      requires Shape() && c < |online|
      reads this
    {
      var h := mqMap[c];
      tags[h] && indexHw[c] < |ctxs[h]| && ctxs[h][indexHw[c]] == c
    }

    /** Hardware queue `h` has tags once the CPUs below `n` are mapped, from `tags0` and
        `map0` on: allocation for CPU c succeeds if canAlloc[c]. */
    ghost predicate Backed(map0: seq<nat>, tags0: seq<bool>, n: nat, h: nat)
      requires n <= |online| == |map0| == |canAlloc| && h < |tags0|
    {
      if n == 0 then tags0[h]
      else Backed(map0, tags0, n - 1, h) || (online[n - 1] && map0[n - 1] == h && canAlloc[n - 1])
    }

    /** Every CPU below `n` keeps its hardware queue if that has or gets tags, and falls back
        to the first one otherwise. */
    ghost predicate Chosen(map0: seq<nat>, tags0: seq<bool>, n: nat)
      requires Shape() && n <= |online| == |map0| && |tags0| == nrHw
      requires forall c :: 0 <= c < |map0| ==> map0[c] < nrHw
      reads this
    {
      && (forall c :: 0 <= c < n ==>
            mqMap[c] == if !online[c] || Backed(map0, tags0, c + 1, map0[c]) then map0[c] else 0)
      && (forall c :: n <= c < |online| ==> mqMap[c] == map0[c])
    }

    /** Map the software queue of CPU `i`. */
    method MapCpu(i: nat, ghost map0: seq<nat>, ghost tags0: seq<bool>)
      requires Shape() && i < |online| && Mapped(i)
      requires |map0| == |online| && |tags0| == nrHw && (forall c :: 0 <= c < |map0| ==> map0[c] < nrHw)
      requires Chosen(map0, tags0, i)
      requires forall h :: 0 <= h < nrHw ==> tags[h] == Backed(map0, tags0, i, h)
      modifies `mqMap, `tags, `ctxs, `indexHw
      ensures Shape() && Mapped(i + 1) && Chosen(map0, tags0, i + 1)
      ensures forall h :: 0 <= h < nrHw ==> tags[h] == Backed(map0, tags0, i + 1, h)
    {
      if !online[i] {
        return;
      }
      var h := mqMap[i];
      if !tags[h] {
        if canAlloc[i] {
          tags := tags[h := true];
        } else {
          mqMap := mqMap[i := 0];
          h := 0;
        }
      }
      indexHw := indexHw[i := |ctxs[h]|];
      ctxs := ctxs[h := ctxs[h] + [i]];
    }

    /** blk_mq_map_swqueue: afterwards every online CPU's software queue is the entry
        ctxs[index_hw] of exactly one hardware queue, which has tags and is the mapped one
        unless that could get none; hardware queues without software queues keep no tags,
        except the first. */
    method MapSwqueue()
      requires Shape()
      modifies `mqMap, `tags, `ctxs, `indexHw
      ensures Shape() && Mapped(|online|) && Chosen(old(mqMap), old(tags), |online|)
      ensures forall h :: 0 < h < nrHw && ctxs[h] == [] ==> !tags[h]
    {
      ctxs := seq(nrHw, h => []);
      for i := 0 to |online|
        invariant Shape() && Mapped(i) && Chosen(old(mqMap), old(tags), i)
        invariant forall h :: 0 <= h < nrHw ==> tags[h] == Backed(old(mqMap), old(tags), i, h)
      {
        MapCpu(i, old(mqMap), old(tags));
      }
      for h := 0 to nrHw
        invariant Shape() && Mapped(|online|) && Chosen(old(mqMap), old(tags), |online|)
        invariant forall k :: 0 < k < h && ctxs[k] == [] ==> !tags[k]
      {
        if ctxs[h] == [] && h > 0 {
          tags := tags[h := false];
        }
      }
    }

    /** Two online CPUs never share a place. */
    lemma {:induction false} PlacesDistinct(c: nat, d: nat)
      requires Shape() && Mapped(|online|) && c < |online| && d < |online| && online[c] && online[d]
      requires mqMap[c] == mqMap[d] && indexHw[c] == indexHw[d]
      ensures c == d
    {
      assert Placed(c) && Placed(d);
    }
  }
}

module SwQueues {
  import opened Common

  type Rq = nat

  /** The requests of all lists, in the order of the lists. */
  function Flat(lists: seq<seq<Rq>>, n: nat): seq<Rq>
    requires n <= |lists|
  {
    if n == 0 then [] else Flat(lists, n - 1) + lists[n - 1]
  }

  /** How far round the circle of `n` queues `i` lies from `start`. */
  function Distance(start: nat, i: nat, n: nat): int
  {
    if start <= i then i - start else n - start + i
  }

  /** blk_mq_next_ctx. */
  function NextCtx(i: nat, n: nat): nat
  {
    if i + 1 == n then 0 else i + 1
  }

  /** What a round-robin dispatcher sees: the software queues and where it stands. */
  datatype View = View(lists: seq<seq<Rq>>, at: nat)

  /** One dequeue serves queue `i`: no other non-empty queue lies nearer. */
  ghost predicate Serves(v: View, i: nat, w: View)
  {
    var n := |v.lists|;
    && i < n && v.at < n && v.lists[i] != []
    && w == View(v.lists[i := v.lists[i][1..]], NextCtx(i, n))
    && forall k :: 0 <= k < n && v.lists[k] != [] ==> Distance(v.at, i, n) <= Distance(v.at, k, n)
  }

  /** Between dequeues others may insert anything anywhere. */
  ghost predicate Inserted(v: View, w: View)
  {
    && |w.lists| == |v.lists| && w.at == v.at
    && forall k :: 0 <= k < |v.lists| && v.lists[k] != [] ==> w.lists[k] != []
  }

  /** Serving another queue brings a waiting one strictly nearer. */
  lemma {:induction false} Nearer(v: View, i: nat, w: View, k: nat)
    requires Serves(v, i, w) && k < |v.lists| && v.lists[k] != [] && k != i
    ensures Distance(w.at, k, |v.lists|) < Distance(v.at, k, |v.lists|) < |v.lists|
  {
  }

  datatype Event = Insertion | Service(i: nat)

  ghost predicate Happens(v: View, e: Event, w: View)
  {
    if e.Service? then Serves(v, e.i, w) else Inserted(v, w)
  }

  /** A run: the events and the views between them. */
  ghost predicate Follows(run: seq<View>, events: seq<Event>)
  {
    |run| == |events| + 1 && forall j :: 0 <= j < |events| ==> Happens(run[j], events[j], run[j + 1])
  }

  /** What is served is each time the first request of the queue served. */
  ghost predicate Delivers(run: seq<View>, events: seq<Event>, served: seq<Rq>)
  {
    && |served| == |events| < |run|
    && forall j :: 0 <= j < |events| ==>
         events[j].Service? && events[j].i < |run[j].lists| && run[j].lists[events[j].i] != []
         && served[j] == run[j].lists[events[j].i][0]
  }

  lemma {:induction false} DeliversSnoc(run: seq<View>, events: seq<Event>, served: seq<Rq>, i: nat, w: View, r: Rq)
    requires Delivers(run, events, served) && |run| == |events| + 1
    requires i < |run[|events|].lists| && run[|events|].lists[i] != [] && r == run[|events|].lists[i][0]
    ensures Delivers(run + [w], events + [Service(i)], served + [r])
  {
  }

  /** The number of dequeues among the first `m` events. */
  function Services(events: seq<Event>, m: nat): nat
    requires m <= |events|
  {
    if m == 0 then 0 else Services(events, m - 1) + if events[m - 1].Service? then 1 else 0
  }

  /** Bounded waiting: while queue `k` stays non-empty, fewer than nr_ctx dequeues in a row
      pass it by, whatever is inserted in between and however the dequeues are grouped into
      calls. */
  lemma {:induction false} BoundedWaiting(run: seq<View>, events: seq<Event>, k: nat, m: nat)
    requires Follows(run, events) && m <= |events|
    requires k < |run[0].lists| && run[0].at < |run[0].lists|
    requires forall j :: 0 <= j <= m ==> k < |run[j].lists| && run[j].lists[k] != []
    requires forall j :: 0 <= j < m ==> events[j] != Service(k)
    ensures Services(events, m) < |run[0].lists|
    ensures |run[m].lists| == |run[0].lists| && run[m].at < |run[m].lists|
    ensures Services(events, m) + Distance(run[m].at, k, |run[m].lists|) <= Distance(run[0].at, k, |run[0].lists|)
  {
    if m > 0 {
      BoundedWaiting(run, events, k, m - 1);
      assert Happens(run[m - 1], events[m - 1], run[m]);
      if events[m - 1].Service? {
        Nearer(run[m - 1], events[m - 1].i, run[m], k);
      }
    }
  }

  /** A hardware queue with its software queues. */
  class Hctx {
    const nrCtx: nat
    var lists: seq<seq<Rq>>       // ctx->rq_list, by index_hw
    var pending: set<nat>         // hctx->ctx_map
    var dispatchFrom: nat         // hctx->dispatch_from, as an index; 0 before it is set

    /** A bit of ctx_map is set exactly when its software queue is not empty. */
    ghost predicate Valid()
      reads this
    {
      && |lists| == nrCtx
      && (forall i :: i in pending ==> i < nrCtx)
      && (forall i :: 0 <= i < nrCtx ==> (i in pending <==> lists[i] != []))
      && (dispatchFrom < nrCtx || nrCtx == 0)
    }

    constructor (n: nat)
      ensures Valid() && nrCtx == n && pending == {} && forall i :: 0 <= i < nrCtx ==> lists[i] == []
    {
      nrCtx, lists, pending, dispatchFrom := n, seq(n, _ => []), {}, 0;
    }

    /** blk_mq_hctx_has_pending, as far as software queues go. */
    lemma {:induction false} PendingExactly()
      requires Valid()
      ensures pending == {} <==> Flat(lists, nrCtx) == []
    {
      FlatEmpty(lists, nrCtx);
      assert pending == {} <==> forall i :: 0 <= i < nrCtx ==> i !in pending;
    }

    /** blk_mq_insert_requests, and __blk_mq_insert_request for a single request. */
    method Insert(i: nat, rqs: seq<Rq>, atHead: bool)
      requires Valid() && i < nrCtx && rqs != []
      modifies `lists, `pending
      ensures Valid()
      ensures lists == old(lists)[i := if atHead then rqs + old(lists)[i] else old(lists)[i] + rqs]
    {
      lists := lists[i := if atHead then rqs + lists[i] else lists[i] + rqs];
      if i !in pending {
        pending := pending + {i};
      }
    }

    /** blk_mq_flush_busy_ctxs: every queued request is taken, queue by queue, in order. */
    method FlushBusy() returns (list: seq<Rq>)
      requires Valid()
      modifies `lists, `pending
      ensures Valid() && list == Flat(old(lists), nrCtx)
      ensures pending == {} && forall i :: 0 <= i < nrCtx ==> lists[i] == []
    {
      list := [];
      for i := 0 to nrCtx
        invariant Valid() && list == Flat(old(lists), i)
        invariant forall k :: 0 <= k < i ==> lists[k] == []
        invariant forall k :: i <= k < nrCtx ==> lists[k] == old(lists)[k]
      {
        if i in pending {
          list := list + lists[i];
          lists := lists[i := []];
          pending := pending - {i};
        } else {
          assert list + [] == list;
        }
      }
    }

    /** blk_mq_dequeue_from_ctx: the first request of the first non-empty software queue from
        `start` on, going round; nothing only if all are empty. */
    method Dequeue(start: nat) returns (r: Option<(nat, Rq)>)
      requires Valid() && start < nrCtx
      modifies `lists, `pending
      ensures Valid()
      ensures r.None? ==> lists == old(lists) && forall i :: 0 <= i < nrCtx ==> lists[i] == []
      ensures r.Some? ==>
                var i := r.value.0;
                && i < nrCtx && old(lists)[i] != [] && r.value.1 == old(lists)[i][0]
                && lists == old(lists)[i := old(lists)[i][1..]]
                && forall k :: 0 <= k < nrCtx && old(lists)[k] != [] ==>
                     Distance(start, i, nrCtx) <= Distance(start, k, nrCtx)
    {
      var i := FirstPending(start);
      if i < 0 {
        return None;
      }
      r := Some((i, lists[i][0]));
      lists := lists[i := lists[i][1..]];
      if lists[i] == [] {
        pending := pending - {i};
      }
    }

    /** blk_mq_do_dispatch_ctx: every dequeue serves the nearest non-empty queue from where the
        last one stopped, and dispatch_from remembers where that is.  It goes on until the
        queues are empty, the dispatch budget is refused (after `budget` grants) or the driver
        refuses a request (after accepting `accepts`). */
    method DispatchCtx(budget: nat, accepts: nat)
      returns (served: seq<Rq>, ghost run: seq<View>, ghost events: seq<Event>)
      requires Valid() && nrCtx > 0
      modifies `lists, `pending, `dispatchFrom
      ensures Valid() && Follows(run, events) && |events| == |served| == Services(events, |events|)
      ensures pending == {} || |served| == budget || |served| == accepts + 1
      ensures |served| <= budget && |served| <= accepts + 1 && Delivers(run, events, served)
      ensures run[0] == View(old(lists), old(dispatchFrom)) && run[|served|] == View(lists, dispatchFrom)
    {
      var ctx: nat, more := dispatchFrom, true;
      served, run, events := [], [View(lists, ctx)], [];
      while more
        invariant Valid() && ctx < nrCtx
        invariant Follows(run, events) && |events| == |served| == Services(events, |events|)
        invariant |served| <= budget && |served| <= accepts + (if more then 0 else 1)
        invariant !more ==> |served| == accepts + 1
        invariant Delivers(run, events, served)
        invariant run[0] == View(old(lists), old(dispatchFrom)) && run[|served|] == View(lists, ctx)
        decreases if more then |Flat(lists, nrCtx)| + 1 else 0
      {
        if pending == {} || |served| == budget {
          break;
        }
        ghost var before := lists;
        var r := Dequeue(ctx);
        if r.None? {
          break;
        }
        FlatShorter(before, r.value.0, nrCtx);
        ctx := NextCtx(r.value.0, nrCtx);
        served := served + [r.value.1];
        DeliversSnoc(run, events, served[..|events|], r.value.0, View(lists, ctx), r.value.1);
        FollowsSnoc(run, events, Service(r.value.0), View(lists, ctx));
        run, events := run + [View(lists, ctx)], events + [Service(r.value.0)];
        more := |served| <= accepts;
      }
      dispatchFrom := ctx;
    }

    /** __sbitmap_for_each_set: scan from `start`, then wrap. */
    method FirstPending(start: nat) returns (i: int)
      requires Valid() && start < nrCtx
      ensures i < 0 ==> forall k :: 0 <= k < nrCtx ==> lists[k] == []
      ensures i >= 0 ==> i < nrCtx && i in pending && lists[i] != []
      ensures i >= 0 ==> forall k :: 0 <= k < nrCtx && lists[k] != [] ==>
                           Distance(start, i, nrCtx) <= Distance(start, k, nrCtx)
    {
      i := start;
      while i < nrCtx
        invariant start <= i <= nrCtx
        invariant forall k :: start <= k < i ==> lists[k] == []
      {
        if i in pending {
          return;
        }
        i := i + 1;
      }
      i := 0;
      while i < start
        invariant 0 <= i <= start
        invariant forall k :: 0 <= k < i ==> lists[k] == []
      {
        if i in pending {
          return;
        }
        i := i + 1;
      }
      i := -1;
    }
  }

  lemma {:induction false} FlatEmpty(lists: seq<seq<Rq>>, n: nat)
    requires n <= |lists|
    ensures Flat(lists, n) == [] <==> forall i :: 0 <= i < n ==> lists[i] == []
  {
    if n > 0 {
      FlatEmpty(lists, n - 1);
    }
  }

  lemma {:induction false} FlatShorter(lists: seq<seq<Rq>>, i: nat, n: nat)
    requires i < n <= |lists| && lists[i] != []
    ensures |Flat(lists[i := lists[i][1..]], n)| < |Flat(lists, n)|
  {
    if i < n - 1 {
      FlatShorter(lists, i, n - 1);
    } else {
      FlatSame(lists[i := lists[i][1..]], lists, n - 1);
    }
  }

  lemma {:induction false} FlatSame(a: seq<seq<Rq>>, b: seq<seq<Rq>>, n: nat)
    requires n <= |a| && n <= |b| && forall i :: 0 <= i < n ==> a[i] == b[i]
    ensures Flat(a, n) == Flat(b, n)
  {
    if n > 0 {
      FlatSame(a, b, n - 1);
    }
  }

  lemma {:induction false} FollowsSnoc(run: seq<View>, events: seq<Event>, e: Event, w: View)
    requires Follows(run, events) && Happens(run[|events|], e, w)
    ensures Follows(run + [w], events + [e])
    ensures Services(events + [e], |events| + 1) == Services(events, |events|) + if e.Service? then 1 else 0
  {
    ServicesPrefix(events, e, |events|);
  }

  lemma {:induction false} ServicesPrefix(events: seq<Event>, e: Event, m: nat)
    requires m <= |events|
    ensures Services(events + [e], m) == Services(events, m)
  {
    if m > 0 {
      ServicesPrefix(events, e, m - 1);
    }
  }
}

/** blk_mq_flush_plug_list on a device without an elevator, when requests are not issued
    directly (block/blk-mq.c:1715-1784). */
module Unplug {
  type Rq = nat

  datatype Plugged = Plugged(rq: Rq, ctx: nat)

  /** A software queue followed by its own requests among the first `n`, in order. */
  ghost function WithOwn(rqs: seq<Rq>, c: nat, list: seq<Plugged>, n: nat): seq<Rq>
    requires n <= |list|
  {
    if n == 0 then rqs
    else if list[n - 1].ctx == c then WithOwn(rqs, c, list, n - 1) + [list[n - 1].rq]
    else WithOwn(rqs, c, list, n - 1)
  }

  /** Whatever order list_sort leaves, splitting the list into runs of one software queue and
      splicing run after run appends to every software queue exactly its own requests, in the
      order of the list. */
  method FlushPlugList(list: seq<Plugged>, lists: seq<seq<Rq>>) returns (out: seq<seq<Rq>>)
    requires forall i :: 0 <= i < |list| ==> list[i].ctx < |lists|
    ensures |out| == |lists|
    ensures forall c :: 0 <= c < |lists| ==> out[c] == WithOwn(lists[c], c, list, |list|)
  {
    out := lists;
    var thisCtx, group := -1, [];
    var i := 0;
    while i < |list|
      invariant i <= |list| && |out| == |lists| && -1 <= thisCtx < |lists|
      invariant thisCtx == -1 ==> group == [] && i == 0
      invariant forall c :: 0 <= c < |lists| ==>
                  (if c == thisCtx then out[c] + group else out[c]) == WithOwn(lists[c], c, list, i)
    {
      var p := list[i];
      if p.ctx != thisCtx {
        if thisCtx >= 0 {
          out := out[thisCtx := out[thisCtx] + group];
        }
        thisCtx, group := p.ctx, [];
        assert out[p.ctx] + [] == out[p.ctx];
      }
      assert out[p.ctx] + (group + [p.rq]) == (out[p.ctx] + group) + [p.rq];
      group := group + [p.rq];
      i := i + 1;
    }
    if thisCtx >= 0 {
      out := out[thisCtx := out[thisCtx] + group];
    }
  }
}
