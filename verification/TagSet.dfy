/** Sharing a tag set between queues (block/blk-mq.c:2681-2749) and counting the hardware
    queues marked for restart (block/blk-mq-sched.c:75-103). */
module TagSet {
  import opened Common

  type QueueId = nat

  /** BLK_MQ_F_TAG_SHARED and BLK_MQ_S_SCHED_RESTART of a hardware queue. */
  datatype Hctx = Hctx(shared: bool, restart: bool)

  /** A request queue; `restarts` is shared_hctx_restart. */
  datatype Queue = Queue(hctxs: seq<Hctx>, restarts: int)

  /** How many of the first `n` hardware queues are shared and marked for restart. */
  function Marked(hctxs: seq<Hctx>, n: nat): nat
    requires n <= |hctxs|
  {
    if n == 0 then 0 else Marked(hctxs, n - 1) + if hctxs[n - 1].shared && hctxs[n - 1].restart then 1 else 0
  }

  ghost predicate CountOk(q: Queue)
  {
    q.restarts == Marked(q.hctxs, |q.hctxs|)
  }

  ghost predicate AllShared(q: Queue, shared: bool)
  {
    forall i :: 0 <= i < |q.hctxs| ==> q.hctxs[i].shared == shared
  }

  lemma {:induction false} MarkedUpdate(hctxs: seq<Hctx>, i: nat, h: Hctx, n: nat)
    requires i < |hctxs| && n <= |hctxs|
    ensures Marked(hctxs[i := h], n) ==
            Marked(hctxs, n) + if i < n then Weight(h) - Weight(hctxs[i]) else 0
  {
    if n > 0 {
      MarkedUpdate(hctxs, i, h, n - 1);
    }
  }

  function Weight(h: Hctx): int { if h.shared && h.restart then 1 else 0 }

  /** How many of the first `n` hardware queues are marked for restart at all. */
  function Restarting(hctxs: seq<Hctx>, n: nat): int
    requires n <= |hctxs|
  {
    if n == 0 then 0 else Restarting(hctxs, n - 1) + if hctxs[n - 1].restart then 1 else 0
  }

  /** queue_set_hctx_shared: the counter moves by the number of marked hardware queues. */
  method SetShared(q: Queue, shared: bool) returns (r: Queue)
    ensures |r.hctxs| == |q.hctxs| && forall i :: 0 <= i < |q.hctxs| ==> r.hctxs[i] == Hctx(shared, q.hctxs[i].restart)
    ensures var n := Restarting(q.hctxs, |q.hctxs|);
            r.restarts == q.restarts + if shared then n else -n
  {
    r := q;
    for i := 0 to |q.hctxs|
      invariant |r.hctxs| == |q.hctxs|
      invariant r.restarts == q.restarts + if shared then Restarting(q.hctxs, i) else -Restarting(q.hctxs, i)
      invariant forall k :: 0 <= k < i ==> r.hctxs[k] == Hctx(shared, q.hctxs[k].restart)
      invariant forall k :: i <= k < |q.hctxs| ==> r.hctxs[k] == q.hctxs[k]
    {
      var h := r.hctxs[i];
      r := Queue(r.hctxs[i := h.(shared := shared)],
                 if !h.restart then r.restarts else if shared then r.restarts + 1 else r.restarts - 1);
    }
  }

  /** None of the queue's hardware queues is both shared and marked for restart. */
  ghost predicate NoneCounted(q: Queue)
  {
    forall i :: 0 <= i < |q.hctxs| ==> !(q.hctxs[i].shared && q.hctxs[i].restart)
  }

  lemma {:induction false} MarkedZero(hctxs: seq<Hctx>, n: nat)
    requires n <= |hctxs|
    ensures Marked(hctxs, n) == 0 <==> forall i :: 0 <= i < n ==> !(hctxs[i].shared && hctxs[i].restart)
  {
    if n > 0 {
      MarkedZero(hctxs, n - 1);
    }
  }

  lemma {:induction false} MarkedAll(hctxs: seq<Hctx>, n: nat, all: seq<Hctx>, shared: bool)
    requires n <= |hctxs| == |all| && forall i :: 0 <= i < |hctxs| ==> all[i] == Hctx(shared, hctxs[i].restart)
    ensures Marked(all, n) == if shared then Restarting(hctxs, n) else 0
    ensures (forall i :: 0 <= i < n ==> hctxs[i].shared) ==> Marked(hctxs, n) == Restarting(hctxs, n)
  {
    if n > 0 {
      MarkedAll(hctxs, n - 1, all, shared);
    }
  }

  /** Marking a queue shared leaves its counter right exactly when nothing had been counted
      before; unmarking it does if it was marked throughout. */
  lemma {:induction false} SharedCount(q: Queue, r: Queue, shared: bool)
    requires CountOk(q)
    requires |r.hctxs| == |q.hctxs| && forall i :: 0 <= i < |q.hctxs| ==> r.hctxs[i] == Hctx(shared, q.hctxs[i].restart)
    requires var n := Restarting(q.hctxs, |q.hctxs|);
             r.restarts == q.restarts + if shared then n else -n
    ensures shared ==> (CountOk(r) <==> NoneCounted(q))
    ensures !shared && AllShared(q, true) ==> CountOk(r)
    ensures AllShared(q, false) ==> NoneCounted(q)
  {
    MarkedZero(q.hctxs, |q.hctxs|);
    MarkedAll(q.hctxs, |q.hctxs|, r.hctxs, shared);
  }

  /** Nothing has changed but which hardware queues are marked shared. */
  ghost predicate SameRestarts(q: Queue, r: Queue)
  {
    |r.hctxs| == |q.hctxs| && forall i :: 0 <= i < |q.hctxs| ==> r.hctxs[i].restart == q.hctxs[i].restart
  }

  /** What that means for the counter. */
  method Remark(q: Queue, shared: bool) returns (r: Queue)
    requires CountOk(q)
    ensures AllShared(r, shared) && SameRestarts(q, r)
    ensures shared ==> (CountOk(r) <==> NoneCounted(q))
    ensures AllShared(q, !shared) ==> CountOk(r)
  {
    r := SetShared(q, shared);
    SharedCount(q, r, shared);
  }

  /** So for every queue; it enters a proof where Open asks for it. */
  ghost predicate Remarked(was: map<QueueId, Queue>, now: map<QueueId, Queue>)
  {
    && was.Keys <= now.Keys
    && forall open: bool {:trigger Open(open)} :: Open(open) ==> forall k :: k in was ==> SameRestarts(was[k], now[k])
  }

  lemma {:induction false} RemarkedSet(was: map<QueueId, Queue>, now: map<QueueId, Queue>, id: QueueId, r: Queue)
    requires Remarked(was, now) && (id in was ==> SameRestarts(now[id], r))
    ensures Remarked(was, now[id := r])
  {
    assert Open(true);
  }

  lemma {:induction false} RemarkedAt(was: map<QueueId, Queue>, now: map<QueueId, Queue>, id: QueueId)
    requires Remarked(was, now) && id in was
    ensures SameRestarts(was[id], now[id])
  {
    assert Open(true);
  }

  class Set {
    var shared: bool                      // BLK_MQ_F_TAG_SHARED of the set
    var tagList: seq<QueueId>             // set->tag_list
    var queues: map<QueueId, Queue>       // every queue that is or was on the list

    /** The set and the hardware queues of its listed queues are marked shared iff at least two
        queues are listed, and every counter is exact. */
    ghost predicate Valid()
      reads this
    {
      && (shared <==> |tagList| >= 2)
      && (forall i, j :: 0 <= i < j < |tagList| ==> tagList[i] != tagList[j])
      && (forall i :: 0 <= i < |tagList| ==> tagList[i] in queues && AllShared(queues[tagList[i]], shared))
      && (forall q :: q in queues ==> CountOk(queues[q]))
    }

    constructor ()
      ensures Valid() && tagList == [] && queues == map[]
    {
      shared, tagList, queues := false, [], map[];
    }

    /** blk_mq_update_tag_set_depth. */
    method UpdateListed(to: bool)
      requires forall i, j :: 0 <= i < j < |tagList| ==> tagList[i] != tagList[j]
      requires forall i :: 0 <= i < |tagList| ==> tagList[i] in queues && AllShared(queues[tagList[i]], !to)
      requires forall q :: q in queues ==> CountOk(queues[q])
      modifies `queues
      ensures queues.Keys == old(queues).Keys
      ensures forall i :: 0 <= i < |tagList| ==> AllShared(queues[tagList[i]], to)
      ensures forall q :: q in queues ==> CountOk(queues[q])
      ensures forall q :: q in queues && q !in tagList ==> queues[q] == old(queues)[q]
      ensures Remarked(old(queues), queues)
    {
      for i := 0 to |tagList|
        invariant queues.Keys == old(queues).Keys
        invariant forall k :: 0 <= k < i ==> AllShared(queues[tagList[k]], to)
        invariant forall k :: i <= k < |tagList| ==> queues[tagList[k]] == old(queues)[tagList[k]]
        invariant forall q :: q in queues ==> CountOk(queues[q])
        invariant forall q :: q in queues && q !in tagList ==> queues[q] == old(queues)[q]
        invariant Remarked(old(queues), queues)
      {
        var r := Remark(queues[tagList[i]], to);
        RemarkedSet(old(queues), queues, tagList[i], r);
        queues := queues[tagList[i] := r];
      }
    }

    /** Its first half: a set that is about to get its second queue becomes shared. */
    method ShareListed()
      requires Valid()
      modifies `shared, `queues
      ensures (shared <==> tagList != []) && queues.Keys == old(queues).Keys && Remarked(old(queues), queues)
      ensures forall i :: 0 <= i < |tagList| ==> AllShared(queues[tagList[i]], shared)
      ensures forall q :: q in queues ==> CountOk(queues[q])
      ensures forall q :: q in queues && q !in tagList ==> queues[q] == old(queues)[q]
    {
      if tagList != [] && !shared {
        shared := true;
        UpdateListed(true);
      }
    }

    /** blk_mq_add_queue_tag_set, for any queue that is not listed.  Everything is right afterwards
        exactly when, on a set that is now shared, none of its hardware queues was counted, or,
        on an empty set, none of them is marked shared. */
    method AddQueue(id: QueueId, q: Queue)
      requires Valid() && id !in tagList && (id in queues ==> queues[id] == q) && CountOk(q)
      modifies this
      ensures tagList == old(tagList) + [id]
      ensures Valid() <==> if old(tagList) == [] then AllShared(q, false) else NoneCounted(q)
      ensures queues.Keys == old(queues).Keys + {id} && SameRestarts(q, queues[id])
      ensures Remarked(old(queues), queues)
    {
      ShareListed();
      var r := q;
      if shared {
        r := Remark(q, true);
      }
      RemarkedSet(old(queues), queues, id, r);
      queues := queues[id := r];
      tagList := tagList + [id];
      assert tagList[|tagList| - 1] == id;
    }

    /** blk_mq_del_queue_tag_set. */
    method DelQueue(i: nat)
      requires Valid() && i < |tagList|
      modifies this
      ensures Valid() && tagList == old(tagList)[..i] + old(tagList)[i + 1..]
      ensures queues.Keys == old(queues).Keys && queues[old(tagList)[i]] == old(queues)[old(tagList)[i]]
      ensures Remarked(old(queues), queues)
    {
      tagList := tagList[..i] + tagList[i + 1..];
      if |tagList| == 1 {
        shared := false;
        UpdateListed(false);
      }
    }

    /** blk_mq_init_allocated_queue, which alone adds queues: the new queue's `n` hardware queues
        take the set's flags without BLK_MQ_F_TAG_SHARED, and so nothing goes wrong. */
    method InitQueue(id: QueueId, n: nat)
      requires Valid() && id !in queues
      modifies this
      ensures Valid() && tagList == old(tagList) + [id] && queues.Keys == old(queues).Keys + {id}
      ensures |queues[id].hctxs| == n && Remarked(old(queues), queues)
      ensures forall i :: 0 <= i < n ==> queues[id].hctxs[i] == Hctx(shared, false)
    {
      var q := Queue(seq(n, _ => Hctx(false, false)), 0);
      MarkedZero(q.hctxs, n);
      assert id !in tagList;
      AddQueue(id, q);
      assert tagList[|tagList| - 1] == id;
    }

    /** blk_mq_sched_mark_restart_hctx and the clearing half of blk_mq_sched_restart_hctx. */
    method SetRestart(id: QueueId, i: nat, restart: bool)
      requires Valid() && id in queues && i < |queues[id].hctxs|
      modifies `queues
      ensures Valid() && queues.Keys == old(queues).Keys
      ensures queues[id].hctxs == old(queues)[id].hctxs[i := old(queues)[id].hctxs[i].(restart := restart)]
      ensures tagList == old(tagList) && forall k :: k in queues && k != id ==> queues[k] == old(queues)[k]
    {
      var q := queues[id];
      var h := q.hctxs[i];
      if h.restart == restart {
        assert q.hctxs[i := h.(restart := restart)] == q.hctxs;
        return;
      }
      MarkedUpdate(q.hctxs, i, h.(restart := restart), |q.hctxs|);
      var d := if !h.shared then 0 else if restart then 1 else -1;
      queues := queues[id := Queue(q.hctxs[i := h.(restart := restart)], q.restarts + d)];
    }
  }

  /** Two queues are set up, one is marked for restart and then taken off the shared set. */
  method TakenOff() returns (s: Set)
    ensures fresh(s) && s.Valid() && s.tagList == [1] && 0 in s.queues && s.queues[0].hctxs == [Hctx(true, true)]
  {
    s := new Set();
    s.InitQueue(0, 1);
    ghost var before := s.queues;
    s.InitQueue(1, 1);
    RemarkedAt(before, s.queues, 0);
    assert s.tagList[0] == 0;
    s.SetRestart(0, 0, true);
    s.DelQueue(0);
  }

  /** What no caller does: when that queue is added once more, everything it had counted is
      counted twice. */
  method AddedTwice() returns (s: Set)
    ensures fresh(s) && !s.Valid() && s.tagList == [1, 0]
  {
    s := TakenOff();
    assert s.queues[0].hctxs[0] == Hctx(true, true);
    s.AddQueue(0, s.queues[0]);
  }
}
