/** Where requests are, on a multi-queue device without an elevator (block/blk-mq.c:704-770,
    963-1034, 1209-1403, 1648-1784, 1833-2154; block/blk-mq-sched.c:307-393, 562-645).

    Every action is one list operation under its lock, or one call of queue_rq; any number of
    submitting tasks, dispatchers and workers are interleaved. */
module Conservation {
  import opened Common

  type Rq = nat

  /** A list that can hold requests.  `who` is the task or worker whose local list it is. */
  datatype Place =
    | Hand(who: nat)                  // one request that a task is working on
    | Plug(who: nat)                  // plug->mq_list
    | Batch(who: nat)                 // `list` of blk_mq_flush_plug_list
    | Work(who: nat)                  // `rq_list` of blk_mq_requeue_work
    | Group(who: nat, ctx: nat)       // `ctx_list` of blk_mq_flush_plug_list
    | Sw(ctx: nat)                    // ctx->rq_list
    | Dispatch(hctx: nat)             // hctx->dispatch
    | Local(who: nat, hctx: nat)      // `list` of blk_mq_dispatch_rq_list
    | Requeue                         // q->requeue_list
    | Driver

  /** `hw` is the fixed map from software to hardware queues; `ctx` is rq->mq_ctx. */
  datatype State = State(hw: imap<nat, nat>, live: set<Rq>, ctx: map<Rq, nat>, lists: map<Place, seq<Rq>>)

  function At(s: State, p: Place): seq<Rq>
  {
    if p in s.lists then s.lists[p] else []
  }

  /** The list operations. */
  datatype Op =
    | Fresh(rq: Rq, cpu: nat, to: Place)                        // a new request
    | One(from: Place, i: nat, to: Place, head: bool)           // list_del, then list_add or list_add_tail
    | Splice(from: Place, to: Place, head: bool)                // list_splice_init or list_splice_tail_init
    | Sorted(from: Place, to: Place, order: seq<Rq>)            // list_splice_init, then list_sort
    | End(from: Place, i: nat)                                  // blk_mq_end_request

  function Put(l: seq<Rq>, xs: seq<Rq>, head: bool): seq<Rq>
  {
    if head then xs + l else l + xs
  }

  function Without(l: seq<Rq>, i: nat): seq<Rq>
    requires i < |l|
  {
    l[..i] + l[i + 1..]
  }

  predicate Possible(s: State, o: Op)
  {
    match o
    case Fresh(rq, cpu, to) => rq !in s.live
    case One(from, i, to, head) => from != to && i < |At(s, from)|
    case Splice(from, to, head) => from != to
    case Sorted(from, to, order) => from != to && At(s, to) == [] && multiset(order) == multiset(At(s, from))
    case End(from, i) => i < |At(s, from)|
  }

  function Do(s: State, o: Op): State
    requires Possible(s, o)
  {
    match o
    case Fresh(rq, cpu, to) =>
      s.(live := s.live + {rq}, ctx := s.ctx[rq := cpu], lists := s.lists[to := At(s, to) + [rq]])
    case One(from, i, to, head) =>
      s.(lists := s.lists[from := Without(At(s, from), i)][to := Put(At(s, to), [At(s, from)[i]], head)])
    case Splice(from, to, head) =>
      s.(lists := s.lists[from := []][to := Put(At(s, to), At(s, from), head)])
    case Sorted(from, to, order) =>
      s.(lists := s.lists[from := []][to := order])
    case End(from, i) =>
      s.(live := s.live - {At(s, from)[i]}, lists := s.lists[from := Without(At(s, from), i)])
  }

  ghost predicate NoDup(l: seq<Rq>)
  {
    forall i, j :: 0 <= i < j < |l| ==> l[i] != l[j]
  }

  /** Lists hold live requests only, no list holds one twice, no two lists share one. */
  ghost predicate Apart(s: State)
  {
    && (forall p, r :: r in At(s, p) ==> r in s.live)
    && (forall p :: NoDup(At(s, p)))
    && (forall p, q, r :: r in At(s, p) && r in At(s, q) ==> p == q)
  }

  /** Every live request is on some list. */
  ghost predicate Kept(s: State)
  {
    forall r :: r in s.live ==> exists p :: r in At(s, p)
  }

  lemma {:induction false} WithoutMembers(l: seq<Rq>, i: nat)
    requires i < |l| && NoDup(l)
    ensures NoDup(Without(l, i))
    ensures forall r :: r in Without(l, i) <==> r in l && r != l[i]
  {
    var w := Without(l, i);
    forall r | r in l && r != l[i]
      ensures r in w
    {
      var j :| 0 <= j < |l| && l[j] == r;
      assert w[if j < i then j else j - 1] == r;
    }
    forall r | r in w
      ensures r in l && r != l[i]
    {
      var j :| 0 <= j < |w| && w[j] == r;
      assert l[if j < i then j else j + 1] == r;
    }
  }

  lemma {:induction false} PutMembers(l: seq<Rq>, xs: seq<Rq>, head: bool)
    requires NoDup(l) && NoDup(xs) && forall r :: r in l ==> r !in xs
    ensures NoDup(Put(l, xs, head))
    ensures forall r :: r in Put(l, xs, head) <==> r in l || r in xs
  {
    var a, b := if head then xs else l, if head then l else xs;
    forall i, j | 0 <= i < j < |a + b|
      ensures (a + b)[i] != (a + b)[j]
    {
      if i < |a| <= j {
        assert a[i] in a && b[j - |a|] in b;
      }
    }
  }

  lemma {:induction false} SortedMembers(l: seq<Rq>, order: seq<Rq>)
    requires multiset(order) == multiset(l) && NoDup(l)
    ensures NoDup(order)
    ensures forall r :: r in order <==> r in l
  {
    forall r
      ensures r in order <==> r in l
    {
      assert r in order <==> r in multiset(order);
      assert r in l <==> r in multiset(l);
    }
    forall i, j | 0 <= i < j < |order|
      ensures order[i] != order[j]
    {
      if order[i] == order[j] {
        TwiceCounted(order, i, j);
        OnceCounted(l, order[i]);
      }
    }
  }

  lemma {:induction false} TwiceCounted(l: seq<Rq>, i: nat, j: nat)
    requires i < j < |l| && l[i] == l[j]
    ensures multiset(l)[l[i]] >= 2
  {
    assert l == l[..j] + [l[j]] + l[j + 1..];
    assert l[i] in l[..j];
    assert multiset(l) == multiset(l[..j]) + multiset([l[j]]) + multiset(l[j + 1..]);
  }

  lemma {:induction false} OnceCounted(l: seq<Rq>, r: Rq)
    requires NoDup(l)
    ensures multiset(l)[r] <= 1
  {
    if l != [] {
      var k := |l| - 1;
      assert l == l[..k] + [l[k]];
      OnceCounted(l[..k], r);
      assert multiset(l) == multiset(l[..k]) + multiset([l[k]]);
      assert l[k] !in l[..k];
    }
  }

  /** What moving means for membership: `who` leaves `from` and joins `to`. */
  lemma {:induction false} OneMoved(s: State, from: Place, i: nat, to: Place, head: bool)
    requires Apart(s) && from != to && i < |At(s, from)|
    ensures Apart(Do(s, One(from, i, to, head)))
    ensures forall p, r :: r in At(Do(s, One(from, i, to, head)), p) <==>
              if r == At(s, from)[i] then p == to else r in At(s, p)
  {
    var t, x := Do(s, One(from, i, to, head)), At(s, from)[i];
    assert x in At(s, from);
    WithoutMembers(At(s, from), i);
    PutMembers(At(s, to), [x], head);
    forall p, r
      ensures r in At(t, p) <==> if r == x then p == to else r in At(s, p)
    {
      assert p != from && p != to ==> At(t, p) == At(s, p);
    }
    forall p
      ensures NoDup(At(t, p))
    {
      assert p != from && p != to ==> At(t, p) == At(s, p);
    }
  }

  lemma {:induction false} SpliceMoved(s: State, from: Place, to: Place, dest: seq<Rq>)
    requires Apart(s) && from != to && NoDup(dest)
    requires forall r :: r in dest <==> r in At(s, to) || r in At(s, from)
    ensures var t := s.(lists := s.lists[from := []][to := dest]);
            && Apart(t)
            && forall p, r :: r in At(t, p) <==> (p == to && r in At(s, from)) || (p != from && r in At(s, p))
  {
    var t := s.(lists := s.lists[from := []][to := dest]);
    forall p
      ensures NoDup(At(t, p))
      ensures forall r :: r in At(t, p) <==> (p == to && r in At(s, from)) || (p != from && r in At(s, p))
    {
      assert p != from && p != to ==> At(t, p) == At(s, p);
    }
  }

  /** The requests that an operation puts on a list, and that list. */
  ghost predicate Arrives(s: State, o: Op, p: Place, r: Rq)
    requires Possible(s, o)
  {
    match o
    case Fresh(rq, _, to) => p == to && r == rq
    case One(from, i, to, _) => p == to && r == At(s, from)[i]
    case Splice(from, to, _) => p == to && r in At(s, from)
    case Sorted(from, to, _) => p == to && r in At(s, from)
    case End(_, _) => false
  }

  /** The requests that an operation takes off a list. */
  ghost predicate Leaves(s: State, o: Op, p: Place, r: Rq)
    requires Possible(s, o)
  {
    match o
    case Fresh(_, _, _) => false
    case One(from, i, _, _) => p == from && r == At(s, from)[i]
    case Splice(from, _, _) => p == from
    case Sorted(from, _, _) => p == from
    case End(from, i) => p == from && r == At(s, from)[i]
  }

  lemma {:induction false} FreshApart(s: State, rq: Rq, cpu: nat, to: Place)
    requires Apart(s) && Kept(s) && rq !in s.live
    ensures var t := Do(s, Fresh(rq, cpu, to));
            Apart(t) && Kept(t) && forall p, r :: r in At(t, p) <==> r in At(s, p) || (p == to && r == rq)
  {
    var t := Do(s, Fresh(rq, cpu, to));
    PutMembers(At(s, to), [rq], false);
    forall p
      ensures NoDup(At(t, p))
      ensures forall r :: r in At(t, p) <==> r in At(s, p) || (p == to && r == rq)
    {
      assert p != to ==> At(t, p) == At(s, p);
    }
    forall r | r in t.live
      ensures exists p :: r in At(t, p)
    {
      if r == rq {
        assert r in At(t, to);
      } else {
        var p :| r in At(s, p);
        assert r in At(t, p);
      }
    }
  }

  lemma {:induction false} EndApart(s: State, from: Place, i: nat)
    requires Apart(s) && Kept(s) && i < |At(s, from)|
    ensures var t := Do(s, End(from, i));
            Apart(t) && Kept(t) && forall p, r :: r in At(t, p) <==> r in At(s, p) && r != At(s, from)[i]
  {
    var t, x := Do(s, End(from, i)), At(s, from)[i];
    WithoutMembers(At(s, from), i);
    assert x in At(s, from);
    forall p
      ensures NoDup(At(t, p))
      ensures forall r :: r in At(t, p) <==> r in At(s, p) && r != x
    {
      assert p != from ==> At(t, p) == At(s, p);
    }
    forall r | r in t.live
      ensures exists p :: r in At(t, p)
    {
      var p :| r in At(s, p);
      assert r in At(t, p);
    }
  }

  /** No list operation loses, duplicates or resurrects a request: it moves exactly the
      requests that leave and arrive. */
  lemma {:induction false} OpApart(s: State, o: Op)
    requires Apart(s) && Kept(s) && Possible(s, o)
    ensures Apart(Do(s, o)) && Kept(Do(s, o))
    ensures forall p, r :: r in At(Do(s, o), p) <==> (r in At(s, p) && !Leaves(s, o, p, r)) || Arrives(s, o, p, r)
  {
    var t := Do(s, o);
    match o
    case Fresh(rq, cpu, to) => FreshApart(s, rq, cpu, to);
    case End(from, i) => EndApart(s, from, i);
    case One(from, i, to, head) =>
      OneMoved(s, from, i, to, head);
      MovedKept(s, t, from, to);
    case Splice(from, to, head) =>
      PutMembers(At(s, to), At(s, from), head);
      SpliceMoved(s, from, to, Put(At(s, to), At(s, from), head));
      MovedKept(s, t, from, to);
    case Sorted(from, to, order) =>
      SortedMembers(At(s, from), order);
      SpliceMoved(s, from, to, order);
      MovedKept(s, t, from, to);
  }

  lemma {:induction false} MovedKept(s: State, t: State, from: Place, to: Place)
    requires Kept(s) && t.live == s.live
    requires forall p, r :: r in At(s, p) ==> r in At(t, p) || r in At(t, to)
    ensures Kept(t)
  {
    forall r | r in t.live
      ensures exists p :: r in At(t, p)
    {
      var p :| r in At(s, p);
      assert r in At(t, p) || r in At(t, to);
    }
  }

  /** The steps of the block layer. */
  datatype Action =
    | GetRequest(who: nat, rq: Rq, cpu: nat)           // blk_mq_sched_get_request
    | PlugAdd(who: nat)                                // list_add_tail to plug->mq_list
    | TakePlugged(who: nat, i: nat)                    // same_queue_rq leaves plug->mq_list
    | QueueIo(who: nat, head: bool)                    // __blk_mq_insert_request
    | Bypass(who: nat, head: bool)                     // blk_mq_request_bypass_insert, flush requests
    | IssueOk(who: nat) | IssueError(who: nat)         // __blk_mq_issue_directly
    | FlushPlug(who: nat, order: seq<Rq>)              // blk_mq_flush_plug_list: splice and sort
    | TakeNext(who: nat)                               // move one request to ctx_list
    | InsertGroup(who: nat, ctx: nat)                  // blk_mq_insert_requests
    | IssueNext(who: nat, ctx: nat)                    // blk_mq_try_issue_list_directly
    | TakeDispatch(who: nat, hctx: nat)                // blk_mq_sched_dispatch_requests
    | FlushCtx(who: nat, ctx: nat)                     // flush_busy_ctx
    | Dequeue(who: nat, ctx: nat)                      // dispatch_rq_from_ctx
    | DispatchOk(who: nat, hctx: nat)                  // queue_rq accepted the first request
    | DispatchError(who: nat, hctx: nat)               // queue_rq failed it
    | GiveBack(who: nat, hctx: nat)                    // the rest goes to hctx->dispatch
    | RequeueRq(i: nat, head: bool)                    // blk_mq_add_to_requeue_list
    | RequeueWork(who: nat)                            // blk_mq_requeue_work: splice
    | Reinsert(who: nat, i: nat, head: bool, flush: bool)  // blk_mq_sched_insert_request
    | Complete(i: nat)                                 // the driver ends a request

  /** blk_mq_map_queue of the request's software queue. */
  function HwOf(s: State, r: Rq): nat
  {
    if r in s.ctx && s.ctx[r] in s.hw then s.hw[s.ctx[r]] else 0
  }

  function CtxOf(s: State, r: Rq): nat
  {
    if r in s.ctx then s.ctx[r] else 0
  }

  function First(s: State, p: Place): Rq
  {
    if At(s, p) != [] then At(s, p)[0] else 0
  }

  /** The list operation of a step. */
  function OpOf(s: State, a: Action): Op
  {
    match a
    case GetRequest(who, rq, cpu) => Fresh(rq, cpu, Hand(who))
    case PlugAdd(who) => One(Hand(who), 0, Plug(who), false)
    case TakePlugged(who, i) => One(Plug(who), i, Hand(who), false)
    case QueueIo(who, head) => One(Hand(who), 0, Sw(CtxOf(s, First(s, Hand(who)))), head)
    case Bypass(who, head) => One(Hand(who), 0, Dispatch(HwOf(s, First(s, Hand(who)))), head)
    case IssueOk(who) => One(Hand(who), 0, Driver, false)
    case IssueError(who) => End(Hand(who), 0)
    case FlushPlug(who, order) => Sorted(Plug(who), Batch(who), order)
    case TakeNext(who) => One(Batch(who), 0, Group(who, CtxOf(s, First(s, Batch(who)))), false)
    case InsertGroup(who, ctx) => Splice(Group(who, ctx), Sw(ctx), false)
    case IssueNext(who, ctx) => One(Group(who, ctx), 0, Hand(who), false)
    case TakeDispatch(who, hctx) => Splice(Dispatch(hctx), Local(who, hctx), true)
    case FlushCtx(who, ctx) => Splice(Sw(ctx), Local(who, if ctx in s.hw then s.hw[ctx] else 0), false)
    case Dequeue(who, ctx) => One(Sw(ctx), 0, Local(who, if ctx in s.hw then s.hw[ctx] else 0), false)
    case DispatchOk(who, hctx) => One(Local(who, hctx), 0, Driver, false)
    case DispatchError(who, hctx) => End(Local(who, hctx), 0)
    case GiveBack(who, hctx) => Splice(Local(who, hctx), Dispatch(HwOf(s, First(s, Local(who, hctx)))), true)
    case RequeueRq(i, head) => One(Driver, i, Requeue, head)
    case RequeueWork(who) => Splice(Requeue, Work(who), false)
    case Reinsert(who, i, head, flush) =>
      var r := if i < |At(s, Work(who))| then At(s, Work(who))[i] else 0;
      One(Work(who), i, if flush then Dispatch(HwOf(s, r)) else Sw(CtxOf(s, r)), head || flush)
    case Complete(i) => End(Driver, i)
  }

  /** Sorted by software queue. */
  ghost predicate Ordered(s: State, l: seq<Rq>)
  {
    forall i, j :: 0 <= i < j < |l| ==> CtxOf(s, l[i]) <= CtxOf(s, l[j])
  }

  /** When a step may happen, besides its list operation being possible. */
  ghost predicate Guard(s: State, a: Action)
  {
    match a
    case GetRequest(who, _, cpu) => At(s, Hand(who)) == [] && cpu in s.hw
    case TakePlugged(who, _) => At(s, Hand(who)) == []
    case FlushPlug(who, order) => Ordered(s, order)
    case TakeNext(who) =>
      forall c :: c != CtxOf(s, First(s, Batch(who))) ==> At(s, Group(who, c)) == []
    case IssueNext(who, _) => At(s, Hand(who)) == []
    case TakeDispatch(who, hctx) => At(s, Local(who, hctx)) == []
    case _ => true
  }

  ghost predicate Enabled(s: State, a: Action)
  {
    Guard(s, a) && Possible(s, OpOf(s, a))
  }

  ghost function Step(s: State, a: Action): State
    requires Enabled(s, a)
  {
    Do(s, OpOf(s, a))
  }

  /** A request stands on its own software queue, and in lists of its own hardware queue. */
  predicate Home(s: State, p: Place, r: Rq)
  {
    match p
    case Sw(c) => CtxOf(s, r) == c
    case Group(_, c) => CtxOf(s, r) == c
    case Dispatch(h) => HwOf(s, r) == h
    case Local(_, h) => HwOf(s, r) == h
    case _ => true
  }

  ghost predicate AtHome(s: State)
  {
    && (forall p, r :: r in At(s, p) ==> Home(s, p, r))
    && (forall r :: r in s.live ==> r in s.ctx && s.ctx[r] in s.hw)
  }

  ghost predicate Inv(s: State)
  {
    Apart(s) && Kept(s) && AtHome(s) && Narrow(s)
  }

  /** A task works on one request at a time, and collects requests for one software queue. */
  ghost predicate Narrow(s: State)
  {
    && (forall who :: |At(s, Hand(who))| <= 1)
    && (forall who, c, d :: At(s, Group(who, c)) != [] && At(s, Group(who, d)) != [] ==> c == d)
  }

  lemma {:induction false} MapsKept(s: State, a: Action)
    requires Enabled(s, a)
    ensures Step(s, a).hw == s.hw && Step(s, a).live <= s.live + (if a.GetRequest? then {a.rq} else {})
    ensures forall r :: r in s.live ==> CtxOf(Step(s, a), r) == CtxOf(s, r) && HwOf(Step(s, a), r) == HwOf(s, r)
    ensures forall r :: r in s.ctx ==> r in Step(s, a).ctx
  {
  }

  /** Whatever a step puts on a list belongs there. */
  lemma {:induction false} ArrivesHome(s: State, a: Action, p: Place, r: Rq)
    requires Inv(s) && Enabled(s, a) && !a.GetRequest? && Arrives(s, OpOf(s, a), p, r)
    ensures Home(s, p, r) && r in s.live
  {
    assert r in At(s, OpOf(s, a).from);
    match a
    case InsertGroup(who, ctx) => assert Home(s, Group(who, ctx), r);
    case TakeDispatch(who, hctx) => assert Home(s, Dispatch(hctx), r);
    case FlushCtx(who, ctx) => assert Home(s, Sw(ctx), r);
    case Dequeue(who, ctx) => assert r in At(s, Sw(ctx)) && Home(s, Sw(ctx), r);
    case GiveBack(who, hctx) =>
      assert First(s, Local(who, hctx)) in At(s, Local(who, hctx));
      assert Home(s, Local(who, hctx), r) && Home(s, Local(who, hctx), First(s, Local(who, hctx)));
    case _ =>
  }

  /** Only what is put on a list makes it longer. */
  lemma {:induction false} OpLength(s: State, o: Op, p: Place)
    requires Possible(s, o)
    ensures o.End? || o.to != p ==> |At(Do(s, o), p)| <= |At(s, p)|
    ensures o.Fresh? || o.One? ==> |At(Do(s, o), p)| <= |At(s, p)| + 1
    ensures o.Splice? && o.from == p ==> At(Do(s, o), p) == []
  {
  }

  lemma {:induction false} StepHands(s: State, a: Action, who: nat)
    requires |At(s, Hand(who))| <= 1 && Enabled(s, a)
    ensures |At(Step(s, a), Hand(who))| <= 1
  {
    OpLength(s, OpOf(s, a), Hand(who));
  }

  lemma {:induction false} StepGroups(s: State, a: Action, who: nat, c: nat)
    requires Enabled(s, a)
    ensures At(Step(s, a), Group(who, c)) != [] ==>
              || (At(s, Group(who, c)) != [] && a != InsertGroup(who, c))
              || (a == TakeNext(who) && c == CtxOf(s, First(s, Batch(who))))
  {
    OpLength(s, OpOf(s, a), Group(who, c));
  }

  lemma {:induction false} StepNarrow(s: State, a: Action)
    requires Narrow(s) && Enabled(s, a)
    ensures Narrow(Step(s, a))
  {
    var t := Step(s, a);
    forall who
      ensures |At(t, Hand(who))| <= 1
    {
      StepHands(s, a, who);
    }
    forall who, c, d | At(t, Group(who, c)) != [] && At(t, Group(who, d)) != []
      ensures c == d
    {
      StepGroups(s, a, who, c);
      StepGroups(s, a, who, d);
    }
  }

  lemma {:induction false} StepInv(s: State, a: Action)
    requires Inv(s) && Enabled(s, a)
    ensures Inv(Step(s, a))
  {
    var o, t := OpOf(s, a), Step(s, a);
    OpApart(s, o);
    StepNarrow(s, a);
    MapsKept(s, a);
    forall p, r | r in At(t, p)
      ensures Home(t, p, r)
    {
      if !a.GetRequest? && Arrives(s, o, p, r) {
        ArrivesHome(s, a, p, r);
      } else if r in At(s, p) {
        assert Home(s, p, r) && r in s.live;
      }
    }
  }

  ghost predicate Leads(first: State, run: seq<Action>, s: State)
  {
    if run == [] then s == first
    else
      var n := |run| - 1;
      exists before :: Leads(first, run[..n], before) && Enabled(before, run[n]) && s == Step(before, run[n])
  }

  ghost predicate Reachable(s: State)
  {
    exists hw, run :: Leads(State(hw, {}, map[], map[]), run, s)
  }

  lemma {:induction false} LeadsInv(first: State, run: seq<Action>, s: State)
    requires Inv(first) && Leads(first, run, s)
    ensures Inv(s)
  {
    if run != [] {
      var n := |run| - 1;
      var before :| Leads(first, run[..n], before) && Enabled(before, run[n]) && s == Step(before, run[n]);
      LeadsInv(first, run[..n], before);
      StepInv(before, run[n]);
    }
  }

  lemma {:induction false} ReachableInv(s: State)
    requires Reachable(s)
    ensures Inv(s)
  {
    var hw, run :| Leads(State(hw, {}, map[], map[]), run, s);
    LeadsInv(State(hw, {}, map[], map[]), run, s);
  }

  /** Conservation: in every reachable state each live request stands at exactly one position
      of exactly one list, on lists of its own software and hardware queue only, and an ended
      request stands nowhere. */
  lemma {:induction false} ExactlyOnePlace(s: State, r: Rq)
    requires Reachable(s)
    ensures r in s.live <==> exists p, i :: 0 <= i < |At(s, p)| && At(s, p)[i] == r
    ensures forall p, i, q, j :: 0 <= i < |At(s, p)| && 0 <= j < |At(s, q)| && At(s, p)[i] == r == At(s, q)[j]
              ==> p == q && i == j && Home(s, p, r)
  {
    ReachableInv(s);
    if r in s.live {
      var p :| r in At(s, p);
      var i :| 0 <= i < |At(s, p)| && At(s, p)[i] == r;
    }
    forall p, i, q, j | 0 <= i < |At(s, p)| && 0 <= j < |At(s, q)| && At(s, p)[i] == r == At(s, q)[j]
      ensures p == q && i == j && Home(s, p, r)
    {
      assert r in At(s, p) && r in At(s, q);
      assert NoDup(At(s, p));
    }
  }

  /** BUG_ON(rq->mq_ctx != ctx) in blk_mq_insert_requests never fires, and the hardware queue
      that blk_mq_dispatch_rq_list takes from one request is that of all it gives back. */
  lemma {:induction false} ListsUniform(s: State, who: nat, c: nat, h: nat)
    requires Reachable(s)
    ensures forall r :: r in At(s, Group(who, c)) ==> CtxOf(s, r) == c
    ensures forall r :: r in At(s, Local(who, h)) ==> HwOf(s, r) == h
  {
    ReachableInv(s);
    forall r | r in At(s, Group(who, c))
      ensures CtxOf(s, r) == c
    {
      assert Home(s, Group(who, c), r);
    }
    forall r | r in At(s, Local(who, h))
      ensures HwOf(s, r) == h
    {
      assert Home(s, Local(who, h), r);
    }
  }

  /** BUG_ON(blk_queued_rq(rq)) in blk_mq_requeue_request never fires: what the driver gives
      back is on no list. */
  lemma {:induction false} RequeuedOffLists(s: State, i: nat, p: Place)
    requires Reachable(s) && i < |At(s, Driver)| && p != Driver
    ensures At(s, Driver)[i] !in At(s, p)
  {
    ReachableInv(s);
    assert At(s, Driver)[i] in At(s, Driver);
  }

  /** `x` stands before `y`. */
  ghost predicate Before(l: seq<Rq>, x: Rq, y: Rq)
  {
    exists i, j :: 0 <= i < j < |l| && l[i] == x && l[j] == y
  }

  lemma {:induction false} BeforePut(l: seq<Rq>, xs: seq<Rq>, head: bool, x: Rq, y: Rq)
    requires Before(l, x, y) || Before(xs, x, y) || (if head then x in xs && y in l else x in l && y in xs)
    ensures Before(Put(l, xs, head), x, y)
  {
    var a, b := if head then xs else l, if head then l else xs;
    if Before(a, x, y) {
      var i, j :| 0 <= i < j < |a| && a[i] == x && a[j] == y;
      assert (a + b)[i] == x && (a + b)[j] == y;
    } else if Before(b, x, y) {
      var i, j :| 0 <= i < j < |b| && b[i] == x && b[j] == y;
      assert (a + b)[|a| + i] == x && (a + b)[|a| + j] == y;
    } else {
      var i, j :| 0 <= i < |a| && 0 <= j < |b| && a[i] == x && b[j] == y;
      assert (a + b)[i] == x && (a + b)[|a| + j] == y;
    }
  }

  /** Taking the first request away disturbs nobody else. */
  lemma {:induction false} BeforeTail(l: seq<Rq>, x: Rq, y: Rq)
    requires NoDup(l) && Before(l, x, y)
    ensures y != l[0] && (x != l[0] ==> Before(Without(l, 0), x, y))
  {
    var i, j :| 0 <= i < j < |l| && l[i] == x && l[j] == y;
    if i > 0 {
      assert Without(l, 0)[i - 1] == x && Without(l, 0)[j - 1] == y;
    }
  }

  /** Lists that are emptied from the front, or all at once. */
  predicate Queue(p: Place)
  {
    !p.Plug? && !p.Work? && !p.Driver?
  }

  /** Operations that take the first request of `p`, or all of it. */
  predicate TakesFront(o: Op, p: Place)
  {
    !o.Fresh? && o.from == p ==> o.Splice? || (!o.Sorted? && o.i == 0)
  }

  /** Such an operation moves a later request only with all the others. */
  lemma {:induction false} FrontMoves(s: State, o: Op, p: Place, y: Rq)
    requires Apart(s) && Kept(s) && Possible(s, o) && TakesFront(o, p) && y in At(s, p) && y != At(s, p)[0]
    ensures y in Do(s, o).live
    ensures forall q :: q != p && y in At(Do(s, o), q) ==> o.Splice? && o.from == p && o.to == q
  {
    OpApart(s, o);
  }

  /** It keeps the order of the list, and of what it moves. */
  lemma {:induction false} FrontOrder(s: State, o: Op, p: Place, x: Rq, y: Rq)
    requires NoDup(At(s, p)) && Possible(s, o) && TakesFront(o, p) && Before(At(s, p), x, y)
    ensures var t := Do(s, o);
            if o.Splice? && o.from == p then x !in At(t, p) && Before(At(t, o.to), x, y)
            else if !o.Fresh? && o.from == p && x == At(s, p)[0] then x !in At(t, p)
            else Before(At(t, p), x, y)
  {
    match o
    case Fresh(rq, _, to) => if to == p { BeforePut(At(s, p), [rq], false, x, y); }
    case Sorted(_, _, _) =>
    case End(from, _) => if from == p { BeforeTail(At(s, p), x, y); }
    case One(from, i, to, head) =>
      if from == p {
        BeforeTail(At(s, p), x, y);
      } else if to == p {
        BeforePut(At(s, p), [At(s, from)[i]], head, x, y);
      }
    case Splice(from, to, head) =>
      if from == p || to == p {
        BeforePut(At(s, to), At(s, from), head, x, y);
      }
  }

  /** No step lets a request overtake another on a queue: who stands behind `x` stays behind
      it, leaves the list only together with it, and then still follows it. */
  lemma {:induction false} FifoStep(s: State, a: Action, p: Place, x: Rq, y: Rq)
    requires Inv(s) && Enabled(s, a) && Queue(p) && Before(At(s, p), x, y)
    ensures var t := Step(s, a);
            && y in t.live
            && (x in At(t, p) ==> Before(At(t, p), x, y))
            && forall q :: q != p && y in At(t, q) ==> Before(At(t, q), x, y)
  {
    assert NoDup(At(s, p));
    BeforeTail(At(s, p), x, y);
    FrontMoves(s, OpOf(s, a), p, y);
    FrontOrder(s, OpOf(s, a), p, x, y);
  }

  /** The steps that put requests in front of those already there. */
  predicate ToFront(a: Action)
  {
    match a
    case QueueIo(_, head) => head
    case Bypass(_, head) => head
    case GiveBack(_, _) => true
    case RequeueRq(_, head) => head
    case Reinsert(_, _, head, flush) => head || flush
    case _ => false
  }

  lemma {:induction false} ArrivalOp(s: State, o: Op, p: Place, x: Rq, y: Rq)
    requires Apart(s) && Kept(s) && Possible(s, o) && x in At(s, p) && y !in At(s, p)
    requires x in At(Do(s, o), p) && y in At(Do(s, o), p)
    ensures o.Fresh? || o.One? || o.Splice?
    ensures if o.Fresh? || !o.head then Before(At(Do(s, o), p), x, y) else Before(At(Do(s, o), p), y, x)
  {
    OpApart(s, o);
    var xs := if o.Fresh? then [o.rq] else if o.One? then [At(s, o.from)[o.i]] else At(s, o.from);
    if o.Fresh? || !o.head {
      BeforePut(At(s, p), xs, false, x, y);
    } else {
      BeforePut(At(s, p), xs, true, y, x);
    }
  }

  /** Who comes later stands behind, except after a step to the front: what a dispatcher
      gives back is tried again before what has come to hctx->dispatch meanwhile. */
  lemma {:induction false} ArrivalOrder(s: State, a: Action, p: Place, x: Rq, y: Rq)
    requires Inv(s) && Enabled(s, a) && x in At(s, p) && y !in At(s, p)
    requires x in At(Step(s, a), p) && y in At(Step(s, a), p)
    ensures if ToFront(a) then Before(At(Step(s, a), p), y, x) else Before(At(Step(s, a), p), x, y)
  {
    ArrivalOp(s, OpOf(s, a), p, x, y);
    if a.TakeDispatch? {
      OpApart(s, OpOf(s, a));
    }
  }

  /** A run during which `x` stays on `p`. */
  ghost predicate Waits(first: State, run: seq<Action>, s: State, p: Place, x: Rq)
  {
    && x in At(s, p)
    && if run == [] then s == first
       else
         var n := |run| - 1;
         exists before :: Waits(first, run[..n], before, p, x) && Enabled(before, run[n]) && s == Step(before, run[n])
  }

  /** FIFO: as long as a request waits on a queue, those behind it wait behind it. */
  lemma {:induction false} NoOvertaking(first: State, run: seq<Action>, s: State, p: Place, x: Rq, y: Rq)
    requires Inv(first) && Queue(p) && Before(At(first, p), x, y) && Waits(first, run, s, p, x)
    ensures Inv(s) && Before(At(s, p), x, y)
  {
    if run != [] {
      var n := |run| - 1;
      var before :| Waits(first, run[..n], before, p, x) && Enabled(before, run[n]) && s == Step(before, run[n]);
      NoOvertaking(first, run[..n], before, p, x, y);
      FifoStep(before, run[n], p, x, y);
      StepInv(before, run[n]);
    }
  }

  /** How far a list is from the end of a request. */
  function Rank(p: Place): nat
  {
    match p
    case Driver => 0
    case Hand(_) => 1
    case Local(_, _) => 2
    case Sw(_) => 3
    case Dispatch(_) => 3
    case Group(_, _) => 4
    case Work(_) => 4
    case Plug(_) => 6
    case _ => 5
  }

  /** Steps by which the requests there are get on, none of them failing and none taken only while
      another bio is submitted. */
  predicate Serves(a: Action)
  {
    !a.GetRequest? && !a.TakePlugged? && !a.IssueError? && !a.DispatchError?
  }

  ghost predicate Blocked(s: State, who: nat)
  {
    exists c :: c != CtxOf(s, First(s, Batch(who))) && At(s, Group(who, c)) != []
  }

  /** What has to go away before a list can move. */
  ghost function Ahead(s: State, p: Place): nat
  {
    match p
    case Dispatch(h) => |At(s, Local(0, h))|
    case Plug(who) => 2 * |At(s, Batch(who))| + if Blocked(s, who) then 1 else 0
    case Batch(who) => if Blocked(s, who) then 1 else 0
    case _ => 0
  }

  /** The step `a` ends request `i` of list `p`, or takes it to position `j` of `q`, nearer to
      its end, or clears its way. */
  ghost predicate Nearer(s: State, p: Place, i: nat, a: Action, q: Place, j: nat)
    requires i < |At(s, p)|
  {
    && Serves(a) && Enabled(s, a)
    && var t, r := Step(s, a), At(s, p)[i];
    || r !in t.live
    || (j < |At(t, q)| && At(t, q)[j] == r
        && (Rank(q) < Rank(p) || (q == p && (j < i || (j == i && Ahead(t, p) < Ahead(s, p))))))
  }

  lemma {:induction false} HopHeld(s: State, p: Place, i: nat) returns (a: Action, q: Place, j: nat)
    requires Inv(s) && i < |At(s, p)| && (p.Driver? || p.Hand?)
    ensures Nearer(s, p, i, a, q, j)
  {
    a, q, j := Complete(i), p, i;
    if p.Hand? {
      assert |At(s, Hand(p.who))| <= 1;
      a, q, j := IssueOk(p.who), Driver, |At(s, Driver)|;
    }
  }

  lemma {:induction false} HopTaken(s: State, p: Place, i: nat) returns (a: Action, q: Place, j: nat)
    requires Inv(s) && i < |At(s, p)| && (p.Local? || p.Sw?)
    ensures Nearer(s, p, i, a, q, j)
  {
    a := if p.Local? then DispatchOk(p.who, p.hctx) else Dequeue(0, p.ctx);
    q, j := p, if i > 0 then i - 1 else 0;
    if i == 0 {
      q := OpOf(s, a).to;
      j := |At(s, q)|;
    }
  }

  lemma {:induction false} HopDispatch(s: State, h: nat, i: nat) returns (a: Action, q: Place, j: nat)
    requires Inv(s) && i < |At(s, Dispatch(h))|
    ensures Nearer(s, Dispatch(h), i, a, q, j)
  {
    if At(s, Local(0, h)) == [] {
      a, q, j := TakeDispatch(0, h), Local(0, h), i;
    } else {
      a, q, j := DispatchOk(0, h), Dispatch(h), i;
    }
  }

  lemma {:induction false} HopInserted(s: State, p: Place, i: nat) returns (a: Action, q: Place, j: nat)
    requires Inv(s) && i < |At(s, p)| && (p.Group? || p.Work? || p.Requeue?)
    ensures Nearer(s, p, i, a, q, j)
  {
    match p
    case Group(who, c) => a, q, j := InsertGroup(who, c), Sw(c), |At(s, Sw(c))| + i;
    case Work(who) =>
      var c := CtxOf(s, At(s, p)[i]);
      a, q, j := Reinsert(who, i, false, false), Sw(c), |At(s, Sw(c))|;
    case Requeue => a, q, j := RequeueWork(0), Work(0), |At(s, Work(0))| + i;
  }

  /** The plugged requests in the order of their software queues, as list_sort leaves them. */
  function InOrder(s: State, l: seq<Rq>): seq<Rq>
  {
    if l == [] then [] else Placed(s, InOrder(s, l[..|l| - 1]), l[|l| - 1])
  }

  function Placed(s: State, l: seq<Rq>, r: Rq): seq<Rq>
  {
    if l == [] || CtxOf(s, l[|l| - 1]) <= CtxOf(s, r) then l + [r]
    else Placed(s, l[..|l| - 1], r) + [l[|l| - 1]]
  }

  lemma {:induction false} PlacedMembers(s: State, l: seq<Rq>, r: Rq)
    ensures multiset(Placed(s, l, r)) == multiset(l) + multiset{r}
    ensures forall x :: x in Placed(s, l, r) ==> x in l || x == r
  {
    if l != [] && CtxOf(s, l[|l| - 1]) > CtxOf(s, r) {
      var n := |l| - 1;
      PlacedMembers(s, l[..n], r);
      assert l == l[..n] + [l[n]];
    }
  }

  lemma {:induction false} PlacedOrdered(s: State, l: seq<Rq>, r: Rq)
    requires Ordered(s, l)
    ensures Ordered(s, Placed(s, l, r))
  {
    if l != [] && CtxOf(s, l[|l| - 1]) > CtxOf(s, r) {
      var n := |l| - 1;
      var front := Placed(s, l[..n], r);
      PlacedOrdered(s, l[..n], r);
      PlacedMembers(s, l[..n], r);
      forall i | 0 <= i < |front|
        ensures CtxOf(s, front[i]) <= CtxOf(s, l[n])
      {
        assert front[i] in front;
      }
    }
  }

  lemma {:induction false} InOrderOk(s: State, l: seq<Rq>)
    ensures Ordered(s, InOrder(s, l)) && multiset(InOrder(s, l)) == multiset(l)
  {
    if l != [] {
      var n := |l| - 1;
      assert l == l[..n] + [l[n]];
      InOrderOk(s, l[..n]);
      PlacedMembers(s, InOrder(s, l[..n]), l[n]);
      PlacedOrdered(s, InOrder(s, l[..n]), l[n]);
    }
  }

  lemma {:induction false} SortedTo(s: State, l: seq<Rq>, i: nat) returns (order: seq<Rq>, j: nat)
    requires i < |l|
    ensures Ordered(s, order) && multiset(order) == multiset(l) && j < |order| && order[j] == l[i]
  {
    order := InOrder(s, l);
    InOrderOk(s, l);
    assert l[i] in multiset(order) by {
      assert l[i] in multiset(l);
    }
    j :| 0 <= j < |order| && order[j] == l[i];
  }

  /** blk_mq_flush_plug_list takes a plugged request on, once its list of an earlier flush is empty. */
  lemma {:induction false} HopPlugged(s: State, who: nat, i: nat) returns (a: Action, q: Place, j: nat)
    requires Inv(s) && i < |At(s, Plug(who))|
    ensures Nearer(s, Plug(who), i, a, q, j)
  {
    if At(s, Batch(who)) == [] {
      a, q, j := HopFlushed(s, who, i);
    } else {
      q, j := Plug(who), i;
      a := HopCleared(s, who, i);
    }
  }

  lemma {:induction false} HopFlushed(s: State, who: nat, i: nat) returns (a: Action, q: Place, j: nat)
    requires Inv(s) && i < |At(s, Plug(who))| && At(s, Batch(who)) == []
    ensures Nearer(s, Plug(who), i, a, q, j)
  {
    var order;
    order, j := SortedTo(s, At(s, Plug(who)), i);
    a, q := FlushPlug(who, order), Batch(who);
  }

  lemma {:induction false} HopCleared(s: State, who: nat, i: nat) returns (a: Action)
    requires Inv(s) && i < |At(s, Plug(who))| && At(s, Batch(who)) != []
    ensures Nearer(s, Plug(who), i, a, Plug(who), i)
  {
    if Blocked(s, who) {
      var c :| c != CtxOf(s, First(s, Batch(who))) && At(s, Group(who, c)) != [];
      a := InsertGroup(who, c);
      Unblocked(s, who, c);
    } else {
      a := TakeNext(who);
    }
  }

  lemma {:induction false} HopBatched(s: State, who: nat, i: nat) returns (a: Action, q: Place, j: nat)
    requires Inv(s) && i < |At(s, Batch(who))|
    ensures Nearer(s, Batch(who), i, a, q, j)
  {
    if Blocked(s, who) {
      var c :| c != CtxOf(s, First(s, Batch(who))) && At(s, Group(who, c)) != [];
      a, q, j := InsertGroup(who, c), Batch(who), i;
      Unblocked(s, who, c);
    } else {
      a, q, j := TakeNext(who), Batch(who), if i > 0 then i - 1 else 0;
      if i == 0 {
        q := Group(who, CtxOf(s, At(s, Batch(who))[0]));
        j := |At(s, q)|;
      }
    }
  }

  /** From every list some step brings a request nearer to its end. */
  lemma {:induction false} Hop(s: State, p: Place, i: nat) returns (a: Action, q: Place, j: nat)
    requires Inv(s) && i < |At(s, p)|
    ensures Nearer(s, p, i, a, q, j)
  {
    if p.Plug? {
      a, q, j := HopPlugged(s, p.who, i);
    } else if p.Batch? {
      a, q, j := HopBatched(s, p.who, i);
    } else if p.Dispatch? {
      a, q, j := HopDispatch(s, p.hctx, i);
    } else if p.Group? || p.Work? || p.Requeue? {
      a, q, j := HopInserted(s, p, i);
    } else if p.Local? || p.Sw? {
      a, q, j := HopTaken(s, p, i);
    } else {
      a, q, j := HopHeld(s, p, i);
    }
  }

  lemma {:induction false} Unblocked(s: State, who: nat, c: nat)
    requires Inv(s) && At(s, Group(who, c)) != [] && Enabled(s, InsertGroup(who, c))
    ensures !Blocked(Step(s, InsertGroup(who, c)), who)
  {
    var t := Step(s, InsertGroup(who, c));
    forall d
      ensures At(t, Group(who, d)) == []
    {
      assert d != c ==> At(s, Group(who, d)) == [];
    }
  }

  lemma {:induction false} LeadsSnoc(first: State, run: seq<Action>, s: State, a: Action)
    requires Leads(first, run, s) && Enabled(s, a)
    ensures Leads(first, run + [a], Step(s, a))
  {
    assert (run + [a])[..|run|] == run;
  }

  ghost predicate AllServe(run: seq<Action>)
  {
    forall k :: 0 <= k < |run| ==> Serves(run[k])
  }

  /** The invariant, for proofs that only hand it on. */
  ghost predicate Sound(s: State)
  {
    forall open: bool {:trigger Open(open)} :: Open(open) ==> Inv(s)
  }

  lemma {:induction false} SoundHop(s: State, p: Place, i: nat) returns (a: Action, q: Place, j: nat)
    requires Sound(s) && i < |At(s, p)|
    ensures Nearer(s, p, i, a, q, j) && Sound(Step(s, a))
  {
    assert Open(true);
    a, q, j := Hop(s, p, i);
    StepInv(s, a);
  }

  lemma {:induction false} CanEnd(first: State, run: seq<Action>, s: State, p: Place, i: nat)
    requires Leads(first, run, s) && AllServe(run) && Sound(s) && i < |At(s, p)|
    ensures exists run', t :: Leads(first, run', t) && AllServe(run') && At(s, p)[i] !in t.live
    decreases Rank(p), i, Ahead(s, p)
  {
    var a, q, j := SoundHop(s, p, i);
    LeadsSnoc(first, run, s, a);
    if At(s, p)[i] in Step(s, a).live {
      CanEnd(first, run + [a], Step(s, a), q, j);
    }
  }

  /** No request is ever stuck: whatever the tasks and dispatchers are doing, every live request
      can still be brought to its end, without any new request and without any error. */
  lemma {:induction false} NeverStuck(s: State, r: Rq)
    requires Reachable(s) && r in s.live
    ensures exists run, t :: Leads(s, run, t) && AllServe(run) && r !in t.live
  {
    ReachableInv(s);
    var p :| r in At(s, p);
    var i :| 0 <= i < |At(s, p)| && At(s, p)[i] == r;
    assert Leads(s, [], s);
    CanEnd(s, [], s, p, i);
  }
}
