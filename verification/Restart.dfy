/** The RESTART protocol of one hardware queue with unshared tags, neither stopped nor quiesced
    (block/blk-mq.c:45-50, 453-470, 704-745, 1111-1131, 1209-1403; block/blk-mq-sched.c:75-103,
    307-393).

    Any number of dispatchers, completions, inserters and requeue workers are interleaved, each
    action being one access to shared state.  Lists of requests are represented by their lengths. */
module Restart {

  /** What one thread of execution is about to do.  A dispatcher has `n` requests on its own
      list; `tag` and `nxt` say that its first, or second, request holds a driver tag. */
  datatype Agent =
    | Idle
    | Taken(n: nat)                           // took hctx->dispatch, will mark RESTART
    | Trying(n: nat, tag: bool)               // will get a driver tag for its first request
    | NoTag(n: nat)                           // that failed, will mark RESTART
    | Marked(n: nat)                          // will try once more
    | HasTag(n: nat)                          // will look for a tag for the second request
    | Issuing(n: nat, nxt: bool)              // inside queue_rq
    | Refused(n: nat, nxt: bool, dev: bool)   // queue_rq was busy, will give the tags back
    | Failed(n: nat, busy: bool)              // will put its list on hctx->dispatch
    | Spliced(busy: bool)                     // has done so, will look at RESTART
    | PrePut | PreTest | PreClear | PreCheck  // a completion: put tag, test, clear, run
    | PreRun                                  // an inserter that has yet to run the queue
    | Requeuing(n: nat)                       // blk_mq_requeue_work, with `n` requests to insert

  datatype State = State(
    elevator: bool,        // only then are driver tags taken at dispatch
    depth: nat,
    dispatch: nat,         // requests on hctx->dispatch
    queued: nat,           // requests in the scheduler or the software queues
    requeued: nat,         // requests on the requeue list, whose work is scheduled
    restart: bool,
    runPending: bool,      // a queue run is scheduled, perhaps after a delay
    driver: nat,           // requests that the driver has accepted
    agents: seq<Agent>)

  datatype Action =
    | Insert(listed: bool)                // into hctx->dispatch, or the scheduler or a software queue
    | StartRun(pending: bool, n: nat)     // takes `n` queued requests if hctx->dispatch is empty
    | Continue(n: nat)                    // a dispatcher goes on to `n` queued requests
    | Complete
    | GiveBack                            // blk_mq_requeue_request by the driver
    | RequeueWork
    | Act(i: nat, choice: Choice)

  /** What the environment decides: whether a tag is found, what queue_rq returns, and (Ok) that
      a requeued request goes to the scheduler or a software queue. */
  datatype Choice = Get | Fail | Ok | Busy | DevBusy | Error

  function Count(b: bool): nat { if b then 1 else 0 }

  /** Driver tags that an agent holds. */
  function Hold(a: Agent): nat
  {
    match a
    case Trying(_, tag) => Count(tag)
    case HasTag(_) => 1
    case Issuing(_, nxt) => 1 + Count(nxt)
    case Refused(_, nxt, _) => 1 + Count(nxt)
    case PrePut => 1
    case _ => 0
  }

  /** Tags held by a dispatcher that will only give them back and go away. */
  function Stale(a: Agent): nat
  {
    if a.Refused? && a.dev then Hold(a) else 0
  }

  /** What the first `n` agents have together. */
  function Sum(f: Agent -> nat, agents: seq<Agent>, n: nat): nat
    requires n <= |agents|
  {
    if n == 0 then 0 else Sum(f, agents, n - 1) + f(agents[n - 1])
  }

  function Held(agents: seq<Agent>): nat { Sum(Hold, agents, |agents|) }

  function StaleHeld(agents: seq<Agent>): nat { Sum(Stale, agents, |agents|) }

  function Free(s: State): int { s.depth - s.driver - Held(s.agents) }

  predicate EnabledAct(s: State, a: Agent, c: Choice)
  {
    match a
    case Idle => false
    case Trying(_, tag) =>
      if tag || !s.elevator then c == Get else c == if Free(s) > 0 then Get else Fail
    case Marked(_) => c == if Free(s) > 0 then Get else Fail
    case HasTag(n) =>
      || c == Fail
      || (c == Get && n > 1 && (s.elevator ==> Free(s) > 0))
    case Issuing(_, _) =>
      // A driver answers DEV_BUSY only while it has requests that will free its resources.
      c == Ok || c == Busy || c == Error || (c == DevBusy && s.driver > 0)
    case Requeuing(_) => c == Get || c == Ok
    case _ => c == Get
  }

  predicate Enabled(s: State, a: Action)
  {
    match a
    case Insert(_) => true
    case StartRun(pending, n) =>
      (pending ==> s.runPending) && (s.dispatch == 0 && s.queued > 0 ==> 0 < n <= s.queued)
    case Continue(n) => 0 < n <= s.queued
    case Complete => s.driver > 0
    case GiveBack => s.driver > 0
    case RequeueWork => s.requeued > 0
    case Act(i, c) => i < |s.agents| && EnabledAct(s, s.agents[i], c)
  }

  /** The next state of an agent. */
  function Next(s: State, a: Agent, c: Choice): Agent
    requires EnabledAct(s, a, c)
  {
    match a
    case Idle => Idle
    case Taken(n) => Trying(n, false)
    case Trying(n, tag) => if c == Get then HasTag(n) else NoTag(n)
    case NoTag(n) => Marked(n)
    case Marked(n) => if c == Get then HasTag(n) else Failed(n, false)
    case HasTag(n) => Issuing(n, c == Get)
    case Issuing(n, nxt) =>
      if c == Busy || c == DevBusy then Refused(n, nxt, c == DevBusy)
      else if n <= 1 then Idle
      else Trying(n - 1, nxt)
    case Refused(n, nxt, dev) => Failed(n, !dev)
    case Failed(n, busy) => Spliced(busy)
    case Spliced(busy) => if s.restart then Idle else PreCheck
    case PrePut => PreTest
    case PreTest => if s.restart then PreClear else Idle
    case PreClear => PreCheck
    case PreCheck => Idle
    case PreRun => Idle
    case Requeuing(n) => if n <= 1 then PreRun else Requeuing(n - 1)
  }

  /** blk_mq_hctx_has_pending. */
  predicate Waiting(s: State) { s.dispatch > 0 || s.queued > 0 }

  function Step(s: State, a: Action): State
    requires Enabled(s, a)
  {
    match a
    case Insert(listed) =>
      var s' := s.(agents := s.agents + [PreRun]);
      if listed then s'.(dispatch := s.dispatch + 1) else s'.(queued := s.queued + 1)
    case StartRun(pending, n) =>
      var s' := s.(runPending := s.runPending && !pending);
      if s.dispatch > 0 then s'.(dispatch := 0, agents := s.agents + [Taken(s.dispatch)])
      else if s.queued > 0 then s'.(queued := s.queued - n, agents := s.agents + [Trying(n, false)])
      else s'
    case Continue(n) => s.(queued := s.queued - n, agents := s.agents + [Trying(n, false)])
    case GiveBack => s.(driver := s.driver - 1, requeued := s.requeued + 1)
    case RequeueWork => s.(requeued := 0, agents := s.agents + [Requeuing(s.requeued)])
    case Complete => s.(driver := s.driver - 1, agents := s.agents + [PrePut])
    case Act(i, c) =>
      var was := s.agents[i];
      var s' := s.(agents := s.agents[i := Next(s, was, c)]);
      match was
      case Taken(_) => s'.(restart := true)
      case NoTag(_) => s'.(restart := true)
      case Issuing(_, _) =>
        if c == Ok then s'.(driver := s.driver + 1)
        else if c == Error then s'.(agents := s'.agents + [PrePut])
        else s'
      case Failed(n, _) => s'.(dispatch := s.dispatch + n)
      case Spliced(busy) => s'.(runPending := s.runPending || (s.restart && busy))
      case PreClear => s'.(restart := false)
      case PreCheck => s'.(runPending := s.runPending || Waiting(s))
      case PreRun => s'.(runPending := s.runPending || Waiting(s))
      case Requeuing(_) =>
        if c == Get then s'.(dispatch := s.dispatch + 1) else s'.(queued := s.queued + 1)
      case _ => s'
  }

  lemma {:induction false} SumUpdate(f: Agent -> nat, agents: seq<Agent>, i: nat, a: Agent, n: nat)
    requires i < |agents| && n <= |agents|
    ensures Sum(f, agents[i := a], n) == Sum(f, agents, n) + if i < n then f(a) - f(agents[i]) else 0
  {
    if n > 0 {
      SumUpdate(f, agents, i, a, n - 1);
    }
  }

  lemma {:induction false} SumPrefix(f: Agent -> nat, agents: seq<Agent>, a: Agent, n: nat)
    requires n <= |agents|
    ensures Sum(f, agents + [a], n) == Sum(f, agents, n)
  {
    if n > 0 {
      SumPrefix(f, agents, a, n - 1);
    }
  }

  /** What a new agent adds. */
  lemma {:induction false} SumSnoc(f: Agent -> nat, agents: seq<Agent>, a: Agent)
    ensures Sum(f, agents + [a], |agents + [a]|) == Sum(f, agents, |agents|) + f(a)
  {
    SumPrefix(f, agents, a, |agents|);
  }

  lemma {:induction false} StaleBelow(agents: seq<Agent>, n: nat)
    requires n <= |agents|
    ensures Sum(Stale, agents, n) <= Sum(Hold, agents, n)
  {
    if n > 0 {
      StaleBelow(agents, n - 1);
    }
  }

  /** If not every held tag is stale, somebody holds one that is not. */
  lemma {:induction false} LiveHolder(agents: seq<Agent>, n: nat) returns (i: nat)
    requires n <= |agents| && Sum(Stale, agents, n) < Sum(Hold, agents, n)
    ensures i < n && Stale(agents[i]) < Hold(agents[i])
  {
    if Stale(agents[n - 1]) < Hold(agents[n - 1]) {
      i := n - 1;
    } else {
      i := LiveHolder(agents, n - 1);
    }
  }

  /** Lists are not empty while they are worked on. */
  predicate SizeOk(a: Agent)
  {
    match a
    case Taken(n) => n > 0
    case Trying(n, _) => n > 0
    case NoTag(n) => n > 0
    case Marked(n) => n > 0
    case HasTag(n) => n > 0
    case Issuing(n, nxt) => n > Count(nxt)
    case Refused(n, nxt, _) => n > Count(nxt)
    case Failed(n, _) => n > 0
    case Requeuing(n) => n > 0
    case _ => true
  }

  ghost predicate SizesOk(s: State)
  {
    forall i :: 0 <= i < |s.agents| ==>
      SizeOk(s.agents[i]) && (s.agents[i].Marked? || s.agents[i].NoTag? ==> s.elevator)
  }

  ghost predicate TagsOk(s: State)
  {
    s.elevator ==> s.driver + Held(s.agents) <= s.depth && StaleHeld(s.agents) < s.depth
  }

  /** An agent that will, if RESTART is still set, start a run, give the driver a request, or
      clear RESTART and look at the lists; `waiting` says that there is something to run for. */
  predicate Promises(a: Agent, waiting: bool)
  {
    match a
    case Idle => false
    case Refused(_, _, dev) => !dev
    case Failed(_, busy) => busy
    case Spliced(busy) => busy && waiting
    case PreCheck => false
    case PreRun => waiting
    case _ => true
  }

  ghost predicate Promise(s: State)
  {
    || s.driver > 0
    || s.requeued > 0
    || (Waiting(s) && s.runPending)
    || exists i :: 0 <= i < |s.agents| && Promises(s.agents[i], Waiting(s))
  }

  /** A dispatcher that gave up counting on somebody else. */
  predicate GaveUp(a: Agent)
  {
    (a.Refused? && a.dev) || (a.Failed? && !a.busy)
  }

  /** An agent that will run the queue if it finds hctx->dispatch filled. */
  predicate WillLook(a: Agent)
  {
    a.PreCheck? || a.Spliced? || a.PreRun? || a.Requeuing?
  }

  /** Somebody gave up, or something lies on hctx->dispatch. */
  ghost predicate Depends(s: State)
  {
    s.dispatch > 0 || exists i :: 0 <= i < |s.agents| && GaveUp(s.agents[i])
  }

  /** While RESTART is set, whoever gave up and whatever lies on hctx->dispatch can count on
      somebody; while it is clear, somebody will look at hctx->dispatch. */
  ghost predicate CoverOk(s: State)
  {
    && (s.restart && Depends(s) ==> Promise(s))
    && (!s.restart && s.dispatch > 0 ==> s.runPending || exists i :: 0 <= i < |s.agents| && WillLook(s.agents[i]))
  }

  ghost predicate Inv(s: State)
  {
    s.depth >= 1 && SizesOk(s) && TagsOk(s) && CoverOk(s)
  }

  lemma {:induction false} ActAgents(s: State, i: nat, c: Choice)
    requires Enabled(s, Act(i, c))
    ensures var now := s.agents[i := Next(s, s.agents[i], c)];
            Step(s, Act(i, c)).agents == if s.agents[i].Issuing? && c == Error then now + [PrePut] else now
  {
  }

  lemma {:induction false} NextSize(s: State, a: Agent, c: Choice)
    requires EnabledAct(s, a, c) && SizeOk(a) && (a.Marked? || a.NoTag? ==> s.elevator)
    ensures var now := Next(s, a, c);
            SizeOk(now) && (now.Marked? || now.NoTag? ==> s.elevator)
  {
  }

  lemma {:induction false} StepSizes(s: State, a: Action)
    requires Inv(s) && Enabled(s, a)
    ensures SizesOk(Step(s, a))
  {
    if a.Act? {
      ActAgents(s, a.i, a.choice);
      NextSize(s, s.agents[a.i], a.choice);
      assert Step(s, a).elevator == s.elevator;
    }
  }

  /** How an agent's action changes what the agents have together. */
  lemma {:induction false} ActSum(f: Agent -> nat, s: State, i: nat, c: Choice)
    requires Enabled(s, Act(i, c))
    ensures var t, was, now := Step(s, Act(i, c)), s.agents[i], Next(s, s.agents[i], c);
            Sum(f, t.agents, |t.agents|) == Sum(f, s.agents, |s.agents|) - f(was) + f(now)
                                            + if was.Issuing? && c == Error then f(PrePut) else 0
  {
    var now := Next(s, s.agents[i], c);
    ActAgents(s, i, c);
    SumUpdate(f, s.agents, i, now, |s.agents|);
    SumSnoc(f, s.agents[i := now], PrePut);
  }

  /** The change in free driver tags that an agent's action brings. */
  function TagFlow(was: Agent, c: Choice): int
  {
    match was
    case Trying(_, tag) => if c == Get && !tag then -1 else 0
    case Marked(_) => if c == Get then -1 else 0
    case HasTag(_) => if c == Get then -1 else 0
    case Refused(_, nxt, _) => if nxt then 2 else 1
    case PrePut => 1
    case _ => 0
  }

  /** What queue_rq took over, with its tag, or failed. */
  function Passed(was: Agent, c: Choice): nat
  {
    if was.Issuing? && (c == Ok || c == Error) then 1 else 0
  }

  lemma {:induction false} HoldFlow(s: State, was: Agent, c: Choice)
    requires EnabledAct(s, was, c) && SizeOk(was)
    ensures Hold(was) - Hold(Next(s, was, c)) == Passed(was, c) + TagFlow(was, c)
  {
  }

  /** What an agent's action does to the other places of a request. */
  lemma {:induction false} ActLists(s: State, i: nat, c: Choice)
    requires Enabled(s, Act(i, c))
    ensures var t, was := Step(s, Act(i, c)), s.agents[i];
            && t.depth == s.depth
            && t.driver == s.driver + Passed(was, c) - Count(was.Issuing? && c == Error)
            && t.dispatch == s.dispatch + (if was.Failed? then was.n else Count(was.Requeuing? && c == Get))
            && t.queued == s.queued + Count(was.Requeuing? && c == Ok)
            && t.requeued == s.requeued
  {
  }

  lemma {:induction false} StaleFlow(s: State, was: Agent, c: Choice)
    requires EnabledAct(s, was, c)
    ensures Stale(Next(s, was, c)) > Stale(was) ==> s.driver > 0
  {
  }

  lemma {:induction false} TagFound(s: State, was: Agent, c: Choice)
    requires EnabledAct(s, was, c) && s.elevator
    ensures TagFlow(was, c) < 0 ==> Free(s) > 0
  {
  }

  lemma {:induction false} ActTags(s: State, i: nat, c: Choice)
    requires s.depth >= 1 && TagsOk(s) && Enabled(s, Act(i, c)) && SizeOk(s.agents[i])
    ensures TagsOk(Step(s, Act(i, c)))
  {
    ActSum(Hold, s, i, c);
    ActSum(Stale, s, i, c);
    ActLists(s, i, c);
    HoldFlow(s, s.agents[i], c);
    StaleFlow(s, s.agents[i], c);
    if s.elevator {
      TagFound(s, s.agents[i], c);
    }
    var t := Step(s, Act(i, c));
    StaleBelow(t.agents, |t.agents|);
  }

  /** The agent that an action other than an agent's own brings along, if any. */
  function Spawned(s: State, a: Action): Agent
    requires !a.Act?
  {
    match a
    case Insert(_) => PreRun
    case StartRun(_, n) =>
      if s.dispatch > 0 then Taken(s.dispatch) else if s.queued > 0 then Trying(n, false) else Idle
    case Continue(n) => Trying(n, false)
    case Complete => PrePut
    case GiveBack => Idle
    case RequeueWork => Requeuing(s.requeued)
  }

  lemma {:induction false} SpawnSum(f: Agent -> nat, s: State, a: Action)
    requires Enabled(s, a) && !a.Act? && f(Idle) == 0
    ensures var t := Step(s, a);
            Sum(f, t.agents, |t.agents|) == Sum(f, s.agents, |s.agents|) + f(Spawned(s, a))
  {
    SumSnoc(f, s.agents, Spawned(s, a));
  }

  lemma {:induction false} SpawnTags(s: State, a: Action)
    requires TagsOk(s) && Enabled(s, a) && !a.Act?
    ensures TagsOk(Step(s, a))
  {
    SpawnSum(Hold, s, a);
    SpawnSum(Stale, s, a);
  }

  lemma {:induction false} StepTags(s: State, a: Action)
    requires Inv(s) && Enabled(s, a)
    ensures TagsOk(Step(s, a))
  {
    if a.Act? {
      assert SizeOk(s.agents[a.i]);
      ActTags(s, a.i, a.choice);
    } else {
      SpawnTags(s, a);
    }
  }

  /** Failing to get a tag proves that somebody will come back with one. */
  lemma {:induction false} TagFailure(s: State, i: nat)
    requires Inv(s) && s.elevator && i < |s.agents| && s.agents[i].Marked? && Free(s) <= 0
    ensures Promise(Step(s, Act(i, Fail)))
  {
    if s.driver == 0 {
      var j := LiveHolder(s.agents, |s.agents|);
      assert Step(s, Act(i, Fail)).agents[j] == s.agents[j];
    }
  }

  /** An agent that promises something and acts itself. */
  lemma {:induction false} OwnPromiseKept(s: State, i: nat, c: Choice)
    requires Inv(s) && Enabled(s, Act(i, c)) && Promises(s.agents[i], Waiting(s)) && Step(s, Act(i, c)).restart
    ensures Promise(Step(s, Act(i, c)))
  {
    var t := Step(s, Act(i, c));
    assert SizeOk(s.agents[i]);
    if s.agents[i].Marked? && c == Fail {
      TagFailure(s, i);
    }
    assert t.agents[i] == Next(s, s.agents[i], c);
    assert c == Error ==> t.agents[|s.agents|] == PrePut;
  }

  /** Somebody else acts, and there is still something to run for, or a new agent took it. */
  lemma {:induction false} OtherPromiseKept(s: State, a: Action, i: nat)
    requires Inv(s) && Enabled(s, a) && i < |s.agents| && Promises(s.agents[i], Waiting(s)) && !(a.Act? && a.i == i)
    ensures Promise(Step(s, a))
  {
    var t := Step(s, a);
    assert t.agents[i] == s.agents[i];
    if Waiting(s) && !Waiting(t) {
      assert Promises(t.agents[|s.agents|], Waiting(t));
    }
  }

  /** As long as RESTART stays set, promises are kept or passed on. */
  lemma {:induction false} PromiseKept(s: State, a: Action)
    requires Inv(s) && Enabled(s, a) && Promise(s) && Step(s, a).restart
    ensures Promise(Step(s, a))
  {
    var t := Step(s, a);
    if i :| 0 <= i < |s.agents| && Promises(s.agents[i], Waiting(s)) {
      if a.Act? && a.i == i {
        OwnPromiseKept(s, i, a.choice);
      } else {
        OtherPromiseKept(s, a, i);
      }
    } else if a.Complete? || a.RequeueWork? || a.Continue? || (a.StartRun? && Waiting(s)) {
      assert Promises(t.agents[|s.agents|], Waiting(t));
    }
  }

  /** What newly depends on a promise finds one. */
  lemma {:induction false} PromiseMade(s: State, a: Action)
    requires Inv(s) && Enabled(s, a) && !Promise(s) && Step(s, a).restart
    ensures Promise(Step(s, a)) || !Depends(Step(s, a))
  {
    var t := Step(s, a);
    if a.Act? {
      assert !Promises(s.agents[a.i], Waiting(s));
      assert GaveUp(s.agents[a.i]) || !(s.agents[a.i].Failed? || s.agents[a.i].Refused?);
    } else if t.agents != s.agents {
      assert Promises(t.agents[|s.agents|], Waiting(t));
    }
    assert t.dispatch > 0 ==> Promise(t);
    forall i | 0 <= i < |t.agents| && GaveUp(t.agents[i])
      ensures i < |s.agents| && GaveUp(s.agents[i])
    {
    }
  }

  lemma {:induction false} StepCover(s: State, a: Action)
    requires Inv(s) && Enabled(s, a)
    ensures CoverOk(Step(s, a))
  {
    var t := Step(s, a);
    if t.restart {
      if Promise(s) {
        PromiseKept(s, a);
      } else {
        PromiseMade(s, a);
      }
    } else if t.dispatch > 0 {
      LookKept(s, a);
    }
  }

  lemma {:induction false} LookKept(s: State, a: Action)
    requires Inv(s) && Enabled(s, a) && !Step(s, a).restart && Step(s, a).dispatch > 0
    ensures var t := Step(s, a);
            t.runPending || exists i :: 0 <= i < |t.agents| && WillLook(t.agents[i])
  {
    var t := Step(s, a);
    if a.Insert? {
      assert WillLook(t.agents[|s.agents|]);
    } else if a.Act? && WillLook(t.agents[a.i]) {
      assert t.agents[a.i] == Next(s, s.agents[a.i], a.choice);
    } else if !s.runPending {
      var i :| 0 <= i < |s.agents| && WillLook(s.agents[i]);
      assert !(a.Act? && a.i == i) ==> t.agents[i] == s.agents[i];
    }
  }

  lemma {:induction false} StepInv(s: State, a: Action)
    requires Inv(s) && Enabled(s, a)
    ensures Inv(Step(s, a))
  {
    StepSizes(s, a);
    StepTags(s, a);
    StepCover(s, a);
  }

  ghost predicate Leads(first: State, run: seq<Action>, s: State)
  {
    if run == [] then s == first
    else
      var n := |run| - 1;
      exists before :: Leads(first, run[..n], before) && Enabled(before, run[n]) && s == Step(before, run[n])
  }

  function Init(elevator: bool, depth: nat): State
  {
    State(elevator, depth, 0, 0, 0, false, false, 0, [])
  }

  ghost predicate Reachable(s: State)
  {
    exists elevator, depth, run :: depth >= 1 && Leads(Init(elevator, depth), run, s)
  }

  lemma {:induction false} LeadsInv(first: State, run: seq<Action>, s: State)
    requires Inv(first) && Leads(first, run, s)
    ensures Inv(s)
  {
    if run != [] {
      var n := |run| - 1;
      var before :| Leads(first, run[..n], before) && Enabled(before, run[n]) && s == Step(before, run[n]);
      LeadsInv(first, run[..n], before);
      StepInv(before, run[n]);
    }
  }

  lemma {:induction false} ReachableInv(s: State)
    requires Reachable(s)
    ensures Inv(s)
  {
    var elevator, depth, run :| depth >= 1 && Leads(Init(elevator, depth), run, s);
    LeadsInv(Init(elevator, depth), run, s);
  }

  /** No stranded work: requests on hctx->dispatch always have RESTART set, a run scheduled, or
      an agent between its update and its look at the list. */
  lemma {:induction false} NothingStranded(s: State)
    requires Reachable(s) && s.dispatch > 0
    ensures s.restart || s.runPending || exists i :: 0 <= i < |s.agents| && WillLook(s.agents[i])
  {
    ReachableInv(s);
  }

  ghost predicate AllIdle(s: State)
  {
    forall i :: 0 <= i < |s.agents| ==> s.agents[i] == Idle
  }

  ghost predicate Quiet(s: State) { !s.runPending && AllIdle(s) }

  /** And when everything has come to rest, RESTART is not only set: the driver has a request
      whose completion will find it, or has given one back whose work will run the queue. */
  lemma {:induction false} SomebodyWillCome(s: State)
    requires Reachable(s) && s.dispatch > 0 && Quiet(s)
    ensures s.restart && (s.driver > 0 || s.requeued > 0)
  {
    ReachableInv(s);
    AtRest(s);
  }

  lemma {:induction false} AtRest(s: State)
    requires Inv(s) && s.dispatch > 0 && Quiet(s)
    ensures s.restart && (s.driver > 0 || s.requeued > 0)
  {
  }

  /** What happens without anybody's help: agents act, the driver completes requests, and what is
      scheduled starts. */
  predicate Due(a: Action)
  {
    a.Act? || a.Complete? || a.RequeueWork? || (a.StartRun? && a.pending)
  }

  ghost predicate Unaided(run: seq<Action>)
  {
    forall k :: 0 <= k < |run| ==> Due(run[k])
  }

  lemma {:induction false} LeadsSnoc(first: State, run: seq<Action>, s: State, a: Action)
    requires Leads(first, run, s) && Enabled(s, a)
    ensures Leads(first, run + [a], Step(s, a))
    ensures Unaided(run) && Due(a) ==> Unaided(run + [a])
  {
    assert (run + [a])[..|run|] == run;
  }

  /** The last agent of a state carries on. */
  lemma {:induction false} LastActs(first: State, run: seq<Action>, s: State, n: nat)
    requires Leads(first, run, s) && |s.agents| == n + 1
    requires var a := s.agents[n]; a.PrePut? || a.PreClear? || a.PreCheck? || (a.PreTest? && s.restart)
    ensures Enabled(s, Act(n, Get)) && Leads(first, run + [Act(n, Get)], Step(s, Act(n, Get)))
    ensures Unaided(run) ==> Unaided(run + [Act(n, Get)])
    ensures var t, now := Step(s, Act(n, Get)), Next(s, s.agents[n], Get);
            |t.agents| == n + 1 && t.agents[n] == now && t.dispatch == s.dispatch
            && (s.agents[n].PreCheck? && s.dispatch > 0 ==> t.runPending)
            && (!s.agents[n].PreClear? ==> t.restart == s.restart)
  {
    LeadsSnoc(first, run, s, Act(n, Get));
  }

  /** A completion that finds RESTART set schedules a run. */
  lemma {:induction false} PutRestarts(first: State, run: seq<Action>, s: State, n: nat)
    returns (run': seq<Action>, t: State)
    requires Leads(first, run, s) && |s.agents| == n + 1 && s.agents[n].PrePut? && s.restart && s.dispatch > 0
    requires Unaided(run)
    ensures Leads(first, run', t) && Unaided(run') && t.runPending && t.dispatch == s.dispatch
  {
    LastActs(first, run, s, n);
    var s1, r1 := Step(s, Act(n, Get)), run + [Act(n, Get)];
    LastActs(first, r1, s1, n);
    var s2, r2 := Step(s1, Act(n, Get)), r1 + [Act(n, Get)];
    LastActs(first, r2, s2, n);
    var s3, r3 := Step(s2, Act(n, Get)), r2 + [Act(n, Get)];
    LastActs(first, r3, s3, n);
    run', t := r3 + [Act(n, Get)], Step(s3, Act(n, Get));
  }

  /** That completion leads to a scheduled run. */
  lemma {:induction false} CompletionRuns(first: State, run: seq<Action>, s: State)
    returns (run': seq<Action>, t: State)
    requires Leads(first, run, s) && Unaided(run) && s.dispatch > 0 && s.restart && s.driver > 0
    ensures Leads(first, run', t) && Unaided(run') && t.runPending && t.dispatch == s.dispatch
  {
    LeadsSnoc(first, run, s, Complete);
    run', t := PutRestarts(first, run + [Complete], Step(s, Complete), |s.agents|);
  }

  /** A scheduled run takes all of hctx->dispatch. */
  lemma {:induction false} RunTakesAll(first: State, run: seq<Action>, s: State) returns (run': seq<Action>, t: State)
    requires Leads(first, run, s) && Unaided(run) && s.dispatch > 0 && s.runPending
    ensures Leads(first, run', t) && Unaided(run')
    ensures t == s.(dispatch := 0, runPending := false, agents := s.agents + [Taken(s.dispatch)])
  {
    LeadsSnoc(first, run, s, StartRun(true, 0));
    run', t := run + [StartRun(true, 0)], Step(s, StartRun(true, 0));
  }

  /** Driver tags are conserved: a tag passes from the dispatcher to the driver and from the
      driver to the completion; it is taken only where one is looked for, and comes back only
      from a completion, a refused dispatcher or a driver that gives the request back. */
  lemma {:induction false} TagsConserved(s: State, a: Action)
    requires Inv(s) && Enabled(s, a)
    ensures Free(Step(s, a)) == Free(s) + if a.Act? then TagFlow(s.agents[a.i], a.choice) else Count(a.GiveBack?)
  {
    if a.Act? {
      ActSum(Hold, s, a.i, a.choice);
      ActLists(s, a.i, a.choice);
      HoldFlow(s, s.agents[a.i], a.choice);
    } else {
      SpawnSum(Hold, s, a);
    }
  }

  /** Requests on an agent's own list. */
  function Carried(a: Agent): nat
  {
    match a
    case Taken(n) => n
    case Trying(n, _) => n
    case NoTag(n) => n
    case Marked(n) => n
    case HasTag(n) => n
    case Issuing(n, _) => n
    case Refused(n, _, _) => n
    case Failed(n, _) => n
    case Requeuing(n) => n
    case _ => 0
  }

  lemma {:induction false} CarriedFlow(s: State, was: Agent, c: Choice)
    requires EnabledAct(s, was, c) && SizeOk(was)
    ensures Carried(was) - Carried(Next(s, was, c))
            == Passed(was, c) + if was.Failed? then was.n else Count(was.Requeuing?)
  {
  }

  function Requests(s: State): nat
  {
    s.dispatch + s.queued + s.requeued + s.driver + Sum(Carried, s.agents, |s.agents|)
  }

  /** Requests are conserved: they come in through an insertion only, and go out through a
      completion or an error of queue_rq. */
  lemma {:induction false} RequestsConserved(s: State, a: Action)
    requires Inv(s) && Enabled(s, a)
    ensures Requests(Step(s, a)) == Requests(s) +
              match a
              case Insert(_) => 1
              case Complete => -1
              case Act(i, c) => if s.agents[i].Issuing? && c == Error then -1 else 0
              case _ => 0
  {
    if a.Act? {
      ActSum(Carried, s, a.i, a.choice);
      ActLists(s, a.i, a.choice);
      CarriedFlow(s, s.agents[a.i], a.choice);
    } else {
      SpawnSum(Carried, s, a);
    }
  }

  /** A bound on the actions that an agent, with the completions of failed requests, has to go. */
  function Work(a: Agent): nat
  {
    match a
    case Idle => 0
    case Taken(n) => 10 * n + 6
    case Trying(n, _) => 10 * n + 5
    case NoTag(n) => 10 * n + 4
    case Marked(n) => 10 * n + 3
    case HasTag(n) => 10 * n + 2
    case Issuing(n, _) => 10 * n + 1
    case Refused(_, _, _) => 4
    case Failed(_, _) => 3
    case Spliced(_) => 2
    case PrePut => 4
    case PreTest => 3
    case PreClear => 2
    case PreCheck => 1
    case PreRun => 1
    case Requeuing(n) => n + 1
  }

  function TotalWork(s: State): nat { Sum(Work, s.agents, |s.agents|) }

  lemma {:induction false} WorkFlow(s: State, was: Agent, c: Choice)
    requires EnabledAct(s, was, c) && SizeOk(was)
    ensures Work(Next(s, was, c)) + (if was.Issuing? && c == Error then Work(PrePut) else 0) < Work(was)
  {
  }

  lemma {:induction false} WorkShrinks(s: State, i: nat, c: Choice)
    requires Inv(s) && Enabled(s, Act(i, c))
    ensures TotalWork(Step(s, Act(i, c))) < TotalWork(s)
  {
    ActSum(Work, s, i, c);
    WorkFlow(s, s.agents[i], c);
  }

  /** No agent loops or waits for another: left to themselves the agents take a bounded number
      of actions ... */
  lemma {:induction false} AgentsFinish(first: State, run: seq<Action>, s: State)
    requires Inv(first) && Leads(first, run, s) && forall k :: 0 <= k < |run| ==> run[k].Act?
    ensures |run| + TotalWork(s) <= TotalWork(first)
  {
    if run != [] {
      var n := |run| - 1;
      var before :| Leads(first, run[..n], before) && Enabled(before, run[n]) && s == Step(before, run[n]);
      AgentsFinish(first, run[..n], before);
      LeadsInv(first, run[..n], before);
      WorkShrinks(before, run[n].i, run[n].choice);
    }
  }

  /** ... and as long as one of them is not done, it can act. */
  lemma {:induction false} NoAgentStuck(s: State, i: nat)
    requires i < |s.agents|
    ensures s.agents[i] != Idle <==> exists c :: Enabled(s, Act(i, c))
  {
    assert s.agents[i] != Idle ==> Enabled(s, Act(i, Get)) || Enabled(s, Act(i, Fail)) || Enabled(s, Act(i, Ok));
  }

  /** Left to themselves the agents come to rest, taking nothing off hctx->dispatch. */
  lemma {:induction false} ComeToRest(first: State, run: seq<Action>, s: State) returns (run': seq<Action>, t: State)
    requires Leads(first, run, s) && Unaided(run) && Inv(s)
    ensures Leads(first, run', t) && Unaided(run') && Inv(t) && t.dispatch >= s.dispatch && t.requeued == s.requeued
    ensures AllIdle(t)
    decreases TotalWork(s)
  {
    if i :| 0 <= i < |s.agents| && s.agents[i] != Idle {
      NoAgentStuck(s, i);
      var c :| Enabled(s, Act(i, c));
      LeadsSnoc(first, run, s, Act(i, c));
      StepInv(s, Act(i, c));
      WorkShrinks(s, i, c);
      ActLists(s, i, c);
      run', t := ComeToRest(first, run + [Act(i, c)], Step(s, Act(i, c)));
    } else {
      run', t := run, s;
    }
  }

  /** They do so after the requeue work as well. */
  lemma {:induction false} WorkRests(first: State, run: seq<Action>, s: State) returns (run': seq<Action>, t: State)
    requires Leads(first, run, s) && Unaided(run) && Inv(s) && s.requeued > 0
    ensures Leads(first, run', t) && Unaided(run') && Inv(t)
    ensures t.dispatch >= s.dispatch && t.requeued == 0 && AllIdle(t)
  {
    LeadsSnoc(first, run, s, RequeueWork);
    StepInv(s, RequeueWork);
    run', t := ComeToRest(first, run + [RequeueWork], Step(s, RequeueWork));
  }

  /** If nothing is scheduled then, a completion will see to it. */
  lemma {:induction false} Rouse(first: State, run: seq<Action>, s: State) returns (run': seq<Action>, t: State)
    requires Leads(first, run, s) && Unaided(run) && Inv(s) && s.dispatch > 0 && s.requeued == 0 && AllIdle(s)
    ensures Leads(first, run', t) && Unaided(run') && t.runPending && t.dispatch == s.dispatch
  {
    run', t := run, s;
    if !s.runPending {
      AtRest(s);
      run', t := CompletionRuns(first, run, s);
    }
  }

  /** Progress: from every reachable state, without any new request or any run that is not
      scheduled, what is already promised suffices for a dispatcher to take all that lies on
      hctx->dispatch. */
  lemma {:induction false} WorkIsTaken(s: State)
    requires Reachable(s) && s.dispatch > 0
    ensures exists run, t :: Leads(s, run, t) && Unaided(run) && t.dispatch == 0 && t.agents != []
                             && t.agents[|t.agents| - 1].Taken? && t.agents[|t.agents| - 1].n >= s.dispatch
  {
    ReachableInv(s);
    assert Leads(s, [], s);
    var run, t := ComeToRest(s, [], s);
    if t.requeued > 0 {
      run, t := WorkRests(s, run, t);
    }
    run, t := Rouse(s, run, t);
    run, t := RunTakesAll(s, run, t);
  }

  /** An action that clears RESTART. */
  predicate Clears(s: State, a: Action)
  {
    a.Act? && a.i < |s.agents| && s.agents[a.i].PreClear?
  }

  /** A run of any agents during which nobody clears RESTART. */
  ghost predicate Uncleared(first: State, run: seq<Action>, s: State)
  {
    if run == [] then s == first
    else
      var n := |run| - 1;
      exists before :: Uncleared(first, run[..n], before) && Enabled(before, run[n])
                       && !Clears(before, run[n]) && s == Step(before, run[n])
  }

  lemma {:induction false} MarkKept(s: State, a: Action)
    requires Enabled(s, a) && s.restart && !Clears(s, a)
    ensures Step(s, a).restart
  {
  }

  lemma {:induction false} StaysMarked(first: State, run: seq<Action>, s: State)
    requires first.restart && Uncleared(first, run, s)
    ensures s.restart
  {
    if run != [] {
      var n := |run| - 1;
      var before :| Uncleared(first, run[..n], before) && Enabled(before, run[n])
                    && !Clears(before, run[n]) && s == Step(before, run[n]);
      StaysMarked(first, run[..n], before);
      MarkKept(before, run[n]);
    }
  }

  lemma {:induction false} Unmoved(s: State, i: nat, c: Choice)
    requires s.restart && Enabled(s, Act(i, c)) && s.agents[i] == Spliced(false)
    ensures Step(s, Act(i, c)) == s.(agents := s.agents[i := Idle])
  {
  }

  /** A dispatcher that marks RESTART, because it took hctx->dispatch or found no tag, and in the
      end gives up counting on the mark, schedules no run when it looks, whatever everybody else
      does meanwhile, unless somebody has cleared the mark. */
  lemma {:induction false} TagWaiterSleeps(first: State, run: seq<Action>, s: State, i: nat, c: Choice)
    requires i < |first.agents| && (first.agents[i].NoTag? || first.agents[i].Taken?)
    requires Uncleared(Step(first, Act(i, Get)), run, s)
    requires Enabled(s, Act(i, c)) && s.agents[i] == Spliced(false)
    ensures Step(s, Act(i, c)) == s.(agents := s.agents[i := Idle])
  {
    StaysMarked(Step(first, Act(i, Get)), run, s);
    Unmoved(s, i, c);
  }

  /** How far a refused dispatcher can have got. */
  predicate Follows(a: Agent, n: nat, nxt: bool, dev: bool)
  {
    a == Refused(n, nxt, dev) || a == Failed(n, !dev) || a == Spliced(!dev) || a == PreCheck || a == Idle
  }

  lemma {:induction false} RefusalStep(s: State, a: Action, i: nat, n: nat, nxt: bool, dev: bool)
    requires Enabled(s, a) && i < |s.agents| && Follows(s.agents[i], n, nxt, dev)
    ensures i < |Step(s, a).agents| && Follows(Step(s, a).agents[i], n, nxt, dev)
  {
  }

  /** Whatever happens, a dispatcher remembers how it was refused. */
  lemma {:induction false} RefusalCarried(first: State, run: seq<Action>, s: State, i: nat, n: nat,
                                          nxt: bool, dev: bool)
    requires i < |first.agents| && Follows(first.agents[i], n, nxt, dev) && Leads(first, run, s)
    ensures i < |s.agents| && Follows(s.agents[i], n, nxt, dev)
  {
    if run != [] {
      var k := |run| - 1;
      var before :| Leads(first, run[..k], before) && Enabled(before, run[k]) && s == Step(before, run[k]);
      RefusalCarried(first, run[..k], before, i, n, nxt, dev);
      RefusalStep(before, run[k], i, n, nxt, dev);
    }
  }

  /** A dispatcher whose second attempt at a tag fails gives up counting on the mark. */
  lemma {:induction false} TagLoserCounts(first: State, run: seq<Action>, s: State, i: nat)
    requires i < |first.agents| && first.agents[i].Marked? && Enabled(first, Act(i, Fail))
    requires Leads(Step(first, Act(i, Fail)), run, s)
    ensures i < |s.agents| && (s.agents[i].Spliced? ==> !s.agents[i].busy)
  {
    RefusalCarried(Step(first, Act(i, Fail)), run, s, i, first.agents[i].n, false, true);
  }

  /** When a dispatcher whose driver was short of resources is done, whatever everybody else has
      done since, a run is scheduled, or others have taken all that lay on hctx->dispatch. */
  lemma {:induction false} BusyRunsAgain(first: State, run: seq<Action>, s: State, i: nat, c: Choice)
    requires i < |first.agents| && first.agents[i].Refused? && !first.agents[i].dev && Leads(first, run, s)
    requires Enabled(s, Act(i, c)) && Step(s, Act(i, c)).agents[i] == Idle
    ensures Step(s, Act(i, c)).runPending || s.dispatch == 0
  {
    RefusalCarried(first, run, s, i, first.agents[i].n, first.agents[i].nxt, first.agents[i].dev);
  }

  lemma {:induction false} UnclearedLeads(first: State, run: seq<Action>, s: State)
    requires Uncleared(first, run, s)
    ensures Leads(first, run, s)
  {
    if run != [] {
      var n := |run| - 1;
      var before :| Uncleared(first, run[..n], before) && Enabled(before, run[n])
                    && !Clears(before, run[n]) && s == Step(before, run[n]);
      UnclearedLeads(first, run[..n], before);
    }
  }

  /** One told that the device is busy counts on the mark instead: unless somebody has cleared it,
      its look schedules nothing. */
  lemma {:induction false} DeviceWaiterSleeps(first: State, run: seq<Action>, s: State, i: nat, c: Choice)
    requires i < |first.agents| && first.agents[i].Refused? && first.agents[i].dev
    requires first.restart && Uncleared(first, run, s)
    requires Enabled(s, Act(i, c)) && s.agents[i].Spliced?
    ensures Step(s, Act(i, c)) == s.(agents := s.agents[i := Idle])
  {
    UnclearedLeads(first, run, s);
    RefusalCarried(first, run, s, i, first.agents[i].n, first.agents[i].nxt, first.agents[i].dev);
    StaysMarked(first, run, s);
    Unmoved(s, i, c);
  }
}
