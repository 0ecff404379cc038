/** The association of io_contexts with request queues through io_cqs
    (block/blk-ioc.c:40-232 and 317-399).

    Each action is what one holder of locks does to shared state in one go.  The lookup hint
    is the only thing touched without the io_context's lock, so setting it and the two halves
    of clearing it are actions of their own. */
module IoContext {
  import opened Common

  type Ioc = nat
  type Queue = nat
  type IcqId = nat

  /** `exits` counts calls of the elevator's exit callback; `exited` is ICQ_EXITED. */
  datatype Icq = Icq(ioc: Ioc, q: Queue, exited: bool, exits: nat, freed: bool)

  /** What the holder of a queue lock is in the middle of. */
  datatype Op =
    | Setting(id: IcqId)               // ioc_lookup_icq found it in the tree, will set the hint
    | Unlinked(id: IcqId)              // ioc_destroy_icq took it off, will look at the hint
    | HintSeen(id: IcqId, ours: bool)  // has looked, will clear the hint if it was its own
    | HintDone(id: IcqId)              // will call ioc_exit_icq and free it

  /** An io_context: referenced, with its last reference just gone, waiting for the release
      work, or freed. */
  datatype Phase = Live | Dying | Releasing | Freed

  datatype State = State(
    icqs: map<IcqId, Icq>,             // every icq ever linked
    tree: map<(Ioc, Queue), IcqId>,    // ioc->icq_tree, by queue id
    onIoc: set<IcqId>,                 // on ioc->icq_list
    onQueue: set<IcqId>,               // on q->icq_list
    hint: map<Ioc, IcqId>,             // ioc->icq_hint; absent is NULL
    ops: map<Queue, Op>,               // queue locks held across actions
    locked: set<Ioc>,                  // io_context locks held across actions
    walks: map<Ioc, set<IcqId>>,       // passes of put_io_context_active, with what is still ahead
    refs: map<Ioc, nat>,
    phase: map<Ioc, Phase>)

  datatype Action =
    | NewIoc(ioc: Ioc)
    | GetRef(ioc: Ioc)
    | PutRef(ioc: Ioc)                           // put_io_context
    | LastPut(ioc: Ioc)                          // its section under the lock
    | ReleaseDone(ioc: Ioc)                      // the end of ioc_release_fn
    | LookupHint(ioc: Ioc, q: Queue)             // the hint is the queue's icq
    | LookupTree(ioc: Ioc, q: Queue)             // it is not
    | SetHint(q: Queue)
    | Create(ioc: Ioc, q: Queue, id: IcqId)      // ioc_create_icq, linking
    | CreateFound(ioc: Ioc, q: Queue)            // ioc_create_icq, losing to another
    | Unlink(id: IcqId)                          // ioc_destroy_icq
    | LookAtHint(q: Queue) | ClearHint(q: Queue)
    | Destroy(q: Queue)                          // its end: ioc_exit_icq and call_rcu
    | WalkBegin(ioc: Ioc)                        // put_io_context_active: lock, go to the head
    | ExitActive(id: IcqId)                      // look at one icq, exit it if need be
    | WalkRetry(ioc: Ioc, id: IcqId)             // its queue is locked: unlock, start again
    | WalkEnd(ioc: Ioc)                          // the end of the list: unlock

  predicate QueueFree(s: State, q: Queue) { q !in s.ops }

  predicate Alive(s: State, ioc: Ioc)
  {
    ioc in s.phase && s.phase[ioc] == Live && ioc in s.refs
  }

  /** The hint of an io_context is this queue's icq. */
  predicate Hits(s: State, ioc: Ioc, q: Queue)
  {
    ioc in s.hint && s.hint[ioc] in s.icqs && s.icqs[s.hint[ioc]].q == q
  }

  /** Somebody is looking up an icq of this io_context, under the lock of `q`. */
  predicate LooksUp(s: State, q: Queue, ioc: Ioc)
  {
    q in s.ops && s.ops[q].Setting? && s.ops[q].id in s.icqs && s.icqs[s.ops[q].id].ioc == ioc
  }

  predicate Enabled(s: State, a: Action)
  {
    match a
    case NewIoc(ioc) => ioc !in s.phase
    case GetRef(ioc) => Alive(s, ioc)
    case PutRef(ioc) =>
      // Whoever is looking something up, or walking, holds a reference of its own.
      Alive(s, ioc) && s.refs[ioc] > 0
      && (s.refs[ioc] > 1 || (ioc !in s.walks && forall q :: q in s.ops ==> !LooksUp(s, q, ioc)))
    case LastPut(ioc) => ioc in s.phase && s.phase[ioc] == Dying && ioc !in s.locked
    case ReleaseDone(ioc) =>
      ioc in s.phase && s.phase[ioc] == Releasing && ioc !in s.locked
      && forall id :: id in s.onIoc && id in s.icqs ==> s.icqs[id].ioc != ioc
    case LookupHint(ioc, q) => QueueFree(s, q) && Alive(s, ioc) && Hits(s, ioc, q)
    case LookupTree(ioc, q) => QueueFree(s, q) && Alive(s, ioc) && !Hits(s, ioc, q) && (ioc, q) in s.tree
    case SetHint(q) => q in s.ops && s.ops[q].Setting? && s.ops[q].id in s.icqs
    case Create(ioc, q, id) =>
      QueueFree(s, q) && ioc !in s.locked && Alive(s, ioc) && (ioc, q) !in s.tree && id !in s.icqs
    case CreateFound(ioc, q) => QueueFree(s, q) && ioc !in s.locked && Alive(s, ioc) && (ioc, q) in s.tree
    case Unlink(id) =>
      id in s.icqs && id in s.onIoc && QueueFree(s, s.icqs[id].q) && s.icqs[id].ioc !in s.locked
    case LookAtHint(q) => q in s.ops && s.ops[q].Unlinked? && s.ops[q].id in s.icqs
    case ClearHint(q) => q in s.ops && s.ops[q].HintSeen? && s.ops[q].id in s.icqs
    case Destroy(q) => q in s.ops && s.ops[q].HintDone? && s.ops[q].id in s.icqs
    case WalkBegin(ioc) => Alive(s, ioc) && ioc !in s.locked
    case ExitActive(id) =>
      id in s.icqs && s.icqs[id].ioc in s.walks && id in s.walks[s.icqs[id].ioc]
      && (s.icqs[id].exited || QueueFree(s, s.icqs[id].q))
    case WalkRetry(ioc, id) =>
      ioc in s.walks && id in s.walks[ioc] && id in s.icqs && !s.icqs[id].exited && !QueueFree(s, s.icqs[id].q)
    case WalkEnd(ioc) => ioc in s.walks && s.walks[ioc] == {}
  }

  /** ioc_exit_icq. */
  function Exit(c: Icq): Icq
  {
    if c.exited then c else c.(exited := true, exits := c.exits + 1)
  }

  function Step(s: State, a: Action): State
    requires Enabled(s, a)
  {
    match a
    case NewIoc(ioc) => s.(refs := s.refs[ioc := 1], phase := s.phase[ioc := Live])
    case GetRef(ioc) => s.(refs := s.refs[ioc := s.refs[ioc] + 1])
    case PutRef(ioc) =>
      s.(refs := s.refs[ioc := s.refs[ioc] - 1],
         phase := if s.refs[ioc] == 1 then s.phase[ioc := Dying] else s.phase)
    case LastPut(ioc) =>
      s.(phase := s.phase[ioc :=
        if exists id :: id in s.onIoc && id in s.icqs && s.icqs[id].ioc == ioc then Releasing else Freed])
    case ReleaseDone(ioc) => s.(phase := s.phase[ioc := Freed])
    case LookupHint(_, _) => s
    case LookupTree(ioc, q) => s.(ops := s.ops[q := Setting(s.tree[(ioc, q)])])
    case SetHint(q) => s.(hint := s.hint[s.icqs[s.ops[q].id].ioc := s.ops[q].id], ops := s.ops - {q})
    case Create(ioc, q, id) =>
      s.(icqs := s.icqs[id := Icq(ioc, q, false, 0, false)], tree := s.tree[(ioc, q) := id],
         onIoc := s.onIoc + {id}, onQueue := s.onQueue + {id})
    case CreateFound(ioc, q) =>
      if Hits(s, ioc, q) then s else s.(hint := s.hint[ioc := s.tree[(ioc, q)]])
    case Unlink(id) =>
      var c := s.icqs[id];
      s.(tree := s.tree - {(c.ioc, c.q)}, onIoc := s.onIoc - {id}, onQueue := s.onQueue - {id},
         ops := s.ops[c.q := Unlinked(id)], locked := s.locked + {c.ioc})
    case LookAtHint(q) =>
      var id := s.ops[q].id;
      var ioc := s.icqs[id].ioc;
      s.(ops := s.ops[q := HintSeen(id, ioc in s.hint && s.hint[ioc] == id)])
    case ClearHint(q) =>
      var o := s.ops[q];
      s.(hint := if o.ours then s.hint - {s.icqs[o.id].ioc} else s.hint, ops := s.ops[q := HintDone(o.id)])
    case Destroy(q) =>
      var id := s.ops[q].id;
      var c := s.icqs[id];
      s.(icqs := s.icqs[id := Exit(c).(freed := true)], ops := s.ops - {q}, locked := s.locked - {c.ioc})
    case WalkBegin(ioc) =>
      s.(walks := s.walks[ioc := set id | id in s.onIoc && id in s.icqs && s.icqs[id].ioc == ioc],
         locked := s.locked + {ioc})
    case ExitActive(id) =>
      var ioc := s.icqs[id].ioc;
      s.(icqs := s.icqs[id := Exit(s.icqs[id])], walks := s.walks[ioc := s.walks[ioc] - {id}])
    case WalkRetry(ioc, _) => s.(walks := s.walks - {ioc}, locked := s.locked - {ioc})
    case WalkEnd(ioc) => s.(walks := s.walks - {ioc}, locked := s.locked - {ioc})
  }

  /** The three indexes agree, and hold at most one icq for an io_context and a queue. */
  ghost predicate LinksOk(s: State)
  {
    && s.onIoc == s.onQueue
    && (forall k :: k in s.tree ==>
          s.tree[k] in s.icqs && (s.icqs[s.tree[k]].ioc, s.icqs[s.tree[k]].q) == k && s.tree[k] in s.onIoc)
    && (forall id :: id in s.onIoc ==>
          id in s.icqs && (s.icqs[id].ioc, s.icqs[id].q) in s.tree && s.tree[(s.icqs[id].ioc, s.icqs[id].q)] == id)
  }

  /** Work in progress holds the locks it needs. */
  ghost predicate OpsOk(s: State)
  {
    forall q :: q in s.ops ==> OpOk(s, q, s.ops[q])
  }

  /** An io_context's lock lets in one destruction at a time. */
  ghost predicate LockOk(s: State)
  {
    forall q, r :: q in s.ops && r in s.ops && !s.ops[q].Setting? && !s.ops[r].Setting?
      && s.ops[q].id in s.icqs && s.ops[r].id in s.icqs && s.icqs[s.ops[q].id].ioc == s.icqs[s.ops[r].id].ioc
      ==> q == r
  }

  ghost predicate OpOk(s: State, q: Queue, o: Op)
  {
    && o.id in s.icqs && s.icqs[o.id].q == q
    && if o.Setting? then o.id in s.onIoc && Alive(s, s.icqs[o.id].ioc)
       else o.id !in s.onIoc && !s.icqs[o.id].freed && s.icqs[o.id].ioc in s.locked && s.icqs[o.id].ioc !in s.walks
  }

  /** A hint is linked, or its destroyer has yet to clear it. */
  ghost predicate HintOk(s: State)
  {
    forall ioc :: ioc in s.hint ==> HintGood(s, ioc, s.hint[ioc])
  }

  predicate WillClear(o: Op, id: IcqId)
  {
    o.id == id && (o.Unlinked? || (o.HintSeen? && o.ours))
  }

  ghost predicate HintGood(s: State, ioc: Ioc, id: IcqId)
  {
    && id in s.icqs && s.icqs[id].ioc == ioc
    && (id in s.onIoc || (s.icqs[id].q in s.ops && WillClear(s.ops[s.icqs[id].q], id)))
  }

  /** The exit callback has run once for an exited icq and never for another. */
  ghost predicate ExitOk(s: State)
  {
    forall id :: id in s.icqs ==>
      && s.icqs[id].exits == (if s.icqs[id].exited then 1 else 0)
      && (s.icqs[id].freed ==> s.icqs[id].exited && id !in s.onIoc)
  }

  /** A freed io_context has nothing linked to it and nothing going on. */
  ghost predicate PhaseOk(s: State)
  {
    && (forall id :: id in s.onIoc && id in s.icqs ==> s.icqs[id].ioc in s.phase && s.phase[s.icqs[id].ioc] != Freed)
    && (forall q :: q in s.ops && s.ops[q].id in s.icqs ==>
          s.icqs[s.ops[q].id].ioc in s.phase && s.phase[s.icqs[s.ops[q].id].ioc] != Freed)
    && s.refs.Keys == s.phase.Keys
    && (forall ioc :: ioc in s.phase ==> (s.phase[ioc] == Live <==> s.refs[ioc] > 0))
  }

  /** A lock that is held across actions is held by a destruction or a walk. */
  ghost predicate HeldOk(s: State)
  {
    forall ioc :: ioc in s.locked && ioc !in s.walks ==> exists q :: Destroys(s, q, ioc)
  }

  /** A walk holds the lock of a referenced io_context, and what it has passed is exited. */
  ghost predicate WalksOk(s: State)
  {
    forall ioc :: ioc in s.walks ==> WalkOk(s, ioc)
  }

  ghost predicate WalkOk(s: State, ioc: Ioc)
    requires ioc in s.walks
  {
    && ioc in s.locked && Alive(s, ioc)
    && (forall id :: id in s.walks[ioc] ==> id in s.icqs && s.icqs[id].ioc == ioc)
    && forall id :: id in s.onIoc && id in s.icqs && s.icqs[id].ioc == ioc ==> id in s.walks[ioc] || s.icqs[id].exited
  }

  ghost predicate Destroys(s: State, q: Queue, ioc: Ioc)
  {
    q in s.ops && !s.ops[q].Setting? && s.ops[q].id in s.icqs && s.icqs[s.ops[q].id].ioc == ioc
  }

  /** An icq that is off the lists is freed, or about to be. */
  ghost predicate OrphansOk(s: State)
  {
    forall id :: id in s.icqs && id !in s.onIoc && !s.icqs[id].freed ==>
      var q := s.icqs[id].q; q in s.ops && s.ops[q].id == id && !s.ops[q].Setting?
  }

  ghost predicate Inv(s: State)
  {
    LinksOk(s) && OpsOk(s) && LockOk(s) && HintOk(s) && ExitOk(s) && PhaseOk(s) && HeldOk(s) && OrphansOk(s)
    && WalksOk(s)
  }

  /** Actions on references only. */
  predicate RefAction(a: Action)
  {
    a.NewIoc? || a.GetRef? || a.PutRef? || a.LastPut? || a.ReleaseDone?
  }

  predicate WalkAction(a: Action)
  {
    a.WalkBegin? || a.WalkRetry? || a.WalkEnd?
  }

  predicate LookupAction(a: Action)
  {
    a.LookupHint? || a.LookupTree? || a.SetHint? || a.Create? || a.CreateFound?
  }

  /** Ending an icq changes neither its io_context nor its queue. */
  lemma {:induction false} KeysKept(s: State, a: Action)
    requires Enabled(s, a) && (a.Destroy? || a.ExitActive?)
    ensures var t := Step(s, a);
            && t.icqs.Keys == s.icqs.Keys && t.tree == s.tree && t.onIoc == s.onIoc && t.onQueue == s.onQueue
            && forall id :: id in s.icqs ==> t.icqs[id].ioc == s.icqs[id].ioc && t.icqs[id].q == s.icqs[id].q
  {
  }

  lemma {:induction false} StepLock(s: State, a: Action)
    requires OpsOk(s) && LockOk(s) && Enabled(s, a)
    ensures LockOk(Step(s, a))
  {
    if a.Destroy? || a.ExitActive? {
      KeysKept(s, a);
    }
  }

  lemma {:induction false} RefOps(s: State, a: Action)
    requires LinksOk(s) && OpsOk(s) && ExitOk(s) && Enabled(s, a) && RefAction(a)
    ensures OpsOk(Step(s, a))
  {
  }

  lemma {:induction false} RefPhase(s: State, a: Action)
    requires LinksOk(s) && OpsOk(s) && PhaseOk(s) && Enabled(s, a) && (a.NewIoc? || a.GetRef? || a.PutRef?)
    ensures PhaseOk(Step(s, a))
  {
  }

  lemma {:induction false} FreePhase(s: State, a: Action)
    requires LinksOk(s) && OpsOk(s) && PhaseOk(s) && Enabled(s, a) && (a.LastPut? || a.ReleaseDone?)
    ensures PhaseOk(Step(s, a))
  {
  }

  lemma {:induction false} StepLinks(s: State, a: Action)
    requires LinksOk(s) && Enabled(s, a)
    ensures LinksOk(Step(s, a))
  {
    if a.Create? || a.Unlink? {
      LinkLinks(s, a);
    } else {
      Frame(s, a);
    }
  }

  lemma {:induction false} LinkLinks(s: State, a: Action)
    requires LinksOk(s) && Enabled(s, a) && (a.Create? || a.Unlink?)
    ensures LinksOk(Step(s, a))
  {
  }

  /** What most actions leave alone. */
  lemma {:induction false} Frame(s: State, a: Action)
    requires Enabled(s, a)
    ensures var t := Step(s, a);
            && (!a.Create? && !a.Unlink? ==> t.tree == s.tree && t.onIoc == s.onIoc && t.onQueue == s.onQueue)
            && (!a.Create? && !a.Destroy? && !a.ExitActive? ==> t.icqs == s.icqs)
            && (!WalkAction(a) && !a.ExitActive? ==> t.walks == s.walks)
            && (!RefAction(a) ==> t.phase == s.phase && t.refs == s.refs)
            && (RefAction(a) || WalkAction(a) ==> t.ops == s.ops)
            && (!WalkAction(a) && !a.Unlink? && !a.Destroy? ==> t.locked == s.locked)
  {
    if a.Destroy? || a.ExitActive? {
      KeysKept(s, a);
    }
  }

  lemma {:induction false} UnlinkOps(s: State, a: Action)
    requires LinksOk(s) && OpsOk(s) && ExitOk(s) && WalksOk(s) && Enabled(s, a) && a.Unlink?
    ensures OpsOk(Step(s, a))
  {
    var ioc := s.icqs[a.id].ioc;
    assert ioc in s.walks ==> WalkOk(s, ioc);
  }

  lemma {:induction false} ClearOps(s: State, a: Action)
    requires LinksOk(s) && OpsOk(s) && ExitOk(s) && Enabled(s, a) && (a.LookAtHint? || a.ClearHint?)
    ensures OpsOk(Step(s, a))
  {
  }

  lemma {:induction false} DestroyOps(s: State, a: Action)
    requires OpsOk(s) && LockOk(s) && Enabled(s, a) && (a.Destroy? || a.ExitActive?)
    ensures OpsOk(Step(s, a))
  {
    var t := Step(s, a);
    KeysKept(s, a);
    forall q | q in t.ops
      ensures OpOk(t, q, t.ops[q])
    {
      assert q in s.ops && t.ops[q] == s.ops[q] && OpOk(s, q, s.ops[q]);
      if a.Destroy? {
        assert OpOk(s, a.q, s.ops[a.q]);
      }
    }
  }

  lemma {:induction false} LookupOps(s: State, a: Action)
    requires LinksOk(s) && OpsOk(s) && ExitOk(s) && Enabled(s, a) && LookupAction(a)
    ensures OpsOk(Step(s, a))
  {
  }

  lemma {:induction false} UnlinkHint(s: State, a: Action)
    requires LinksOk(s) && OpsOk(s) && HintOk(s) && Enabled(s, a) && a.Unlink?
    ensures HintOk(Step(s, a))
  {
  }

  lemma {:induction false} ClearHintOk(s: State, a: Action)
    requires LinksOk(s) && OpsOk(s) && HintOk(s) && Enabled(s, a) && (a.LookAtHint? || a.ClearHint?)
    ensures HintOk(Step(s, a))
  {
  }

  lemma {:induction false} DestroyHint(s: State, a: Action)
    requires LinksOk(s) && OpsOk(s) && HintOk(s) && Enabled(s, a) && (a.Destroy? || a.ExitActive?)
    ensures HintOk(Step(s, a))
  {
    KeysKept(s, a);
  }

  lemma {:induction false} LookupHintOk(s: State, a: Action)
    requires LinksOk(s) && OpsOk(s) && HintOk(s) && Enabled(s, a) && LookupAction(a)
    ensures HintOk(Step(s, a))
  {
  }

  lemma {:induction false} StepExit(s: State, a: Action)
    requires LinksOk(s) && OpsOk(s) && ExitOk(s) && Enabled(s, a)
    ensures ExitOk(Step(s, a))
  {
    if a.Create? || a.Unlink? || a.Destroy? || a.ExitActive? {
      EndExit(s, a);
    } else {
      Frame(s, a);
    }
  }

  lemma {:induction false} EndExit(s: State, a: Action)
    requires LinksOk(s) && OpsOk(s) && ExitOk(s) && Enabled(s, a)
    requires a.Create? || a.Unlink? || a.Destroy? || a.ExitActive?
    ensures ExitOk(Step(s, a))
  {
  }

  lemma {:induction false} UnlinkPhase(s: State, a: Action)
    requires LinksOk(s) && OpsOk(s) && PhaseOk(s) && Enabled(s, a) && a.Unlink?
    ensures PhaseOk(Step(s, a))
  {
  }

  lemma {:induction false} ClearPhase(s: State, a: Action)
    requires LinksOk(s) && OpsOk(s) && PhaseOk(s) && Enabled(s, a) && (a.LookAtHint? || a.ClearHint?)
    ensures PhaseOk(Step(s, a))
  {
  }

  lemma {:induction false} DestroyPhase(s: State, a: Action)
    requires LinksOk(s) && OpsOk(s) && PhaseOk(s) && Enabled(s, a) && (a.Destroy? || a.ExitActive?)
    ensures PhaseOk(Step(s, a))
  {
    KeysKept(s, a);
  }

  lemma {:induction false} LookupPhase(s: State, a: Action)
    requires LinksOk(s) && OpsOk(s) && PhaseOk(s) && Enabled(s, a) && LookupAction(a)
    ensures PhaseOk(Step(s, a))
  {
  }

  lemma {:induction false} WalkOps(s: State, a: Action)
    requires OpsOk(s) && Enabled(s, a) && WalkAction(a)
    ensures OpsOk(Step(s, a))
  {
    var t := Step(s, a);
    forall q | q in t.ops
      ensures OpOk(t, q, t.ops[q])
    {
      assert OpOk(s, q, s.ops[q]);
    }
  }

  lemma {:induction false} StepWalks(s: State, a: Action)
    requires LinksOk(s) && OpsOk(s) && WalksOk(s) && Enabled(s, a)
    ensures WalksOk(Step(s, a))
  {
    var t := Step(s, a);
    forall ioc | ioc in t.walks
      ensures WalkOk(t, ioc)
    {
      if WalkAction(a) {
        OwnWalk(s, a, ioc);
      } else if a.ExitActive? || a.Destroy? {
        EndWalk(s, a, ioc);
      } else {
        OtherWalk(s, a, ioc);
      }
    }
  }

  lemma {:induction false} OwnWalk(s: State, a: Action, ioc: Ioc)
    requires WalksOk(s) && Enabled(s, a) && WalkAction(a) && ioc in Step(s, a).walks
    ensures WalkOk(Step(s, a), ioc)
  {
    assert ioc in s.walks ==> WalkOk(s, ioc);
  }

  lemma {:induction false} EndWalk(s: State, a: Action, ioc: Ioc)
    requires OpsOk(s) && WalksOk(s) && Enabled(s, a) && (a.ExitActive? || a.Destroy?) && ioc in Step(s, a).walks
    ensures WalkOk(Step(s, a), ioc)
  {
    assert WalkOk(s, ioc);
    KeysKept(s, a);
    if a.Destroy? {
      assert OpOk(s, a.q, s.ops[a.q]);
    }
  }

  lemma {:induction false} OtherWalk(s: State, a: Action, ioc: Ioc)
    requires WalksOk(s) && Enabled(s, a) && !WalkAction(a) && !a.ExitActive? && !a.Destroy? && ioc in Step(s, a).walks
    ensures WalkOk(Step(s, a), ioc)
  {
    Frame(s, a);
    assert WalkOk(s, ioc);
  }

  lemma {:induction false} StepHeld(s: State, a: Action)
    requires OpsOk(s) && LockOk(s) && HeldOk(s) && Enabled(s, a)
    ensures HeldOk(Step(s, a))
  {
    var t := Step(s, a);
    forall ioc | ioc in t.locked && ioc !in t.walks
      ensures exists q :: Destroys(t, q, ioc)
    {
      if a.Unlink? && ioc == s.icqs[a.id].ioc {
        assert Destroys(t, s.icqs[a.id].q, ioc);
      } else {
        var q :| Destroys(s, q, ioc);
        HolderStays(s, a, q, ioc);
      }
    }
  }

  lemma {:induction false} HolderStays(s: State, a: Action, q: Queue, ioc: Ioc)
    requires OpsOk(s) && Enabled(s, a) && Destroys(s, q, ioc) && ioc in Step(s, a).locked && ioc !in Step(s, a).walks
    ensures Destroys(Step(s, a), q, ioc)
  {
    if a.Destroy? || a.ExitActive? {
      KeysKept(s, a);
    }
  }

  lemma {:induction false} StepOrphans(s: State, a: Action)
    requires LinksOk(s) && OpsOk(s) && OrphansOk(s) && Enabled(s, a)
    ensures OrphansOk(Step(s, a))
  {
    if RefAction(a) || WalkAction(a) {
      Frame(s, a);
    } else if a.Destroy? || a.ExitActive? {
      EndOrphans(s, a);
    } else {
      LinkOrphans(s, a);
    }
  }

  lemma {:induction false} EndOrphans(s: State, a: Action)
    requires OpsOk(s) && OrphansOk(s) && Enabled(s, a) && (a.Destroy? || a.ExitActive?)
    ensures OrphansOk(Step(s, a))
  {
    KeysKept(s, a);
  }

  lemma {:induction false} LinkOrphans(s: State, a: Action)
    requires LinksOk(s) && OpsOk(s) && OrphansOk(s) && Enabled(s, a)
    requires LookupAction(a) || a.Unlink? || a.LookAtHint? || a.ClearHint?
    ensures OrphansOk(Step(s, a))
  {
  }

  lemma {:induction false} StepOps(s: State, a: Action)
    requires Inv(s) && Enabled(s, a)
    ensures OpsOk(Step(s, a))
  {
    if RefAction(a) {
      RefOps(s, a);
    } else if a.Unlink? {
      UnlinkOps(s, a);
    } else if a.LookAtHint? || a.ClearHint? {
      ClearOps(s, a);
    } else if a.Destroy? || a.ExitActive? {
      DestroyOps(s, a);
    } else if WalkAction(a) {
      WalkOps(s, a);
    } else {
      LookupOps(s, a);
    }
  }

  lemma {:induction false} StepHint(s: State, a: Action)
    requires Inv(s) && Enabled(s, a)
    ensures HintOk(Step(s, a))
  {
    if a.Unlink? {
      UnlinkHint(s, a);
    } else if a.LookAtHint? || a.ClearHint? {
      ClearHintOk(s, a);
    } else if a.Destroy? || a.ExitActive? {
      DestroyHint(s, a);
    } else if LookupAction(a) {
      LookupHintOk(s, a);
    }
  }

  lemma {:induction false} StepPhase(s: State, a: Action)
    requires Inv(s) && Enabled(s, a)
    ensures PhaseOk(Step(s, a))
  {
    if a.LastPut? || a.ReleaseDone? {
      FreePhase(s, a);
    } else if RefAction(a) {
      RefPhase(s, a);
    } else if a.Unlink? {
      UnlinkPhase(s, a);
    } else if a.LookAtHint? || a.ClearHint? {
      ClearPhase(s, a);
    } else if a.Destroy? || a.ExitActive? {
      DestroyPhase(s, a);
    } else if LookupAction(a) {
      LookupPhase(s, a);
    }
  }

  lemma {:induction false} StepInv(s: State, a: Action)
    requires Inv(s) && Enabled(s, a)
    ensures Inv(Step(s, a))
  {
    StepLinks(s, a);
    StepOps(s, a);
    StepLock(s, a);
    StepHint(s, a);
    StepExit(s, a);
    StepPhase(s, a);
    StepHeld(s, a);
    StepOrphans(s, a);
    StepWalks(s, a);
  }

  function Init(): State
  {
    State(map[], map[], {}, {}, map[], map[], {}, map[], map[], map[])
  }

  ghost predicate Leads(first: State, run: seq<Action>, s: State)
  {
    if run == [] then s == first
    else
      var n := |run| - 1;
      exists before :: Leads(first, run[..n], before) && Enabled(before, run[n]) && s == Step(before, run[n])
  }

  ghost predicate Reachable(s: State)
  {
    exists run :: Leads(Init(), run, s)
  }

  lemma {:induction false} LeadsInv(first: State, run: seq<Action>, s: State)
    requires Inv(first) && Leads(first, run, s)
    ensures Inv(s)
  {
    if run != [] {
      var n := |run| - 1;
      var before :| Leads(first, run[..n], before) && Enabled(before, run[n]) && s == Step(before, run[n]);
      LeadsInv(first, run[..n], before);
      StepInv(before, run[n]);
    }
  }

  lemma {:induction false} ReachableInv(s: State)
    requires Reachable(s)
    ensures Inv(s)
  {
    var run :| Leads(Init(), run, s);
    LeadsInv(Init(), run, s);
  }

  /** In every reachable state an icq is in the tree at its queue's id iff it is on its
      io_context's list iff it is on its queue's list, and there is at most one for an
      io_context and a queue. */
  lemma {:induction false} IndexesAgree(s: State, id: IcqId, other: IcqId)
    requires Reachable(s) && id in s.icqs && other in s.icqs
    ensures var k := (s.icqs[id].ioc, s.icqs[id].q);
            (k in s.tree && s.tree[k] == id) <==> id in s.onIoc
    ensures id in s.onIoc <==> id in s.onQueue
    ensures id in s.onIoc && other in s.onIoc && s.icqs[id].ioc == s.icqs[other].ioc && s.icqs[id].q == s.icqs[other].q
            ==> id == other
  {
    ReachableInv(s);
  }

  /** Under the queue's lock, a hint for that queue is exactly what the tree would give,
      although hints of other queues may be on their way out. */
  lemma {:induction false} HintIsLookup(s: State, ioc: Ioc, q: Queue)
    requires Reachable(s) && QueueFree(s, q) && Hits(s, ioc, q)
    ensures (ioc, q) in s.tree && s.tree[(ioc, q)] == s.hint[ioc] && s.hint[ioc] in s.onIoc
  {
    ReachableInv(s);
    assert HintGood(s, ioc, s.hint[ioc]);
  }

  /** What ioc_create_icq returns is linked: its warning about a failed link is never printed. */
  lemma {:induction false} CreateLinks(s: State, ioc: Ioc, q: Queue, id: IcqId)
    requires Reachable(s) && QueueFree(s, q) && ioc !in s.locked && Alive(s, ioc) && id !in s.icqs
    ensures var t := if (ioc, q) in s.tree then Step(s, CreateFound(ioc, q)) else Step(s, Create(ioc, q, id));
            && (ioc, q) in t.tree && t.tree[(ioc, q)] in t.onIoc && t.tree[(ioc, q)] in t.onQueue
            && ((ioc, q) in s.tree ==> Hits(t, ioc, q) && t.hint[ioc] == t.tree[(ioc, q)])
  {
    ReachableInv(s);
    if Hits(s, ioc, q) {
      HintIsLookup(s, ioc, q);
    }
  }

  /** The exit callback runs at most once for an icq, and has run once by the time the icq is
      freed; a freed icq is found nowhere. */
  lemma {:induction false} ExitedOnce(s: State, id: IcqId)
    requires Reachable(s) && id in s.icqs
    ensures s.icqs[id].exits <= 1
    ensures s.icqs[id].freed ==> s.icqs[id].exits == 1 && id !in s.onIoc && id !in s.onQueue
    ensures s.icqs[id].freed ==> forall ioc :: ioc in s.hint ==> s.hint[ioc] != id
    ensures s.icqs[id].freed ==> forall k :: k in s.tree ==> s.tree[k] != id
  {
    ReachableInv(s);
    forall ioc | ioc in s.hint
      ensures s.icqs[id].freed ==> s.hint[ioc] != id
    {
      assert HintGood(s, ioc, s.hint[ioc]);
    }
  }

  lemma {:induction false} FreedStays(s: State, a: Action, ioc: Ioc)
    requires ioc in s.phase && s.phase[ioc] == Freed && Enabled(s, a)
    ensures ioc in Step(s, a).phase && Step(s, a).phase[ioc] == Freed
  {
    if !RefAction(a) {
      Frame(s, a);
    }
  }

  /** A freed io_context stays freed: nothing is linked to it, and no action concerns it. */
  lemma {:induction false} FreedIsFinal(s: State, a: Action, ioc: Ioc)
    requires Reachable(s) && ioc in s.phase && s.phase[ioc] == Freed && Enabled(s, a)
    ensures Step(s, a).phase[ioc] == Freed
    ensures forall id :: id in s.onIoc && id in s.icqs ==> s.icqs[id].ioc != ioc
    ensures a.SetHint? ==> s.icqs[s.ops[a.q].id].ioc != ioc
    ensures a.Unlink? || a.ExitActive? ==> s.icqs[a.id].ioc != ioc
    ensures a.GetRef? || a.PutRef? || a.LastPut? || a.ReleaseDone? || WalkAction(a) ==> a.ioc != ioc
    ensures a.Create? || a.CreateFound? || a.LookupHint? || a.LookupTree? ==> a.ioc != ioc
  {
    ReachableInv(s);
    FreedStays(s, a, ioc);
    if WalkAction(a) && a.ioc in s.walks {
      assert WalkOk(s, a.ioc);
    }
  }

  /** References taken, and given back, over a run. */
  function Gets(run: seq<Action>, ioc: Ioc): nat
  {
    if run == [] then 0
    else
      var n := |run| - 1;
      Gets(run[..n], ioc) + if run[n] == NewIoc(ioc) || run[n] == GetRef(ioc) then 1 else 0
  }

  function Puts(run: seq<Action>, ioc: Ioc): nat
  {
    if run == [] then 0
    else
      var n := |run| - 1;
      Puts(run[..n], ioc) + if run[n] == PutRef(ioc) then 1 else 0
  }

  function Refs(s: State, ioc: Ioc): nat { if ioc in s.refs then s.refs[ioc] else 0 }

  lemma {:induction false} RefStep(s: State, a: Action, ioc: Ioc)
    requires s.refs.Keys == s.phase.Keys && Enabled(s, a)
    ensures Step(s, a).refs.Keys == Step(s, a).phase.Keys
    ensures Refs(Step(s, a), ioc) == Refs(s, ioc) + (if a == NewIoc(ioc) || a == GetRef(ioc) then 1 else 0)
                                                  - (if a == PutRef(ioc) then 1 else 0)
  {
    if !RefAction(a) {
      Frame(s, a);
    }
  }

  lemma {:induction false} RefsCount(run: seq<Action>, s: State, ioc: Ioc)
    requires Leads(Init(), run, s)
    ensures s.refs.Keys == s.phase.Keys && Refs(s, ioc) == Gets(run, ioc) - Puts(run, ioc)
  {
    if run != [] {
      var n := |run| - 1;
      var before :| Leads(Init(), run[..n], before) && Enabled(before, run[n]) && s == Step(before, run[n]);
      RefsCount(run[..n], before, ioc);
      RefStep(before, run[n], ioc);
    }
  }

  /** An io_context is live exactly as long as more references were taken than given back. */
  lemma {:induction false} LivesWhileReferenced(run: seq<Action>, s: State, ioc: Ioc)
    requires Leads(Init(), run, s)
    ensures (ioc in s.phase && s.phase[ioc] == Live) <==> Gets(run, ioc) > Puts(run, ioc)
  {
    RefsCount(run, s, ioc);
    LeadsInv(Init(), run, s);
  }

  /** A lookup that misses the hint finds the linked icq in the tree and leaves it as the hint. */
  lemma {:induction false} LookupSetsHint(s: State, ioc: Ioc, q: Queue)
    requires Reachable(s) && Enabled(s, LookupTree(ioc, q))
    ensures var t := Step(s, LookupTree(ioc, q));
            Enabled(t, SetHint(q)) && var u := Step(t, SetHint(q));
            && QueueFree(u, q) && Hits(u, ioc, q) && u.hint[ioc] == s.tree[(ioc, q)] && u.hint[ioc] in u.onIoc
  {
    ReachableInv(s);
  }

  /** put_io_context_active: when it comes to the end of the list, however often it had to start
      again and whatever others did meanwhile, every icq on the list has been exited, exactly
      once. */
  lemma {:induction false} ActiveExits(s: State, ioc: Ioc)
    requires Reachable(s) && Enabled(s, WalkEnd(ioc))
    ensures forall id :: id in s.onIoc && id in s.icqs && s.icqs[id].ioc == ioc ==>
              s.icqs[id].exited && s.icqs[id].exits == 1
  {
    ReachableInv(s);
    assert WalkOk(s, ioc);
  }

  lemma {:induction false} LeadsSnoc(first: State, run: seq<Action>, s: State, a: Action)
    requires Leads(first, run, s) && Enabled(s, a)
    ensures Leads(first, run + [a], Step(s, a))
  {
    assert (run + [a])[..|run|] == run;
  }

  /** Nothing that matters to the life of an io_context has changed. */
  ghost predicate SameLives(s: State, t: State)
  {
    t.phase == s.phase && t.onIoc == s.onIoc && t.walks == s.walks
  }

  function Next(o: Op, q: Queue): Action
  {
    match o
    case Setting(_) => SetHint(q)
    case Unlinked(_) => LookAtHint(q)
    case HintSeen(_, _) => ClearHint(q)
    case HintDone(_) => Destroy(q)
  }

  function Left(o: Op): nat
  {
    match o
    case Unlinked(_) => 2
    case HintSeen(_, _) => 1
    case _ => 0
  }

  lemma {:induction false} NextEffect(s: State, q: Queue)
    requires q in s.ops && OpOk(s, q, s.ops[q])
    ensures Enabled(s, Next(s.ops[q], q))
    ensures var t := Step(s, Next(s.ops[q], q));
            SameLives(s, t) && t.ops - {q} == s.ops - {q} && (q in t.ops ==> Left(t.ops[q]) < Left(s.ops[q]))
  {
  }

  /** The invariant, for proofs that only hand it on. */
  ghost predicate Sound(s: State)
  {
    forall open: bool {:trigger Open(open)} :: Open(open) ==> Inv(s)
  }

  lemma {:induction false} SoundStep(s: State, a: Action)
    requires Sound(s) && Enabled(s, a)
    ensures Sound(Step(s, a))
  {
    assert Open(true);
    StepInv(s, a);
  }

  lemma {:induction false} SoundOp(s: State, q: Queue)
    requires Sound(s) && q in s.ops
    ensures OpOk(s, q, s.ops[q])
  {
    assert Open(true);
  }

  lemma {:induction false} NextStep(first: State, run: seq<Action>, s: State, q: Queue)
    returns (run': seq<Action>, t: State)
    requires Leads(first, run, s) && Sound(s) && q in s.ops
    ensures Leads(first, run', t) && Sound(t) && SameLives(s, t)
    ensures t.ops - {q} == s.ops - {q} && (q in t.ops ==> Left(t.ops[q]) < Left(s.ops[q]))
  {
    var a := Next(s.ops[q], q);
    SoundOp(s, q);
    NextEffect(s, q);
    SoundStep(s, a);
    LeadsSnoc(first, run, s, a);
    run', t := run + [a], Step(s, a);
  }

  /** Whoever holds a queue's lock can finish. */
  lemma {:induction false} FinishOp(first: State, run: seq<Action>, s: State, q: Queue)
    returns (run': seq<Action>, t: State)
    requires Leads(first, run, s) && Sound(s) && q in s.ops
    ensures Leads(first, run', t) && Sound(t) && SameLives(s, t) && t.ops == s.ops - {q}
    decreases Left(s.ops[q])
  {
    run', t := NextStep(first, run, s, q);
    if q in t.ops {
      run', t := FinishOp(first, run', t, q);
    } else {
      assert t.ops == t.ops - {q};
    }
  }

  lemma {:induction false} FinishAll(first: State, run: seq<Action>, s: State) returns (run': seq<Action>, t: State)
    requires Leads(first, run, s) && Sound(s)
    ensures Leads(first, run', t) && Sound(t) && SameLives(s, t) && t.ops == map[]
    decreases s.ops.Keys
  {
    run', t := run, s;
    if q :| q in s.ops {
      run', t := FinishOp(first, run, s, q);
      assert q !in t.ops;
      run', t := FinishAll(first, run', t);
    }
  }

  lemma {:induction false} Unlocked(s: State, ioc: Ioc)
    requires Sound(s) && s.ops == map[] && ioc in s.phase && s.phase[ioc] != Live
    ensures ioc !in s.locked
  {
    assert Open(true);
  }

  lemma {:induction false} NoneLeft(s: State, ioc: Ioc)
    requires Sound(s) && s.ops == map[]
    requires forall id :: id in s.onIoc && id in s.icqs ==> s.icqs[id].ioc != ioc
    ensures AllFreed(s, ioc)
  {
    assert Open(true);
  }

  /** ioc_release_fn's loop: the icqs of an io_context can be destroyed one after the other. */
  lemma {:induction false} Drain(first: State, run: seq<Action>, s: State, ioc: Ioc)
    returns (run': seq<Action>, t: State)
    requires Leads(first, run, s) && Sound(s) && s.ops == map[] && ioc in s.phase && s.phase[ioc] != Live
    ensures Leads(first, run', t) && Sound(t) && t.phase == s.phase && t.ops == map[]
    ensures forall id :: id in t.onIoc && id in t.icqs ==> t.icqs[id].ioc != ioc
    decreases s.onIoc
  {
    run', t := run, s;
    if id :| id in s.onIoc && id in s.icqs && s.icqs[id].ioc == ioc {
      var q := s.icqs[id].q;
      Unlocked(s, ioc);
      LeadsSnoc(first, run, s, Unlink(id));
      SoundStep(s, Unlink(id));
      run', t := FinishOp(first, run + [Unlink(id)], Step(s, Unlink(id)), q);
      assert t.ops == map[];
      run', t := Drain(first, run', t, ioc);
    }
  }

  lemma {:induction false} WalkAt(s: State, ioc: Ioc, id: IcqId)
    requires Sound(s) && ioc in s.walks && id in s.walks[ioc]
    ensures id in s.icqs && s.icqs[id].ioc == ioc
  {
    assert Open(true);
    assert WalkOk(s, ioc);
  }

  lemma {:induction false} FinishWalk(first: State, run: seq<Action>, s: State, ioc: Ioc)
    requires Leads(first, run, s) && Sound(s) && s.ops == map[] && ioc in s.walks
    ensures exists run', t :: Leads(first, run', t) && Enabled(t, WalkEnd(ioc))
    decreases s.walks[ioc]
  {
    if id :| id in s.walks[ioc] {
      WalkAt(s, ioc, id);
      LeadsSnoc(first, run, s, ExitActive(id));
      SoundStep(s, ExitActive(id));
      FinishWalk(first, run + [ExitActive(id)], Step(s, ExitActive(id)), ioc);
    } else {
      assert Enabled(s, WalkEnd(ioc));
    }
  }

  /** A walk never has to start again forever: whatever holds it up can get out of its way. */
  lemma {:induction false} WalkCanEnd(s: State, ioc: Ioc)
    requires Reachable(s) && ioc in s.walks
    ensures exists run, t :: Leads(s, run, t) && Enabled(t, WalkEnd(ioc))
  {
    ReachableInv(s);
    assert Leads(s, [], s);
    var run, t := FinishAll(s, [], s);
    FinishWalk(s, run, t, ioc);
  }

  /** Nothing leaks and nobody deadlocks: once its references are gone an io_context can be
      freed, with every icq it ever had freed and exited exactly once. */
  lemma {:induction false} CanBeFreed(s: State, ioc: Ioc)
    requires Reachable(s) && ioc in s.phase && s.phase[ioc] != Live
    ensures exists run, t :: Leads(s, run, t) && ioc in t.phase && t.phase[ioc] == Freed && AllFreed(t, ioc)
  {
    ReachableInv(s);
    assert Leads(s, [], s);
    var run, t := FinishAll(s, [], s);
    run, t := Drain(s, run, t, ioc);
    NoneLeft(t, ioc);
    if t.phase[ioc] != Freed {
      LastStep(s, run, t, ioc);
    }
  }

  ghost predicate AllFreed(s: State, ioc: Ioc)
  {
    forall id :: id in s.icqs && s.icqs[id].ioc == ioc ==> s.icqs[id].freed && s.icqs[id].exits == 1
  }

  lemma {:induction false} LastStep(first: State, run: seq<Action>, s: State, ioc: Ioc)
    requires Leads(first, run, s) && Sound(s) && s.ops == map[] && AllFreed(s, ioc)
    requires ioc in s.phase && s.phase[ioc] != Live && s.phase[ioc] != Freed
    requires forall id :: id in s.onIoc && id in s.icqs ==> s.icqs[id].ioc != ioc
    ensures exists run', t :: Leads(first, run', t) && ioc in t.phase && t.phase[ioc] == Freed && AllFreed(t, ioc)
  {
    Unlocked(s, ioc);
    var a := if s.phase[ioc] == Dying then LastPut(ioc) else ReleaseDone(ioc);
    LeadsSnoc(first, run, s, a);
    assert AllFreed(Step(s, a), ioc);
  }
}
