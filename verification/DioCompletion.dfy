/** The reference-count protocol between the submitter of a direct I/O and the completion of
    its bios (fs/direct-io.c:277-316, 369-392, 409-511, 997-1017, 1262-1274).

    Each action is one bio_lock critical section or one unlocked piece of code between two of
    them, so that a sequence of actions is an interleaving of the submitter with any number of
    completions. */
module DioCompletion {

  /** The life of a bio.  A synchronous bio goes through Listed and InHand, an asynchronous
      one through Cleaned; dio_bio_complete is what leads into Cleaned or, from InHand, into
      Processed. */
  datatype Stage =
    | Taken      // dio_bio_submit has counted it but not yet submitted it
    | InFlight   // with the block layer
    | Listed     // ended, on bio_list
    | InHand     // taken off bio_list by the submitter
    | Cleaned    // dio_bio_complete has run, its reference is not yet dropped
    | Processed

  /** Where the submitter is. */
  datatype Pc =
    | Submitting             // building bios
    | RefTaken(bio: nat)     // inside dio_bio_submit
    | AwaitTop               // about to test the condition of dio_await_one
    | Sleeping(woken: bool)  // in io_schedule
    | Reaping(bio: nat)      // inside dio_bio_complete
    | Dropping               // about to call drop_refcount
    | LastRef                // drop_refcount returned zero
    | Completed              // dio_complete has returned, the dio is about to be freed
    | Done

  /** The asynchronous completion, if any, that saw the count reach zero. */
  datatype Finisher = NoFinisher | MustComplete | MustFree | Finished

  datatype State = State(
    isAsync: bool,
    queued: bool,          // the submitter will return -EIOCBQUEUED
    pc: Pc,
    refcount: int,
    waiter: bool,
    bios: seq<Stage>,      // every bio of the request, in the order of submission
    finisher: Finisher,
    completes: nat,        // calls of dio_complete
    frees: nat)

  datatype Action =
    | TakeRef | SubmitBio
    | ReapOne(bio: nat)
    | FinishSubmit(queue: bool)
    | Sleep | TakeOne(bio: nat) | StopWaiting
    | WakeUp | SpuriousWake | Reaped
    | EndSync(bio: nat)
    | CleanAsync(bio: nat) | DropAsync(bio: nat) | FinishAsync
    | DropRef | FinishOwn

  function Init(isAsync: bool): State
  {
    State(isAsync, false, Submitting, 1, false, [], NoFinisher, 0, 0)
  }

  predicate At(s: State, b: nat, stage: Stage)
  {
    b < |s.bios| && s.bios[b] == stage
  }

  predicate ListEmpty(s: State)
  {
    Listed !in s.bios
  }

  predicate Enabled(s: State, a: Action)
  {
    match a
    case TakeRef => s.pc.Submitting?
    case SubmitBio => s.pc.RefTaken? && At(s, s.pc.bio, Taken)
    case ReapOne(b) => s.pc.Submitting? && At(s, b, Listed)
    case FinishSubmit(queue) => s.pc.Submitting? && (queue ==> s.isAsync)
    case Sleep => s.pc.AwaitTop? && s.refcount > 1 && ListEmpty(s)
    case TakeOne(b) => s.pc.AwaitTop? && At(s, b, Listed)
    case StopWaiting => s.pc.AwaitTop? && s.refcount <= 1 && ListEmpty(s)
    case WakeUp => s.pc == Sleeping(true)
    case SpuriousWake => s.pc == Sleeping(false)
    case Reaped => s.pc.Reaping? && At(s, s.pc.bio, InHand)
    case EndSync(b) => !s.isAsync && At(s, b, InFlight)
    case CleanAsync(b) => s.isAsync && At(s, b, InFlight)
    case DropAsync(b) => At(s, b, Cleaned)
    case FinishAsync => s.finisher.MustComplete? || s.finisher.MustFree?
    case DropRef => s.pc.Dropping?
    case FinishOwn => s.pc.LastRef? || s.pc.Completed?
  }

  /** wake_up_process on the waiter when only the submitter's reference is left. */
  function Wake(s: State, remaining: int): Pc
  {
    if remaining == 1 && s.waiter && s.pc.Sleeping? then Sleeping(true) else s.pc
  }

  function Step(s: State, a: Action): State
    requires Enabled(s, a)
  {
    match a
    case TakeRef => s.(refcount := s.refcount + 1, bios := s.bios + [Taken], pc := RefTaken(|s.bios|))
    case SubmitBio => s.(bios := s.bios[s.pc.bio := InFlight], pc := Submitting)
    case ReapOne(b) => s.(bios := s.bios[b := Processed])
    case FinishSubmit(queue) => s.(queued := queue, pc := if queue then Dropping else AwaitTop)
    case Sleep => s.(waiter := true, pc := Sleeping(false))
    case TakeOne(b) => s.(bios := s.bios[b := InHand], pc := Reaping(b))
    case StopWaiting => s.(pc := Dropping)
    case WakeUp => s.(waiter := false, pc := AwaitTop)
    case SpuriousWake => s.(pc := Sleeping(true))
    case Reaped => s.(bios := s.bios[s.pc.bio := Processed], pc := AwaitTop)
    case EndSync(b) =>
      s.(bios := s.bios[b := Listed], refcount := s.refcount - 1, pc := Wake(s, s.refcount - 1))
    case CleanAsync(b) => s.(bios := s.bios[b := Cleaned])
    case DropAsync(b) =>
      s.(bios := s.bios[b := Processed], refcount := s.refcount - 1, pc := Wake(s, s.refcount - 1),
         finisher := if s.refcount - 1 == 0 then MustComplete else s.finisher)
    case FinishAsync =>
      if s.finisher.MustComplete? then s.(completes := s.completes + 1, finisher := MustFree)
      else s.(frees := s.frees + 1, finisher := Finished)
    case DropRef => s.(refcount := s.refcount - 1, pc := if s.refcount - 1 == 0 then LastRef else Done)
    case FinishOwn =>
      if s.pc.LastRef? then s.(completes := s.completes + 1, pc := Completed)
      else s.(frees := s.frees + 1, pc := Done)
  }

  /** The submitter still owns a reference. */
  predicate Holds(pc: Pc)
  {
    !pc.LastRef? && !pc.Completed? && !pc.Done?
  }

  function Count(b: bool): nat { if b then 1 else 0 }

  /** References held by bios. */
  function Refs(bios: seq<Stage>): nat
  {
    if bios == [] then 0
    else
      var last := bios[|bios| - 1];
      Refs(bios[..|bios| - 1]) + Count(last.Taken? || last.InFlight? || last.Cleaned?)
  }

  lemma {:induction false} RefsUpdate(bios: seq<Stage>, b: nat, stage: Stage)
    requires b < |bios|
    ensures var was := bios[b];
            Refs(bios[b := stage]) == Refs(bios) - Count(was.Taken? || was.InFlight? || was.Cleaned?)
                                      + Count(stage.Taken? || stage.InFlight? || stage.Cleaned?)
  {
    var n := |bios| - 1;
    if b < n {
      RefsUpdate(bios[..n], b, stage);
      assert bios[b := stage][..n] == bios[..n][b := stage];
    } else {
      assert bios[b := stage][..n] == bios[..n];
    }
  }

  lemma {:induction false} RefsSnoc(bios: seq<Stage>)
    ensures Refs(bios + [Taken]) == Refs(bios) + 1
  {
    assert (bios + [Taken])[..|bios|] == bios;
  }

  /** A bio that holds a reference, if any does. */
  lemma {:induction false} RefHolder(bios: seq<Stage>) returns (b: nat)
    requires Refs(bios) > 0
    ensures b < |bios| && (bios[b].Taken? || bios[b].InFlight? || bios[b].Cleaned?)
  {
    var n := |bios| - 1;
    if bios[n].Taken? || bios[n].InFlight? || bios[n].Cleaned? {
      b := n;
    } else {
      b := RefHolder(bios[..n]);
    }
  }

  lemma {:induction false} HolderCounts(bios: seq<Stage>, b: nat)
    requires b < |bios| && (bios[b].Taken? || bios[b].InFlight? || bios[b].Cleaned?)
    ensures Refs(bios) > 0
  {
    if b < |bios| - 1 {
      HolderCounts(bios[..|bios| - 1], b);
    }
  }

  /** The reference count is the number of references; nobody sleeps with the last one. */
  ghost predicate CountOk(s: State)
  {
    && s.refcount == Refs(s.bios) + Count(Holds(s.pc))
    && (s.waiter <==> s.pc.Sleeping?)
    && (s.pc == Sleeping(false) ==> s.refcount > 1)
  }

  /** The submitter has at most one bio in its hands, and each kind of request uses its own
      stages only. */
  ghost predicate StagesOk(s: State)
  {
    && (s.pc.RefTaken? ==> At(s, s.pc.bio, Taken))
    && (s.pc.Reaping? ==> At(s, s.pc.bio, InHand))
    && (forall b :: 0 <= b < |s.bios| ==> StageOk(s, b, s.bios[b]))
    && (!s.isAsync ==> s.finisher.NoFinisher? && !s.queued)
  }

  ghost predicate StageOk(s: State, b: nat, stage: Stage)
  {
    match stage
    case Taken => s.pc == RefTaken(b)
    case InHand => s.pc == Reaping(b) && !s.isAsync
    case Listed => !s.isAsync && Holds(s.pc) && !s.pc.Dropping?
    case Cleaned => s.isAsync
    case _ => true
  }

  /** Someone finishes exactly when the last reference goes, and nobody else does. */
  ghost predicate FinishOk(s: State)
  {
    && (s.refcount > 0 ==> s.completes == 0 && s.frees == 0 && s.finisher.NoFinisher?)
    && (s.pc.Dropping? && !s.queued ==> s.refcount == 1)
    && (s.pc.LastRef? || s.pc.Completed? ==> s.refcount == 0 && s.finisher.NoFinisher?)
    && (s.refcount > 0 && s.pc.Done? ==> s.queued)
    && (s.refcount == 0 ==>
          && s.completes == Count(s.pc.Completed? || s.finisher.MustFree? || s.frees == 1)
          && s.frees == Count(s.finisher.Finished? || (s.pc.Done? && s.finisher.NoFinisher?)))
  }

  ghost predicate Inv(s: State)
  {
    CountOk(s) && StagesOk(s) && FinishOk(s)
  }

  /** The bio that an action moves to another stage. */
  function Moves(s: State, a: Action): (r: (bool, nat, Stage))
    requires Enabled(s, a)
    ensures r.0 ==> r.1 < |s.bios| && Step(s, a).bios == s.bios[r.1 := r.2]
    ensures !r.0 && !a.TakeRef? ==> Step(s, a).bios == s.bios
  {
    match a
    case SubmitBio => (true, s.pc.bio, InFlight)
    case ReapOne(b) => (true, b, Processed)
    case TakeOne(b) => (true, b, InHand)
    case Reaped => (true, s.pc.bio, Processed)
    case EndSync(b) => (true, b, Listed)
    case CleanAsync(b) => (true, b, Cleaned)
    case DropAsync(b) => (true, b, Processed)
    case _ => (false, 0, Processed)
  }

  lemma {:induction false} StepRefs(s: State, a: Action)
    requires Enabled(s, a)
    ensures Refs(Step(s, a).bios) == Refs(s.bios) + Count(a.TakeRef?) - Count(a.EndSync? || a.DropAsync?)
  {
    var m := Moves(s, a);
    if a.TakeRef? {
      RefsSnoc(s.bios);
    } else if m.0 {
      RefsUpdate(s.bios, m.1, m.2);
    }
  }

  lemma {:induction false} StepCount(s: State, a: Action)
    requires Inv(s) && Enabled(s, a)
    ensures CountOk(Step(s, a))
  {
    StepRefs(s, a);
  }

  lemma {:induction false} StepStages(s: State, a: Action)
    requires Inv(s) && Enabled(s, a)
    ensures StagesOk(Step(s, a))
  {
    if a.EndSync? {
      HolderCounts(s.bios, a.bio);
    }
    var t := Step(s, a);
    forall b | 0 <= b < |t.bios|
      ensures StageOk(t, b, t.bios[b])
    {
      StepStage(s, a, b);
    }
    StepHands(s, a);
  }

  lemma {:induction false} StepStage(s: State, a: Action, b: nat)
    requires Inv(s) && Enabled(s, a) && b < |Step(s, a).bios| && (a.EndSync? ==> Refs(s.bios) > 0)
    ensures StageOk(Step(s, a), b, Step(s, a).bios[b])
  {
    assert b < |s.bios| ==> StageOk(s, b, s.bios[b]);
    assert a.EndSync? ==> StageOk(s, a.bio, s.bios[a.bio]);
  }

  lemma {:induction false} StepHands(s: State, a: Action)
    requires Inv(s) && Enabled(s, a)
    ensures var t := Step(s, a);
            && (t.pc.RefTaken? ==> At(t, t.pc.bio, Taken)) && (t.pc.Reaping? ==> At(t, t.pc.bio, InHand))
            && (!t.isAsync ==> t.finisher.NoFinisher? && !t.queued)
  {
  }

  lemma {:induction false} StepFinish(s: State, a: Action)
    requires Inv(s) && Enabled(s, a)
    ensures FinishOk(Step(s, a))
  {
    if a.EndSync? || a.DropAsync? {
      HolderCounts(s.bios, a.bio);
    }
  }

  /** Runs of the protocol: any interleaving of enabled actions. */
  ghost predicate Leads(first: State, run: seq<Action>, s: State)
  {
    if run == [] then s == first
    else
      var n := |run| - 1;
      exists before :: Leads(first, run[..n], before) && Enabled(before, run[n]) && s == Step(before, run[n])
  }

  ghost predicate Reachable(s: State)
  {
    exists isAsync, run :: Leads(Init(isAsync), run, s)
  }

  lemma {:induction false} LeadsInv(first: State, run: seq<Action>, s: State)
    requires Inv(first) && Leads(first, run, s)
    ensures Inv(s)
  {
    if run != [] {
      var n := |run| - 1;
      var before :| Leads(first, run[..n], before) && Enabled(before, run[n]) && s == Step(before, run[n]);
      LeadsInv(first, run[..n], before);
      StepCount(before, run[n]);
      StepStages(before, run[n]);
      StepFinish(before, run[n]);
    }
  }

  lemma {:induction false} ReachableInv(s: State)
    requires Reachable(s)
    ensures Inv(s)
  {
    var isAsync, run :| Leads(Init(isAsync), run, s);
    LeadsInv(Init(isAsync), run, s);
  }

  /** Safety in every reachable state: dio_complete and the free happen at most once and in
      that order; when dio_complete has run, every bio has been processed and no reference is
      left; and no action that is still possible can touch a freed dio. */
  lemma {:induction false} CompletedOnce(s: State)
    requires Reachable(s)
    ensures s.frees <= s.completes <= 1
    ensures s.completes == 1 ==> s.refcount == 0 && forall b :: 0 <= b < |s.bios| ==> s.bios[b] == Processed
    ensures s.frees == 1 ==> forall a :: !Enabled(s, a)
  {
    ReachableInv(s);
    if s.refcount == 0 {
      AllProcessed(s);
      FinishedOnce(s);
    }
    if s.frees == 1 {
      forall a
        ensures !Enabled(s, a)
      {
        NothingLeft(s, a);
      }
    }
  }

  lemma {:induction false} FinishedOnce(s: State)
    requires CountOk(s) && FinishOk(s) && s.refcount == 0
    ensures s.frees <= s.completes <= 1
    ensures s.frees == 1 ==> s.pc.Done? && (s.finisher.Finished? || s.finisher.NoFinisher?)
  {
  }

  lemma {:induction false} NothingLeft(s: State, a: Action)
    requires s.pc.Done? && (s.finisher.Finished? || s.finisher.NoFinisher?)
    requires forall b :: 0 <= b < |s.bios| ==> s.bios[b] == Processed
    ensures !Enabled(s, a)
  {
  }

  lemma {:induction false} AllProcessed(s: State)
    requires Inv(s) && s.refcount == 0
    ensures forall b :: 0 <= b < |s.bios| ==> s.bios[b] == Processed
  {
    forall b | 0 <= b < |s.bios|
      ensures s.bios[b] == Processed
    {
      if s.bios[b].Taken? || s.bios[b].InFlight? || s.bios[b].Cleaned? {
        HolderCounts(s.bios, b);
      } else {
        assert StageOk(s, b, s.bios[b]);
      }
    }
  }

  /** BUG_ON(retval != -EIOCBQUEUED) after drop_refcount: whenever the submitter is not the
      last one out, it has queued the request. */
  lemma {:induction false} BugOnNeverFires(s: State)
    requires Reachable(s) && Enabled(s, DropRef)
    ensures Step(s, DropRef).refcount != 0 ==> s.queued
  {
    ReachableInv(s);
  }

  /** Whoever holds a reference while the submitter sleeps or is gone can go on. */
  lemma {:induction false} HolderActs(s: State) returns (a: Action)
    requires Inv(s) && s.refcount > 0 && (s.pc == Sleeping(false) || s.pc.Done?)
    ensures Enabled(s, a) && !a.SpuriousWake?
  {
    var b := RefHolder(s.bios);
    assert StageOk(s, b, s.bios[b]);
    a := if s.bios[b].Cleaned? then DropAsync(b) else if s.isAsync then CleanAsync(b) else EndSync(b);
  }

  lemma {:induction false} WaiterActs(s: State) returns (a: Action)
    requires s.pc.AwaitTop?
    ensures Enabled(s, a) && !a.SpuriousWake?
  {
    if Listed in s.bios {
      var b :| 0 <= b < |s.bios| && s.bios[b] == Listed;
      a := TakeOne(b);
    } else {
      a := if s.refcount > 1 then Sleep else StopWaiting;
    }
  }

  lemma {:induction false} SomeoneActs(s: State) returns (a: Action)
    requires Inv(s)
    ensures s.frees == 1 || (Enabled(s, a) && !a.SpuriousWake?)
  {
    match s.pc
    case Submitting => a := TakeRef;
    case RefTaken(_) => a := SubmitBio;
    case AwaitTop => a := WaiterActs(s);
    case Sleeping(woken) =>
      if woken {
        a := WakeUp;
      } else {
        a := HolderActs(s);
      }
    case Reaping(_) => a := Reaped;
    case Dropping => a := DropRef;
    case LastRef => a := FinishOwn;
    case Completed => a := FinishOwn;
    case Done =>
      if s.refcount > 0 {
        a := HolderActs(s);
      } else {
        a := FinishAsync;
      }
  }

  /** No lost wake-up and no deadlock: unless the request is over, some action other than a
      spurious wake-up is possible. */
  lemma {:induction false} NeverStuck(s: State) returns (a: Action)
    requires Reachable(s)
    ensures s.frees == 1 || (Enabled(s, a) && !a.SpuriousWake?)
  {
    ReachableInv(s);
    a := SomeoneActs(s);
  }

  function Weight(stage: Stage): nat
  {
    match stage
    case Taken => 9
    case InFlight => 8
    case Listed => 4
    case InHand => 1
    case Cleaned => 4
    case Processed => 0
  }

  function Work(bios: seq<Stage>): nat
  {
    if bios == [] then 0 else Work(bios[..|bios| - 1]) + Weight(bios[|bios| - 1])
  }

  lemma {:induction false} WorkUpdate(bios: seq<Stage>, b: nat, stage: Stage)
    requires b < |bios|
    ensures Work(bios[b := stage]) == Work(bios) - Weight(bios[b]) + Weight(stage)
  {
    var n := |bios| - 1;
    if b < n {
      WorkUpdate(bios[..n], b, stage);
      assert bios[b := stage][..n] == bios[..n][b := stage];
    } else {
      assert bios[b := stage][..n] == bios[..n];
    }
  }

  function Place(pc: Pc): nat
  {
    match pc
    case Submitting => 9
    case RefTaken(_) => 9
    case Sleeping(woken) => if woken then 6 else 4
    case AwaitTop => 5
    case Reaping(_) => 5
    case Dropping => 3
    case LastRef => 2
    case Completed => 1
    case Done => 0
  }

  function Left(f: Finisher): nat
  {
    match f
    case NoFinisher => 2
    case MustComplete => 2
    case MustFree => 1
    case Finished => 0
  }

  function Rank(s: State): nat
  {
    Work(s.bios) + Place(s.pc) + Left(s.finisher)
  }

  lemma {:induction false} StepWork(s: State, a: Action)
    requires Enabled(s, a) && !a.TakeRef?
    ensures var m := Moves(s, a);
            Work(Step(s, a).bios) == Work(s.bios) + if m.0 then Weight(m.2) - Weight(s.bios[m.1]) else 0
  {
    var m := Moves(s, a);
    if m.0 {
      WorkUpdate(s.bios, m.1, m.2);
    }
  }

  /** Every action but building another bio and waking up for nothing brings the end nearer. */
  lemma {:induction false} StepProgress(s: State, a: Action)
    requires Inv(s) && Enabled(s, a)
    requires !a.TakeRef? && !a.SpuriousWake?
    ensures Rank(Step(s, a)) < Rank(s)
  {
    StepWork(s, a);
  }

  /** Without spurious wake-ups a request runs only so many more actions after its last bio
      has been built; with NeverStuck, it always gets completed and freed. */
  lemma {:induction false} EndsWithin(first: State, run: seq<Action>, s: State)
    requires Reachable(first) && Leads(first, run, s)
    requires TakeRef !in run && SpuriousWake !in run
    ensures |run| + Rank(s) <= Rank(first)
  {
    if run != [] {
      var n := |run| - 1;
      var before :| Leads(first, run[..n], before) && Enabled(before, run[n]) && s == Step(before, run[n]);
      EndsWithin(first, run[..n], before);
      ReachableInv(first);
      LeadsInv(first, run[..n], before);
      StepProgress(before, run[n]);
    }
  }
}
