/** What holds in every state of every run of any number of workers, actors and connections. */
module LifecycleRuns {
  import opened RequestStats
  import opened Lifecycle
  import opened LifecycleInv
  import opened LifecycleSteps

  /** A run up to the point where a full queue may stop the process. After an unsafe step anything could follow. */
  ghost predicate IsRun(ss: seq<State>, sts: seq<Step>) {
    && |ss| == |sts| + 1 && ss[0] == INITIAL
    && forall i :: 0 <= i < |sts| ==>
         && Enabled(ss[i], sts[i]) && !Halts(ss[i], sts[i])
         && (Safe(ss[i], sts[i]) ==> ss[i + 1] == Do(ss[i], sts[i]))
  }

  lemma {:induction false} RunInv(ss: seq<State>, sts: seq<Step>, n: nat)
    requires IsRun(ss, sts) && n <= |sts|
    ensures n < |ss| && Inv(ss[n])
    decreases n
  {
    hide Inv, Do;
    if n == 0 {
      InitialInv();
    } else {
      RunInv(ss, sts, n - 1);
      StepKeeps(ss[n - 1], sts[n - 1]);
    }
  }

  /** In every reachable state every step a thread can take is safe, and no actor pops NULL. */
  lemma {:induction false} NothingEverGoesWrong(ss: seq<State>, sts: seq<Step>, n: nat, st: Step)
    requires IsRun(ss, sts) && n <= |sts| && Enabled(ss[n], st)
    ensures Safe(ss[n], st) && !PopsNull(ss[n], st)
  {
    hide Inv, Do, Safe;
    RunInv(ss, sts, n);
    StepKeeps(ss[n], st);
  }

  // ---------------------------------------------------------------- exactly one place

  ghost predicate IsRegistered(s: State, r: ReqId)
    requires r in s.reqs
  {
    s.reqs[r].fd in s.epoll
  }

  ghost predicate IsQueued(s: State, r: ReqId) { exists a, w :: r in Q(s, a, w) }

  ghost predicate HeldBy(s: State, r: ReqId, a: Actor) {
    (APc(s, a).Holding? || APc(s, a).Replying?) && APc(s, a).req == r
  }

  ghost predicate IsHeld(s: State, r: ReqId) { exists a :: HeldBy(s, r, a) }

  /** Its worker has it in hand while it is not registered: just accepted, about to be queued, or about to go. */
  ghost predicate CarriedBy(s: State, r: ReqId, w: Worker) {
    && (Pc(s, w).Adding? || Pc(s, w).Pushing? || Pc(s, w).Destroying?)
    && Pc(s, w).ctx in s.ctxs && s.ctxs[Pc(s, w).ctx].req == r
  }

  ghost predicate IsCarried(s: State, r: ReqId) { exists w :: CarriedBy(s, r, w) }

  function One(b: bool): nat { if b then 1 else 0 }

  lemma {:induction false} QueuedIff(s: State, r: ReqId)
    requires Inv(s) && r in s.reqs
    ensures r in s.places && (IsQueued(s, r) <==> s.places[r].Queued?)
  {
    hide BatchOk, Accounted, ActorOk, CtxOk, CountersOk, WorkerOk, Descriptors;
    assert PlaceOk(s, r);
    forall a, w | r in Q(s, a, w)
      ensures s.places[r].Queued?
    {
      assert QueueOk(s, a, w);
    }
  }

  lemma {:induction false} HeldIff(s: State, r: ReqId)
    requires Inv(s) && r in s.reqs
    ensures r in s.places && (IsHeld(s, r) <==> s.places[r].Held?)
  {
    hide BatchOk, Accounted, QueueOk, CtxOk, CountersOk, WorkerOk, Descriptors;
    assert PlaceOk(s, r);
    if s.places[r].Held? {
      assert HeldBy(s, r, s.places[r].actor);
    }
    forall a | HeldBy(s, r, a)
      ensures s.places[r].Held?
    {
      assert ActorOk(s, a);
    }
  }

  lemma {:induction false} CarriedIff(s: State, r: ReqId)
    requires Inv(s) && r in s.reqs
    ensures r in s.places && (IsCarried(s, r) <==> s.places[r].Fresh? || s.places[r].Detached? || s.places[r].Dead?)
  {
    hide BatchOk, Accounted, QueueOk, CtxOk, CountersOk, ActorOk, Descriptors;
    assert PlaceOk(s, r);
    if s.places[r].Fresh? || s.places[r].Detached? || s.places[r].Dead? {
      assert CarriedBy(s, r, s.reqs[r].worker);
    }
    forall w | CarriedBy(s, r, w)
      ensures s.places[r].Fresh? || s.places[r].Detached? || s.places[r].Dead?
    {
      assert WorkerOk(s, w);
    }
  }

  lemma {:induction false} RegisteredIff(s: State, r: ReqId)
    requires Inv(s) && r in s.reqs
    ensures r in s.places && (IsRegistered(s, r) <==> InEpoll(s.places[r]))
  {
    assert PlaceOk(s, r);
  }

  /** Every connection that is not closed is in exactly one of the four kinds of place. */
  lemma {:induction false} ExactlyOnePlace(ss: seq<State>, sts: seq<Step>, n: nat, r: ReqId)
    requires IsRun(ss, sts) && n <= |sts| && r in ss[n].reqs
    ensures var s := ss[n];
      One(IsRegistered(s, r)) + One(IsQueued(s, r)) + One(IsHeld(s, r)) + One(IsCarried(s, r)) == 1
  {
    hide Inv, IsRun, IsRegistered, IsQueued, IsHeld, IsCarried;
    RunInv(ss, sts, n);
    RegisteredIff(ss[n], r);
    QueuedIff(ss[n], r);
    HeldIff(ss[n], r);
    CarriedIff(ss[n], r);
  }

  /** In that kind of place it is once: in one position of one queue, with one actor, with one worker. */
  lemma {:induction false} PlaceIsUnique(ss: seq<State>, sts: seq<Step>, n: nat)
    requires IsRun(ss, sts) && n <= |sts|
    ensures forall a, w, i, b, v, j ::
      0 <= i < |Q(ss[n], a, w)| && 0 <= j < |Q(ss[n], b, v)| && Q(ss[n], a, w)[i] == Q(ss[n], b, v)[j] ==>
        a == b && w == v && i == j
    ensures forall r, a, b :: HeldBy(ss[n], r, a) && HeldBy(ss[n], r, b) ==> a == b
    ensures forall r, w, v :: CarriedBy(ss[n], r, w) && CarriedBy(ss[n], r, v) ==> w == v
  {
    hide IsRun;
    RunInv(ss, sts, n);
    var s := ss[n];
    QueuePositionsDiffer(s);
    HoldersDiffer(s);
  }

  lemma {:induction false} QueuePositionsDiffer(s: State)
    requires Inv(s)
    ensures forall a, w, i, b, v, j ::
      0 <= i < |Q(s, a, w)| && 0 <= j < |Q(s, b, v)| && Q(s, a, w)[i] == Q(s, b, v)[j] ==> a == b && w == v && i == j
  {
    hide BatchOk, Accounted, CtxOk, CountersOk, ActorOk, Descriptors, PlaceOk, WorkerOk;
    forall a, w, i, b, v, j | 0 <= i < |Q(s, a, w)| && 0 <= j < |Q(s, b, v)| && Q(s, a, w)[i] == Q(s, b, v)[j]
      ensures a == b && w == v && i == j
    {
      assert QueueOk(s, a, w) && QueueOk(s, b, v);
    }
  }

  lemma {:induction false} HoldersDiffer(s: State)
    requires Inv(s)
    ensures forall r, a, b :: HeldBy(s, r, a) && HeldBy(s, r, b) ==> a == b
    ensures forall r, w, v :: CarriedBy(s, r, w) && CarriedBy(s, r, v) ==> w == v
  {
    hide BatchOk, Accounted, CtxOk, CountersOk, QueueOk, Descriptors, PlaceOk;
    forall r, a, b | HeldBy(s, r, a) && HeldBy(s, r, b)
      ensures a == b
    {
      assert ActorOk(s, a) && ActorOk(s, b);
    }
    forall r, w, v | CarriedBy(s, r, w) && CarriedBy(s, r, v)
      ensures w == v
    {
      assert WorkerOk(s, w) && WorkerOk(s, v);
    }
  }

  // ---------------------------------------------------------------- nobody touches what it handed over

  datatype Thread = ByWorker(w: Worker) | ByActor(a: Actor)

  function ThreadOf(st: Step): Thread {
    if st.ReadEvent? || st.Pop? || st.Work? || st.Reply? || st.RoundDone? then ByActor(st.a) else ByWorker(st.w)
  }

  /** The requests a step reads or writes. Freeing a socket context touches none. */
  ghost function Touched(s: State, st: Step): set<ReqId>
    requires Enabled(s, st) && Safe(s, st)
  {
    match st
    case Add(w) => {ReqOf(s, Pc(s, w).ctx)}
    case Handle(w, _) => {ReqOf(s, Batch(s, w)[0].ctx)}
    case Delete(w) => {ReqOf(s, Pc(s, w).ctx)}
    case Push(w, _) => {ReqOf(s, Pc(s, w).ctx)}
    case Unlist(w) => {ReqOf(s, Pc(s, w).ctx)}
    case Destroy(w) => {ReqOf(s, Pc(s, w).ctx)}
    case Release(w) => {ReqOf(s, Pc(s, w).ctx)}
    case Rearm(w) => {ReqOf(s, Pc(s, w).ctx)}
    case Work(a) => {APc(s, a).req}
    case Reply(a, _) => {APc(s, a).req}
    case Pop(a) => if Q(s, a, APc(s, a).worker) == [] then {} else {Q(s, a, APc(s, a).worker)[0]}
    case _ => {}
  }

  /**
   * The thread a request is in the hands of: its worker while it is registered, carried or closed, or the actor that
   * holds it.
   */
  ghost predicate InHandsOf(s: State, r: ReqId, t: Thread) {
    match t
    case ByWorker(w) =>
      if r in s.reqs then s.reqs[r].worker == w && (IsRegistered(s, r) || CarriedBy(s, r, w))
      else r in s.closed && Pc(s, w) == Releasing(s.closed[r])
    case ByActor(a) => r in s.reqs && HeldBy(s, r, a)
  }

  /** A thread touches only requests in its own hands; an actor also takes the head of a queue of its own. */
  lemma {:induction false} TouchesOnlyItsOwn(ss: seq<State>, sts: seq<Step>, n: nat, st: Step, r: ReqId)
    requires IsRun(ss, sts) && n <= |sts| && Enabled(ss[n], st) && Safe(ss[n], st) && r in Touched(ss[n], st)
    ensures r in ss[n].reqs || r in ss[n].closed
    ensures InHandsOf(ss[n], r, ThreadOf(st)) || (st.Pop? && r in Q(ss[n], st.a, APc(ss[n], st.a).worker))
  {
    hide IsRun;
    RunInv(ss, sts, n);
    TouchesOwn(ss[n], st, r);
  }

  /** The request is in the hands of the thread, or at the head of the queue it takes from. */
  ghost predicate OwnOrHead(s: State, st: Step, r: ReqId)
    requires Enabled(s, st)
  {
    && (r in s.reqs || r in s.closed)
    && (InHandsOf(s, r, ThreadOf(st)) || (st.Pop? && r in Q(s, st.a, APc(s, st.a).worker)))
  }

  lemma {:induction false} TouchesOwn(s: State, st: Step, r: ReqId)
    requires Inv(s) && Enabled(s, st) && Safe(s, st) && r in Touched(s, st)
    ensures OwnOrHead(s, st, r)
  {
    hide Inv, OwnOrHead, Safe;
    match st
    case Pop(a) => PopTouches(s, a, r);
    case Work(a) => ActorTouches(s, st, r);
    case Reply(a, c) => ActorTouches(s, st, r);
    case Handle(w, o) =>
      NextEventOk(s, w);
      EventOwned(s, w, Batch(s, w)[0], st);
    case Release(w) => ReleasedOwned(s, w); ReleaseTouches(s, w, r);
    case _ => HandTouches(s, st, r);
  }

  lemma {:induction false} PopTouches(s: State, a: Actor, r: ReqId)
    requires Inv(s) && Enabled(s, Pop(a)) && r in Touched(s, Pop(a))
    ensures OwnOrHead(s, Pop(a), r)
  {
    hide Inv;
    HeadInReqs(s, a, APc(s, a).worker);
  }

  lemma {:induction false} ActorTouches(s: State, st: Step, r: ReqId)
    requires Inv(s) && Enabled(s, st) && Safe(s, st) && (st.Work? || st.Reply?) && r in Touched(s, st)
    ensures OwnOrHead(s, st, r)
  {
    hide Inv;
  }

  lemma {:induction false} EventOwned(s: State, w: Worker, e: Ev, st: Step)
    requires Inv(s) && EventOk(s, w, e) && ThreadOf(st) == ByWorker(w) && Enabled(s, st)
    ensures OwnOrHead(s, st, s.ctxs[e.ctx].req)
  {
    hide Inv;
    ContextOwned(s, w, e.ctx, Registered(e.ctx, e.ready));
  }

  lemma {:induction false} ReleaseTouches(s: State, w: Worker, r: ReqId)
    requires Pc(s, w).Releasing? && Pc(s, w).ctx in s.ctxs && r == s.ctxs[Pc(s, w).ctx].req
    requires r !in s.reqs && r in s.closed && s.closed[r] == Pc(s, w).ctx
    ensures OwnOrHead(s, Release(w), r)
  {
  }

  lemma {:induction false} HandTouches(s: State, st: Step, r: ReqId)
    requires Inv(s) && Enabled(s, st) && Safe(s, st) && InHandStep(st) && r in Touched(s, st)
    ensures OwnOrHead(s, st, r)
  {
    hide Inv, Safe, Bundle, Listed, PlaceOk, InHandsOf;
    HandAt(s, st.w);
    ContextOwned(s, st.w, Pc(s, st.w).ctx, HandPlace(s, st.w));
  }

  lemma {:induction false} HeadInReqs(s: State, a: Actor, w: Worker)
    requires Inv(s)
    ensures Q(s, a, w) != [] ==> Q(s, a, w)[0] in s.reqs
  {
    assert QueueOk(s, a, w);
  }

  lemma {:induction false} ReleasedOwned(s: State, w: Worker)
    requires Inv(s) && Pc(s, w).Releasing?
    ensures var c := Pc(s, w).ctx;
      c in s.ctxs && s.ctxs[c].req !in s.reqs && s.ctxs[c].req in s.closed && s.closed[s.ctxs[c].req] == c
  {
    hide BatchOk, QueueOk, Accounted, ActorOk, CtxOk, CountersOk, PlaceOk, Descriptors;
    assert WorkerOk(s, w);
    assert ClosedOk(s, s.ctxs[Pc(s, w).ctx].req);
  }

  lemma {:induction false} NextEventOk(s: State, w: Worker)
    requires Inv(s) && Batch(s, w) != []
    ensures EventOk(s, w, Batch(s, w)[0])
  {
    assert BatchOk(s, w);
  }

  lemma {:induction false} ContextOwned(s: State, w: Worker, c: CtxId, p: Place)
    requires Inv(s) && At(s, w, c, p) && c in CtxOf(p)
    ensures s.ctxs[c].req in s.reqs && InHandsOf(s, s.ctxs[c].req, ByWorker(w))
  {
    hide BatchOk, QueueOk, Accounted, ActorOk, CtxOk, CountersOk, WorkerOk, Descriptors;
    assert PlaceOk(s, s.ctxs[c].req);
  }

  // ---------------------------------------------------------------- timers, counters, wake-ups

  /** An actor has popped it and not yet begun to work on it. */
  ghost predicate JustPopped(s: State, r: ReqId) { exists a :: APc(s, a).Holding? && APc(s, a).req == r }

  /** TOTAL runs exactly while a connection is not closing, QUEUE besides exactly from the push to the actor's start. */
  lemma {:induction false} TimersFollowPlaces(ss: seq<State>, sts: seq<Step>, n: nat, r: ReqId)
    requires IsRun(ss, sts) && n <= |sts| && r in ss[n].reqs
    ensures TotalTime in ss[n].reqs[r].running <==> r in Live(ss[n])
    ensures QueueTime in ss[n].reqs[r].running <==> IsQueued(ss[n], r) || JustPopped(ss[n], r)
    ensures ss[n].reqs[r].running <= {TotalTime, QueueTime}
  {
    hide IsRun, Inv, IsQueued;
    RunInv(ss, sts, n);
    QueuedIff(ss[n], r);
    PlaceOf(ss[n], r);
    PoppedIff(ss[n], r);
  }

  lemma {:induction false} PoppedIff(s: State, r: ReqId)
    requires Inv(s) && r in s.reqs
    ensures r in s.places
    ensures JustPopped(s, r) <==> s.places[r].Held? && APc(s, s.places[r].actor).Holding?
  {
    hide BatchOk, Accounted, QueueOk, CtxOk, CountersOk, WorkerOk, Descriptors;
    assert PlaceOk(s, r);
    forall a | APc(s, a).Holding? && APc(s, a).req == r
      ensures s.places[r] == Held(a)
    {
      assert ActorOk(s, a);
    }
  }

  lemma {:induction false} PlaceOf(s: State, r: ReqId)
    requires Inv(s) && r in s.reqs
    ensures r in s.places && PlaceOk(s, r)
  {
  }

  /** The active count is the connections accepted and not yet closing; the total is resets plus closes. */
  lemma {:induction false} CountersCount(ss: seq<State>, sts: seq<Step>, n: nat)
    requires IsRun(ss, sts) && n <= |sts|
    ensures var k := ss[n].counters;
      k.active == k.accepted - k.closed == |Live(ss[n])| && k.total == k.resets + k.closed
  {
    hide IsRun;
    RunInv(ss, sts, n);
  }

  /** A queue with requests in it and an actor that waits always have a notification pending. */
  lemma {:induction false} NoRequestForgotten(ss: seq<State>, sts: seq<Step>, n: nat, a: Actor, w: Worker)
    requires IsRun(ss, sts) && n <= |sts|
    ensures APc(ss[n], a) == Waiting && Q(ss[n], a, w) != [] ==> Event(ss[n], a, w) > 0
    ensures |Q(ss[n], a, w)| == Event(ss[n], a, w) + Owed(ss[n], a, w)
  {
    hide IsRun, Inv;
    RunInv(ss, sts, n);
    OfQueue(ss[n], a, w);
  }

  /** No socket context is lost: each is used by the request it names or is about to be freed. */
  lemma {:induction false} NoContextLeaks(ss: seq<State>, sts: seq<Step>, n: nat, c: CtxId)
    requires IsRun(ss, sts) && n <= |sts| && c in ss[n].ctxs
    ensures var x := ss[n].ctxs[c];
      || Pc(ss[n], x.worker) == Freeing(c) || Pc(ss[n], x.worker) == Releasing(c)
      || (x.req in ss[n].reqs && ss[n].reqs[x.req].worker == x.worker)
  {
    hide IsRun, Inv;
    RunInv(ss, sts, n);
    ContextUsed(ss[n], c);
  }

  lemma {:induction false} ContextUsed(s: State, c: CtxId)
    requires Inv(s) && c in s.ctxs
    ensures var x := s.ctxs[c];
      || Pc(s, x.worker) == Freeing(c) || Pc(s, x.worker) == Releasing(c)
      || (x.req in s.reqs && s.reqs[x.req].worker == x.worker)
  {
    hide BatchOk, QueueOk, Accounted, ActorOk, CountersOk, WorkerOk, Descriptors;
    assert CtxOk(s, c);
    var x := s.ctxs[c];
    if Pc(s, x.worker) != Freeing(c) && Pc(s, x.worker) != Releasing(c) {
      assert PlaceOk(s, x.req);
    }
  }

  /** Nor is a request: one whose descriptor is closed is about to be freed, by one worker. */
  lemma {:induction false} NoRequestLeaks(ss: seq<State>, sts: seq<Step>, n: nat, r: ReqId)
    requires IsRun(ss, sts) && n <= |sts| && r in ss[n].closed
    ensures r !in ss[n].reqs
    ensures exists w: Worker :: Pc(ss[n], w) == Releasing(ss[n].closed[r])
    ensures forall v: Worker, w: Worker ::
      Pc(ss[n], v) == Releasing(ss[n].closed[r]) && Pc(ss[n], w) == Releasing(ss[n].closed[r]) ==> v == w
  {
    hide IsRun;
    RunInv(ss, sts, n);
    ClosedGoes(ss[n], r);
  }

  lemma {:induction false} ClosedGoes(s: State, r: ReqId)
    requires Inv(s) && r in s.closed
    ensures r !in s.reqs
    ensures exists w: Worker :: Pc(s, w) == Releasing(s.closed[r])
    ensures forall v: Worker, w: Worker ::
      Pc(s, v) == Releasing(s.closed[r]) && Pc(s, w) == Releasing(s.closed[r]) ==> v == w
  {
    hide BatchOk, QueueOk, Accounted, ActorOk, CtxOk, CountersOk, PlaceOk, Descriptors;
    assert ClosedOk(s, r);
    forall v: Worker | Pc(s, v) == Releasing(s.closed[r])
      ensures v == s.ctxs[s.closed[r]].worker
    {
      assert WorkerOk(s, v);
    }
  }
}
