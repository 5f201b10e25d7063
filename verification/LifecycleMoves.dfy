/**
 * What the steps do to a connection, said over the state before and after: which event leads where, what a step leaves
 * alone, and what becomes of a connection when its worker goes on.
 */
module LifecycleMoves {
  import opened RequestStats
  import opened Options
  import opened Lifecycle
  import opened LifecycleInv
  import opened LifecycleSteps
  import opened LifecycleRuns

  // ---------------------------------------------------------------- one handled event

  /** Nothing happened but that the event is off the batch. */
  ghost predicate OnlyTaken(s: State, s': State, w: Worker)
    requires Batch(s, w) != []
  {
    s' == s.(batches := s.batches[w := Batch(s, w)[1..]])
  }

  /** What is the same after any handled event. */
  ghost predicate Elsewhere(s: State, s': State, w: Worker)
    requires Batch(s, w) != []
  {
    && s'.epoll == s.epoll && s'.open == s.open && s'.closed == s.closed
    && s'.queues == s.queues && s'.events == s.events && s'.actors == s.actors
    && (forall v: Worker :: v != w ==> Pc(s', v) == Pc(s, v) && Batch(s', v) == Batch(s, v))
    && Batch(s', w) == Batch(s, w)[1..]
    && s'.counters.accepted == s.counters.accepted
  }

  /** The connection of `c` is being closed: counted, no longer timed, and about to be taken out of epoll. */
  ghost predicate NowClosing(s: State, s': State, w: Worker, c: CtxId)
    requires Alive(s, c) && Batch(s, w) != []
  {
    var r, k, k' := ReqOf(s, c), s.counters, s'.counters;
    && Elsewhere(s, s', w) && Pc(s', w) == Unlisting(c)
    && k'.closed == k.closed + 1 && k'.active == k.active - 1 && k'.total == k.total + 1 && k'.resets == k.resets
    && s'.ctxs == s.ctxs && TotalTime in s.reqs[r].running
    && s'.reqs == s.reqs[r := s.reqs[r].(running := s.reqs[r].running - {TotalTime})]
  }

  /** The connection of `c` starts over: counted, timed anew, ready to be read, and about to wait for input. */
  ghost predicate NowReset(s: State, s': State, w: Worker, c: CtxId)
    requires Alive(s, c) && Batch(s, w) != []
  {
    var r, k, k' := ReqOf(s, c), s.counters, s'.counters;
    && Elsewhere(s, s', w) && Pc(s', w) == Rearming(c)
    && k'.resets == k.resets + 1 && k'.total == k.total + 1 && k'.active == k.active && k'.closed == k.closed
    && s'.ctxs == s.ctxs[c := SockCtx(r, In, w)] && TotalTime in s.reqs[r].running
    && s'.reqs == s.reqs[r := s.reqs[r].(running := {TotalTime})]
  }

  /** The request of `c` is complete, and its worker is about to take it out of epoll and hand it over. */
  ghost predicate NowLeaving(s: State, s': State, w: Worker, c: CtxId)
    requires Batch(s, w) != []
  {
    && Elsewhere(s, s', w) && Pc(s', w) == Deleting(c)
    && s'.ctxs == s.ctxs && s'.reqs == s.reqs && s'.counters == s.counters
  }

  /**
   * What an event and its outcome lead to. An error bit closes; a finished read hands the request over; a finished
   * write resets the connection if it is to be kept and closes it if not; a failure closes; a busy socket changes
   * nothing.
   */
  lemma {:induction false} HandledEvent(s: State, w: Worker, outcome: Outcome)
    requires Inv(s) && Enabled(s, Handle(w, outcome))
    ensures Safe(s, Handle(w, outcome)) && Alive(s, Batch(s, w)[0].ctx)
    ensures var e, s' := Batch(s, w)[0], Do(s, Handle(w, outcome));
      && (e.error ==> NowClosing(s, s', w, e.ctx))
      && (!e.error && outcome == Failed ==> NowClosing(s, s', w, e.ctx))
      && (!e.error && outcome == Busy ==> OnlyTaken(s, s', w))
      && (!e.error && e.ready == In && outcome.Done? ==> NowLeaving(s, s', w, e.ctx))
      && (!e.error && e.ready == Out && outcome == Done(true) ==> NowReset(s, s', w, e.ctx))
      && (!e.error && e.ready == Out && outcome == Done(false) ==> NowClosing(s, s', w, e.ctx))
  {
    hide Inv, NowClosing, NowReset, NowLeaving, BeginClose, BeginReset, EventOk;
    var e, s1 := Batch(s, w)[0], Popped(s, w);
    HandleKeeps(s, w, outcome);
    PoppedKeeps(s, w);
    ModeOf(s1, w, e);
    CloseKeeps(s1, w, e.ctx, e.ready) by { EventAt(s1, w, e); }
    CloseDoes(s, w, e.ctx);
    ResetDoes(s, w, e.ctx);
    LeaveDoes(s, w, e.ctx);
  }

  lemma {:induction false} EventAt(s: State, w: Worker, e: Ev)
    requires EventOk(s, w, e)
    ensures At(s, w, e.ctx, Registered(e.ctx, e.ready))
  {
  }

  lemma {:induction false} ModeOf(s: State, w: Worker, e: Ev)
    requires EventOk(s, w, e)
    ensures s.ctxs[e.ctx].mode == e.ready && s.ctxs[e.ctx].worker == w
  {
  }

  lemma {:induction false} CloseDoes(s: State, w: Worker, c: CtxId)
    requires Batch(s, w) != [] && Alive(s, c) && TotalTime in RunningOf(s, c)
    ensures NowClosing(s, BeginClose(Popped(s, w), w, c), w, c)
  {
  }

  lemma {:induction false} ResetDoes(s: State, w: Worker, c: CtxId)
    requires Batch(s, w) != [] && Alive(s, c) && TotalTime in RunningOf(s, c) && s.ctxs[c].worker == w
    ensures NowReset(s, BeginReset(Popped(s, w), w, c), w, c)
  {
  }

  lemma {:induction false} LeaveDoes(s: State, w: Worker, c: CtxId)
    requires Batch(s, w) != []
    ensures NowLeaving(s, SetPc(Popped(s, w), w, Deleting(c)), w, c)
  {
  }

  // ---------------------------------------------------------------- what a step does to one request

  /** What the request's descriptor waits for in epoll. */
  function WaitsFor(s: State, r: ReqId): Option<Interest>
    requires r in s.reqs
  {
    if s.reqs[r].fd in s.epoll then Some(s.epoll[s.reqs[r].fd].interest) else None
  }

  /** Where the request stands, told from epoll, the queues and the actors. */
  ghost predicate SameStanding(s: State, s': State, r: ReqId)
    requires r in s.reqs
  {
    && r in s'.reqs && s'.reqs[r] == s.reqs[r] && WaitsFor(s', r) == WaitsFor(s, r)
    && (forall a: Actor, w: Worker :: r in Q(s', a, w) <==> r in Q(s, a, w))
    && (forall a: Actor :: HeldBy(s', r, a) <==> HeldBy(s, r, a))
  }

  /** What the steps of a worker do to the request they are about. */
  ghost predicate WorkerMoves(s: State, st: Step, s': State, r: ReqId)
    requires r in s.reqs
  {
    match st
    case Add(w) => WaitsFor(s, r) == None && r in s'.reqs && WaitsFor(s', r) == Some(In)
    case Handle(w, _) => r in s'.reqs && WaitsFor(s, r).Some? && WaitsFor(s', r) == WaitsFor(s, r)
    case Delete(w) => WaitsFor(s, r) == Some(In) && r in s'.reqs && WaitsFor(s', r) == None
    case Push(w, a) =>
      && WaitsFor(s, r) == None && r in s'.reqs && WaitsFor(s', r) == None
      && Q(s', a, w) == Q(s, a, w) + [r] && Event(s', a, w) == Event(s, a, w) + 1
    case Rearm(w) => WaitsFor(s, r) == Some(Out) && r in s'.reqs && WaitsFor(s', r) == Some(In)
    case Unlist(w) => WaitsFor(s, r).Some? && r in s'.reqs && WaitsFor(s', r) == None
    case Destroy(w) => WaitsFor(s, r) == None && r !in s'.reqs && s.reqs[r].fd !in s'.open
    case _ => false
  }

  /** And those of an actor. */
  ghost predicate ActorMoves(s: State, st: Step, s': State, r: ReqId)
    requires r in s.reqs
  {
    match st
    case Pop(a) =>
      && Q(s, a, s.reqs[r].worker) == [r] + Q(s', a, s.reqs[r].worker)
      && r in s'.reqs && HeldBy(s', r, a) && WaitsFor(s', r) == None
    case Work(a) => HeldBy(s, r, a) && r in s'.reqs && HeldBy(s', r, a) && WaitsFor(s', r) == None
    case Reply(a, c) =>
      && HeldBy(s, r, a) && WaitsFor(s, r) == None && r in s'.reqs && WaitsFor(s', r) == Some(Out)
      && c in s'.ctxs && s'.ctxs[c] == SockCtx(r, Out, s.reqs[r].worker)
    case _ => false
  }

  /** A step moves the requests it touches as said, and no others. */
  ghost predicate MovesJust(s: State, st: Step, r: ReqId)
    requires Enabled(s, st) && Safe(s, st) && !Halts(s, st) && r in s.reqs
  {
    if r in Touched(s, st) then WorkerMoves(s, st, Do(s, st), r) || ActorMoves(s, st, Do(s, st), r)
    else SameStanding(s, Do(s, st), r)
  }

  lemma {:induction false} HandHits(s: State, st: Step, r: ReqId)
    requires Enabled(s, st) && Safe(s, st) && !Halts(s, st) && InHandStep(st) && r in s.reqs && r in Touched(s, st)
    requires Pc(s, st.w).ctx in s.ctxs && s.ctxs[Pc(s, st.w).ctx].worker == st.w
    requires r in s.places && s.places[r] == HandPlace(s, st.w) && PlaceOk(s, r)
    ensures WorkerMoves(s, st, Do(s, st), r)
  {
  }

  lemma {:induction false} PushMisses(s: State, st: Step, r: ReqId)
    requires Enabled(s, st) && Safe(s, st) && !Halts(s, st) && st.Push? && r in s.reqs && r !in Touched(s, st)
    ensures SameStanding(s, Do(s, st), r)
  {
  }

  lemma {:induction false} HandQuiet(s: State, st: Step)
    requires Enabled(s, st) && Safe(s, st) && !Halts(s, st) && InHandStep(st) && !st.Push?
    ensures Do(s, st).queues == s.queues && Do(s, st).actors == s.actors
  {
    var s' := Do(s, st);
    assert s' == s.(workers := s'.workers, epoll := s'.epoll, open := s'.open, reqs := s'.reqs, closed := s'.closed,
                    places := s'.places);
  }

  lemma {:induction false} HandKeepsOthers(s: State, st: Step, r: ReqId)
    requires Enabled(s, st) && Safe(s, st) && !Halts(s, st) && InHandStep(st) && !st.Push?
    requires r in s.reqs && r !in Touched(s, st)
    requires Alive(s, Pc(s, st.w).ctx) && s.reqs[r].fd != FdOf(s, Pc(s, st.w).ctx)
    ensures r in Do(s, st).reqs && Do(s, st).reqs[r] == s.reqs[r] && WaitsFor(Do(s, st), r) == WaitsFor(s, r)
  {
  }

  lemma {:induction false} HandMisses(s: State, st: Step, r: ReqId)
    requires Enabled(s, st) && Safe(s, st) && !Halts(s, st) && InHandStep(st) && r in s.reqs && r !in Touched(s, st)
    requires Alive(s, Pc(s, st.w).ctx) && s.reqs[r].fd != FdOf(s, Pc(s, st.w).ctx)
    ensures SameStanding(s, Do(s, st), r)
  {
    hide Do, Safe, Touched, Enabled;
    if st.Push? {
      PushMisses(s, st, r);
    } else {
      HandQuiet(s, st);
      HandKeepsOthers(s, st, r);
    }
  }

  lemma {:induction false} HandMoves(s: State, st: Step, r: ReqId)
    requires Inv(s) && Enabled(s, st) && Safe(s, st) && !Halts(s, st) && InHandStep(st) && r in s.reqs
    ensures MovesJust(s, st, r)
  {
    hide Inv, Safe, Do, PlaceOk, WorkerMoves, SameStanding, Listed;
    HandAt(s, st.w);
    if r in Touched(s, st) {
      HandHits(s, st, r);
    } else {
      HandMisses(s, st, r);
    }
  }

  /** A step that leaves epoll, queues and actors alone leaves a request it does not write where it stands. */
  lemma {:induction false} StandsStill(s: State, s': State, r: ReqId)
    requires r in s.reqs && r in s'.reqs && s'.reqs[r] == s.reqs[r]
    requires s'.epoll == s.epoll && s'.queues == s.queues && s'.actors == s.actors
    ensures SameStanding(s, s', r)
  {
  }

  /** Whatever a handled event leads to, only its own request changes, and that one stays in epoll as it was. */
  lemma {:induction false} EventMoves(s: State, s': State, w: Worker, c: CtxId, r: ReqId)
    requires Batch(s, w) != [] && Alive(s, c) && r in s.reqs
    requires NowClosing(s, s', w, c) || NowReset(s, s', w, c) || NowLeaving(s, s', w, c) || OnlyTaken(s, s', w)
    ensures r in s'.reqs && s'.reqs[r].fd == s.reqs[r].fd && s'.epoll == s.epoll
    ensures r != ReqOf(s, c) ==> SameStanding(s, s', r)
  {
    hide SameStanding;
    if r != ReqOf(s, c) {
      StandsStill(s, s', r);
    }
  }

  lemma {:induction false} HandleMoves(s: State, st: Step, r: ReqId)
    requires Inv(s) && Enabled(s, st) && Safe(s, st) && !Halts(s, st) && st.Handle? && r in s.reqs
    ensures MovesJust(s, st, r)
  {
    hide Inv, Safe, Do, EventOk, NowClosing, NowReset, NowLeaving, OnlyTaken, SameStanding, Bundle, PlaceOk, Owned;
    var e, s' := Batch(s, st.w)[0], Do(s, st);
    HandledEvent(s, st.w, st.outcome);
    EventMoves(s, s', st.w, e.ctx, r);
    NextEventOk(s, st.w);
    EventAt(s, st.w, e);
    InHand(s, st.w, e.ctx, Registered(e.ctx, e.ready));
  }

  lemma {:induction false} PopMovesJust(s: State, a: Actor, r: ReqId)
    requires Inv(s) && Enabled(s, Pop(a)) && Safe(s, Pop(a)) && !Halts(s, Pop(a)) && r in s.reqs
    ensures MovesJust(s, Pop(a), r)
  {
    hide Inv, PlaceOk;
    var w := APc(s, a).worker;
    PopFinds(s, a);
    OfQueue(s, a, w);
    var q := Q(s, a, w);
    assert q == [q[0]] + q[1..];
    HeadWaits(s, a, w);
  }

  lemma {:induction false} HeadWaits(s: State, a: Actor, w: Worker)
    requires Inv(s) && Q(s, a, w) != []
    ensures var r := Q(s, a, w)[0]; r in s.reqs && WaitsFor(s, r) == None
  {
    hide Inv;
    OfQueue(s, a, w);
    PlaceOf(s, Q(s, a, w)[0]);
  }

  /** A request an actor holds is not registered, and shares its descriptor with no other. */
  lemma {:induction false} HeldAlone(s: State, a: Actor, r: ReqId)
    requires Inv(s) && (APc(s, a).Holding? || APc(s, a).Replying?) && r in s.reqs
    ensures var x := APc(s, a).req;
      && x in s.reqs && WaitsFor(s, x) == None && s.reqs[x].worker == APc(s, a).worker
      && (r != x ==> s.reqs[r].fd != s.reqs[x].fd)
  {
    hide Inv;
    OfQueue(s, a, 0);
    PlaceOf(s, APc(s, a).req);
    PlaceOf(s, r);
  }

  lemma {:induction false} WorkMovesJust(s: State, a: Actor, r: ReqId)
    requires Inv(s) && Enabled(s, Work(a)) && Safe(s, Work(a)) && r in s.reqs
    ensures MovesJust(s, Work(a), r)
  {
    hide Inv;
    HeldAlone(s, a, r);
  }

  lemma {:induction false} ReplyMovesJust(s: State, a: Actor, c: CtxId, r: ReqId)
    requires Inv(s) && Enabled(s, Reply(a, c)) && Safe(s, Reply(a, c)) && !Halts(s, Reply(a, c)) && r in s.reqs
    ensures MovesJust(s, Reply(a, c), r)
  {
    hide Inv, Do, Safe, ActorMoves, SameStanding;
    HeldAlone(s, a, r);
    if r == APc(s, a).req {
      ReplyHits(s, a, c);
    } else {
      ReplyMisses(s, a, c, r);
    }
  }

  lemma {:induction false} ReplyHits(s: State, a: Actor, c: CtxId)
    requires Enabled(s, Reply(a, c)) && Safe(s, Reply(a, c)) && WaitsFor(s, APc(s, a).req) == None
    ensures ActorMoves(s, Reply(a, c), Do(s, Reply(a, c)), APc(s, a).req)
  {
  }

  lemma {:induction false} ReplyMisses(s: State, a: Actor, c: CtxId, r: ReqId)
    requires Enabled(s, Reply(a, c)) && Safe(s, Reply(a, c)) && r in s.reqs && r != APc(s, a).req
    requires s.reqs[r].fd != s.reqs[APc(s, a).req].fd
    ensures SameStanding(s, Do(s, Reply(a, c)), r)
  {
  }

  /** Steps that touch no request that is open. */
  lemma {:induction false} AcceptMovesJust(s: State, st: Step, r: ReqId)
    requires Inv(s) && Enabled(s, st) && st.Accept? && r in s.reqs
    ensures MovesJust(s, st, r)
  {
    hide Inv;
    PlaceOf(s, r);
  }

  lemma {:induction false} ReleaseMovesJust(s: State, st: Step, r: ReqId)
    requires Inv(s) && Enabled(s, st) && Safe(s, st) && st.Release? && r in s.reqs
    ensures MovesJust(s, st, r)
  {
    hide Inv, Abandoned;
    ReleasedOwned(s, st.w);
  }

  lemma {:induction false} IdleMovesJust(s: State, st: Step, r: ReqId)
    requires Enabled(s, st) && Safe(s, st) && !Halts(s, st) && r in s.reqs
    requires st.Wait? || st.Free?
    ensures MovesJust(s, st, r)
  {
    hide Forgotten, Deliverable, SameStanding;
    StandsStill(s, Do(s, st), r);
  }

  lemma {:induction false} RoundMovesJust(s: State, st: Step, r: ReqId)
    requires Enabled(s, st) && Safe(s, st) && !Halts(s, st) && r in s.reqs
    requires st.ReadEvent? || st.RoundDone?
    ensures MovesJust(s, st, r)
  {
  }

  /** In every reachable state every step moves the requests it touches as said, and leaves every other one alone. */
  lemma {:induction false} StepsMoveJust(ss: seq<State>, sts: seq<Step>, n: nat, r: ReqId)
    requires IsRun(ss, sts) && n < |sts| && r in ss[n].reqs
    ensures Safe(ss[n], sts[n]) && ss[n + 1] == Do(ss[n], sts[n]) && MovesJust(ss[n], sts[n], r)
  {
    hide Inv, Safe, Do, MovesJust;
    RunInv(ss, sts, n);
    StepKeeps(ss[n], sts[n]);
    var s, st := ss[n], sts[n];
    if InHandStep(st) {
      HandMoves(s, st, r);
    } else if st.Handle? {
      HandleMoves(s, st, r);
    } else {
      match st
      case Pop(a) => PopMovesJust(s, a, r);
      case Work(a) => WorkMovesJust(s, a, r);
      case Reply(a, c) => ReplyMovesJust(s, a, c, r);
      case Accept(_, _, _, _) => AcceptMovesJust(s, st, r);
      case Release(_) => ReleaseMovesJust(s, st, r);
      case ReadEvent(_, _) => RoundMovesJust(s, st, r);
      case RoundDone(_) => RoundMovesJust(s, st, r);
      case _ => IdleMovesJust(s, st, r);
    }
  }

  /** A new connection: open, not yet in epoll, timed, and in its worker's hands with a context that reads. */
  lemma {:induction false} AcceptStarts(s: State, w: Worker, fd: Fd, r: ReqId, c: CtxId)
    requires Inv(s) && Enabled(s, Accept(w, fd, r, c))
    ensures var s' := Do(s, Accept(w, fd, r, c));
      && r in s'.reqs && s'.reqs[r] == Req(fd, w, {TotalTime}) && fd in s'.open && s'.open[fd] == r
      && WaitsFor(s', r) == None && c in s'.ctxs && s'.ctxs[c] == SockCtx(r, In, w) && Pc(s', w) == Adding(c)
      && s'.counters == s.counters.(active := s.counters.active + 1, accepted := s.counters.accepted + 1)
  {
    hide Inv;
    Unclaimed(s, r, c, fd);
  }

  // ---------------------------------------------------------------- what becomes of a connection in a worker's hands

  /** The worker is in the middle of something with a context. */
  predicate Midway(s: State, w: Worker) { Pc(s, w) != Dispatch && !Pc(s, w).Freeing? && !Pc(s, w).Releasing? }

  /** Another thread's step leaves a worker where it is, with the context in its hand as it was. */
  ghost predicate StaysAt(s: State, s': State, w: Worker, c: CtxId)
    requires c in s.ctxs
  {
    Pc(s', w) == Pc(s, w) && c in s'.ctxs && s'.ctxs[c] == s.ctxs[c]
  }

  lemma {:induction false} HandStepStays(s: State, st: Step, w: Worker, c: CtxId)
    requires Enabled(s, st) && Safe(s, st) && !Halts(s, st) && InHandStep(st) && st.w != w && c in s.ctxs
    ensures StaysAt(s, Do(s, st), w, c)
  {
  }

  lemma {:induction false} HandleStays(s: State, st: Step, w: Worker, c: CtxId)
    requires Inv(s) && Enabled(s, st) && Safe(s, st) && st.Handle? && st.w != w && c in s.ctxs && s.ctxs[c].worker == w
    requires s.ctxs[Batch(s, st.w)[0].ctx].worker == st.w
    ensures StaysAt(s, Do(s, st), w, c)
  {
    hide Inv, Safe, Do, NowClosing, NowReset, NowLeaving, OnlyTaken, StaysAt;
    HandledEvent(s, st.w, st.outcome);
    EventStays(s, Do(s, st), st.w, w, c, Batch(s, st.w)[0].ctx);
  }

  lemma {:induction false} EventStays(s: State, s': State, v: Worker, w: Worker, c: CtxId, d: CtxId)
    requires v != w && Batch(s, v) != [] && Alive(s, d) && c in s.ctxs && c != d
    requires NowClosing(s, s', v, d) || NowReset(s, s', v, d) || NowLeaving(s, s', v, d) || OnlyTaken(s, s', v)
    ensures StaysAt(s, s', w, c)
  {
  }

  lemma {:induction false} WorkerStepStays(s: State, st: Step, w: Worker, c: CtxId)
    requires Inv(s) && Enabled(s, st) && Safe(s, st) && !Halts(s, st) && ThreadOf(st).ByWorker? && st.w != w
    requires c in s.ctxs && s.ctxs[c].worker == w
    requires st.Handle? ==> s.ctxs[Batch(s, st.w)[0].ctx].worker == st.w
    requires st.Free? ==> s.ctxs[Pc(s, st.w).ctx].worker == st.w
    ensures StaysAt(s, Do(s, st), w, c)
  {
    hide Inv;
    if InHandStep(st) {
      hide StaysAt, Do, Safe;
      HandStepStays(s, st, w, c);
    } else if st.Handle? {
      hide StaysAt, Do, Safe;
      HandleStays(s, st, w, c);
    }
  }

  lemma {:induction false} PopStays(s: State, a: Actor, w: Worker, c: CtxId)
    requires Inv(s) && Enabled(s, Pop(a)) && Safe(s, Pop(a)) && !Halts(s, Pop(a)) && c in s.ctxs
    ensures StaysAt(s, Do(s, Pop(a)), w, c)
  {
    hide Inv, Do;
    PopFinds(s, a);
    PopMoves(s, a, c + 1, 0);
  }

  lemma {:induction false} WorkStays(s: State, a: Actor, w: Worker, c: CtxId)
    requires Enabled(s, Work(a)) && Safe(s, Work(a)) && !Halts(s, Work(a)) && c in s.ctxs
    ensures StaysAt(s, Do(s, Work(a)), w, c)
  {
  }

  lemma {:induction false} RoundStays(s: State, st: Step, w: Worker, c: CtxId)
    requires Enabled(s, st) && Safe(s, st) && !Halts(s, st) && (st.ReadEvent? || st.RoundDone?) && c in s.ctxs
    ensures StaysAt(s, Do(s, st), w, c)
  {
  }

  lemma {:induction false} ReplyStays(s: State, a: Actor, d: CtxId, w: Worker, c: CtxId)
    requires Enabled(s, Reply(a, d)) && Safe(s, Reply(a, d)) && c in s.ctxs
    ensures StaysAt(s, Do(s, Reply(a, d)), w, c)
  {
  }

  lemma {:induction false} ActorStepStays(s: State, st: Step, w: Worker, c: CtxId)
    requires Inv(s) && Enabled(s, st) && Safe(s, st) && !Halts(s, st) && ThreadOf(st).ByActor? && c in s.ctxs
    ensures StaysAt(s, Do(s, st), w, c)
  {
    hide Inv, Do, Safe, StaysAt, Enabled;
    match st
    case Reply(a, d) => ReplyStays(s, a, d, w, c);
    case Pop(a) => PopStays(s, a, w, c);
    case Work(a) => WorkStays(s, a, w, c);
    case _ => RoundStays(s, st, w, c);
  }

  lemma {:induction false} NotTouchedByOthers(s: State, st: Step, w: Worker)
    requires Inv(s) && Enabled(s, st) && Safe(s, st) && ThreadOf(st) != ByWorker(w) && Midway(s, w)
    ensures Pc(s, w).ctx in s.ctxs && ReqOf(s, Pc(s, w).ctx) in s.reqs
    ensures ReqOf(s, Pc(s, w).ctx) !in Touched(s, st)
  {
    hide Inv, Touched, Safe, PlaceOk, Bundle, Listed, IsRegistered, QueueOk, ActorOk;
    HandAt(s, w);
    var r := ReqOf(s, Pc(s, w).ctx);
    if r in Touched(s, st) {
      TouchesOwn(s, st, r);
      QueuedIff(s, r);
      HeldIff(s, r);
      assert false;
    }
  }

  /** The same worker, context and request, as far as the worker can tell. */
  ghost predicate SameInHand(s: State, s': State, w: Worker)
    requires Pc(s, w) != Dispatch
  {
    var c := Pc(s, w).ctx;
    && Pc(s', w) == Pc(s, w) && c in s.ctxs && c in s'.ctxs && s'.ctxs[c] == s.ctxs[c]
    && ReqOf(s, c) in s.reqs && SameStanding(s, s', ReqOf(s, c))
  }

  lemma {:induction false} OthersLeaveIt(ss: seq<State>, sts: seq<Step>, n: nat, w: Worker)
    requires IsRun(ss, sts) && n < |sts| && ThreadOf(sts[n]) != ByWorker(w) && Midway(ss[n], w)
    ensures SameInHand(ss[n], ss[n + 1], w)
  {
    hide Inv, Safe, Do, SameStanding, Touched, WorkerMoves, ActorMoves, PlaceOk, Bundle, Listed, EventOk;
    var s, st := ss[n], sts[n];
    RunInv(ss, sts, n);
    StepKeeps(s, st);
    HandAt(s, w);
    NotTouchedByOthers(s, st, w);
    StepsMoveJust(ss, sts, n, ReqOf(s, Pc(s, w).ctx));
    if st.Handle? {
      NextEventOk(s, st.w);
      ModeOf(s, st.w, Batch(s, st.w)[0]);
    }
    if ThreadOf(st).ByActor? {
      ActorStepStays(s, st, w, Pc(s, w).ctx);
    } else {
      OfWorker(s, st.w);
      WorkerStepStays(s, st, w, Pc(s, w).ctx);
    }
  }

  /** Worker `w` takes no step from `i` on before `j`. */
  ghost predicate Rests(sts: seq<Step>, i: nat, j: nat, w: Worker) {
    i <= j <= |sts| && forall k :: i <= k < j ==> ThreadOf(sts[k]) != ByWorker(w)
  }

  /** However long it takes, and whatever other threads do meanwhile, the worker goes on with what it had in hand. */
  lemma {:induction false} StaysInHand(ss: seq<State>, sts: seq<Step>, i: nat, j: nat, w: Worker)
    requires IsRun(ss, sts) && Rests(sts, i, j, w) && Midway(ss[i], w)
    ensures SameInHand(ss[i], ss[j], w)
    decreases j
  {
    hide IsRun, SameStanding;
    if i == j {
      RunInv(ss, sts, i);
      HandPresent(ss[i], w);
    } else {
      RunLength(ss, sts);
      StaysInHand(ss, sts, i, j - 1, w);
      OthersLeaveIt(ss, sts, j - 1, w);
      StandingTrans(ss[i], ss[j - 1], ss[j], ReqOf(ss[i], Pc(ss[i], w).ctx));
    }
  }

  lemma {:induction false} RunLength(ss: seq<State>, sts: seq<Step>)
    requires IsRun(ss, sts)
    ensures |ss| == |sts| + 1
  {
  }

  lemma {:induction false} HandPresent(s: State, w: Worker)
    requires Inv(s) && Midway(s, w)
    ensures SameInHand(s, s, w)
  {
    hide Inv;
    HandAt(s, w);
  }

  lemma {:induction false} StandingTrans(s: State, s': State, s'': State, r: ReqId)
    requires r in s.reqs && SameStanding(s, s', r) && SameStanding(s', s'', r)
    ensures SameStanding(s, s'', r)
  {
  }

  lemma {:induction false} EventNow(ss: seq<State>, sts: seq<Step>, i: nat, w: Worker)
    requires IsRun(ss, sts) && i < |sts| && sts[i].Handle? && sts[i].w == w
    ensures |ss| == |sts| + 1 && Inv(ss[i]) && Enabled(ss[i], sts[i]) && Safe(ss[i], sts[i])
    ensures ss[i + 1] == Do(ss[i], sts[i])
    ensures Batch(ss[i], w) != [] && EventOk(ss[i], w, Batch(ss[i], w)[0])
  {
    hide Inv, Safe, Do, EventOk;
    RunInv(ss, sts, i);
    StepKeeps(ss[i], sts[i]);
    NextEventOk(ss[i], w);
  }

  /** The one step a worker can take in the middle of something. */
  predicate GoesOn(pc: WorkerPc, st: Step, w: Worker) {
    match pc
    case Adding(_) => st == Add(w)
    case Deleting(_) => st == Delete(w)
    case Pushing(_) => st.Push? && st.w == w
    case Unlisting(_) => st == Unlist(w)
    case Destroying(_) => st == Destroy(w)
    case Rearming(_) => st == Rearm(w)
    case _ => true
  }

  lemma {:induction false} NextStepIs(ss: seq<State>, sts: seq<Step>, i: nat, j: nat, w: Worker)
    requires IsRun(ss, sts) && Rests(sts, i, j, w) && Midway(ss[i], w) && j < |sts| && ThreadOf(sts[j]) == ByWorker(w)
    ensures |ss| == |sts| + 1 && SameInHand(ss[i], ss[j], w) && GoesOn(Pc(ss[i], w), sts[j], w)
    ensures Inv(ss[j]) && Enabled(ss[j], sts[j]) && Safe(ss[j], sts[j]) && !Halts(ss[j], sts[j])
    ensures ss[j + 1] == Do(ss[j], sts[j])
  {
    hide Inv, Safe, Do, SameStanding;
    StaysInHand(ss, sts, i, j, w);
    RunInv(ss, sts, j);
    StepKeeps(ss[j], sts[j]);
  }

  lemma {:induction false} RearmDoes(s: State, w: Worker)
    requires Enabled(s, Rearm(w)) && Safe(s, Rearm(w)) && s.ctxs[Pc(s, w).ctx].worker == w
    ensures var c, s' := Pc(s, w).ctx, Do(s, Rearm(w));
      && FdOf(s, c) in s'.epoll && s'.epoll[FdOf(s, c)] == Reg(w, c, In) && s'.reqs == s.reqs && s'.ctxs == s.ctxs
      && Pc(s', w) == Dispatch
  {
  }

  lemma {:induction false} UnlistDoes(s: State, w: Worker)
    requires Enabled(s, Unlist(w)) && Safe(s, Unlist(w))
    ensures var c, s' := Pc(s, w).ctx, Do(s, Unlist(w));
      FdOf(s, c) !in s'.epoll && s'.reqs == s.reqs && s'.ctxs == s.ctxs && Pc(s', w) == Destroying(c)
  {
  }

  lemma {:induction false} DeleteDoes(s: State, w: Worker)
    requires Enabled(s, Delete(w)) && Safe(s, Delete(w))
    ensures var c, s' := Pc(s, w).ctx, Do(s, Delete(w));
      FdOf(s, c) !in s'.epoll && s'.reqs == s.reqs && s'.ctxs == s.ctxs && Pc(s', w) == Pushing(c)
  {
  }

  lemma {:induction false} PushDoes(s: State, w: Worker, a: Actor)
    requires Enabled(s, Push(w, a)) && Safe(s, Push(w, a)) && !Halts(s, Push(w, a))
    ensures var r, s' := ReqOf(s, Pc(s, w).ctx), Do(s, Push(w, a));
      && Q(s', a, w) == Q(s, a, w) + [r] && Event(s', a, w) == Event(s, a, w) + 1
      && r in s'.reqs && s'.reqs[r] == s.reqs[r].(running := s.reqs[r].running + {QueueTime})
  {
  }

  lemma {:induction false} DestroyDoes(s: State, w: Worker)
    requires Enabled(s, Destroy(w)) && Safe(s, Destroy(w))
    ensures var c, s' := Pc(s, w).ctx, Do(s, Destroy(w));
      ReqOf(s, c) !in s'.reqs && FdOf(s, c) !in s'.open && s'.epoll == s.epoll
  {
  }

  /** `j` is the next step of worker `w` from `i` on. */
  ghost predicate NextOf(sts: seq<Step>, i: nat, j: nat, w: Worker) {
    j < |sts| && Rests(sts, i, j, w) && ThreadOf(sts[j]) == ByWorker(w)
  }

  /** A written reply with keep-alive: the next thing its worker does makes the same connection wait for input again. */
  lemma {:induction false} KeptIsReadAgain(ss: seq<State>, sts: seq<Step>, i: nat, j: nat, w: Worker)
    requires IsRun(ss, sts) && i < |sts| && sts[i] == Handle(w, Done(true)) && NextOf(sts, i + 1, j, w)
    requires Batch(ss[i], w) != [] && !Batch(ss[i], w)[0].error && Batch(ss[i], w)[0].ready == Out
    ensures var c := Batch(ss[i], w)[0].ctx;
      && sts[j] == Rearm(w) && Alive(ss[i], c) && ReqOf(ss[i], c) in ss[j + 1].reqs
      && ss[j + 1].reqs[ReqOf(ss[i], c)] == Req(FdOf(ss[i], c), w, {TotalTime})
      && FdOf(ss[i], c) in ss[j + 1].epoll && ss[j + 1].epoll[FdOf(ss[i], c)] == Reg(w, c, In)
      && c in ss[j + 1].ctxs && ss[j + 1].ctxs[c] == SockCtx(ReqOf(ss[i], c), In, w)
  {
    hide Inv, Safe, IsRun, Do, EventOk, PlaceOk, Bundle, Elsewhere;
    EventNow(ss, sts, i, w);
    HandledEvent(ss[i], w, Done(true));
    NextStepIs(ss, sts, i + 1, j, w);
    HandAt(ss[j], w);
    RearmDoes(ss[j], w);
  }

  /**
   * A reply written without keep-alive, a failure or an error bit: the next two things the worker does take the
   * connection out of epoll and close its descriptor.
   */
  lemma {:induction false} UnkeptIsClosed(ss: seq<State>, sts: seq<Step>, i: nat, j: nat, k: nat, w: Worker)
    requires IsRun(ss, sts) && i < |sts| && sts[i].Handle? && sts[i].w == w && Batch(ss[i], w) != []
    requires var e, o := Batch(ss[i], w)[0], sts[i].outcome;
      e.error || o == Failed || (e.ready == Out && o == Done(false))
    requires NextOf(sts, i + 1, j, w) && NextOf(sts, j + 1, k, w)
    ensures var c := Batch(ss[i], w)[0].ctx;
      && Alive(ss[i], c) && sts[j] == Unlist(w) && FdOf(ss[i], c) !in ss[j + 1].epoll
      && sts[k] == Destroy(w) && ReqOf(ss[i], c) !in ss[k + 1].reqs && FdOf(ss[i], c) !in ss[k + 1].open
  {
    hide Inv, Safe, IsRun, Do, EventOk, SameStanding;
    EventNow(ss, sts, i, w);
    var c := Batch(ss[i], w)[0].ctx;
    UnkeptIsUnlisted(ss, sts, i, j, w);
    NextStepIs(ss, sts, j + 1, k, w);
    DestroyDoes(ss[k], w);
    SameFd(ss[j + 1], ss[k], ReqOf(ss[i], c));
  }

  lemma {:induction false} UnkeptIsUnlisted(ss: seq<State>, sts: seq<Step>, i: nat, j: nat, w: Worker)
    requires IsRun(ss, sts) && i < |sts| && sts[i].Handle? && sts[i].w == w && Batch(ss[i], w) != []
    requires var e, o := Batch(ss[i], w)[0], sts[i].outcome;
      e.error || o == Failed || (e.ready == Out && o == Done(false))
    requires NextOf(sts, i + 1, j, w)
    ensures |ss| == |sts| + 1
    ensures var c := Batch(ss[i], w)[0].ctx;
      && Alive(ss[i], c) && sts[j] == Unlist(w) && FdOf(ss[i], c) !in ss[j + 1].epoll
      && Pc(ss[j + 1], w) == Destroying(c) && c in ss[j + 1].ctxs && ReqOf(ss[j + 1], c) == ReqOf(ss[i], c)
      && ReqOf(ss[i], c) in ss[j + 1].reqs && ss[j + 1].reqs[ReqOf(ss[i], c)].fd == FdOf(ss[i], c)
  {
    hide Inv, Safe, IsRun, Do, EventOk, Elsewhere, SameStanding;
    EventNow(ss, sts, i, w);
    var c := Batch(ss[i], w)[0].ctx;
    HandledEvent(ss[i], w, sts[i].outcome);
    NextStepIs(ss, sts, i + 1, j, w);
    UnlistDoes(ss[j], w);
    SameFd(ss[i + 1], ss[j], ReqOf(ss[i], c));
  }

  lemma {:induction false} SameFd(s: State, s': State, r: ReqId)
    requires r in s.reqs && SameStanding(s, s', r)
    ensures r in s'.reqs && s'.reqs[r] == s.reqs[r]
  {
  }

  /** A complete request: the next two things the worker does take it out of epoll and put it last into a queue. */
  lemma {:induction false} ReadIsQueued(ss: seq<State>, sts: seq<Step>, i: nat, j: nat, k: nat, w: Worker)
    requires IsRun(ss, sts) && i < |sts| && sts[i].Handle? && sts[i].w == w && sts[i].outcome.Done?
    requires Batch(ss[i], w) != [] && !Batch(ss[i], w)[0].error && Batch(ss[i], w)[0].ready == In
    requires NextOf(sts, i + 1, j, w) && NextOf(sts, j + 1, k, w)
    ensures var c := Batch(ss[i], w)[0].ctx;
      && Alive(ss[i], c) && sts[j] == Delete(w) && FdOf(ss[i], c) !in ss[j + 1].epoll
      && sts[k].Push? && var a := sts[k].a;
      && Q(ss[k + 1], a, w) == Q(ss[k], a, w) + [ReqOf(ss[i], c)] && Event(ss[k + 1], a, w) == Event(ss[k], a, w) + 1
  {
    hide Inv, Safe, IsRun, Do, EventOk, Elsewhere, SameStanding;
    EventNow(ss, sts, i, w);
    var c := Batch(ss[i], w)[0].ctx;
    HandledEvent(ss[i], w, sts[i].outcome);
    NextStepIs(ss, sts, i + 1, j, w);
    DeleteDoes(ss[j], w);
    SameFd(ss[i + 1], ss[j], ReqOf(ss[i], c));
    NextStepIs(ss, sts, j + 1, k, w);
    PushDoes(ss[k], w, sts[k].a);
  }

  /** A queue is full at 1024 requests, and the process stops exactly when one more is pushed to it. */
  lemma {:induction false} StopsExactlyWhenFull(ss: seq<State>, sts: seq<Step>, n: nat, st: Step)
    requires IsRun(ss, sts) && n <= |sts| && Enabled(ss[n], st)
    ensures Halts(ss[n], st) <==> st.Push? && |Q(ss[n], st.a, st.w)| == 1024
    ensures forall a: Actor, w: Worker :: |Q(ss[n], a, w)| <= 1024
  {
    hide IsRun;
    RunInv(ss, sts, n);
    forall a: Actor, w: Worker ensures |Q(ss[n], a, w)| <= 1024 {
      assert QueueOk(ss[n], a, w);
    }
  }
}
