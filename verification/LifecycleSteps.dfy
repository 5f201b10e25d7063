/** Every step of every thread is safe and keeps the invariant. */
module LifecycleSteps {
  import opened RequestStats
  import opened Lifecycle
  import opened LifecycleInv

  // ---------------------------------------------------------------- what the invariant says about one context

  /** A context in worker `w`'s hands: its request, where it stands, and that the three belong together. */
  lemma {:induction false} InHand(s: State, w: Worker, c: CtxId, p: Place)
    requires Inv(s) && At(s, w, c, p) && c in CtxOf(p)
    ensures Alive(s, c) && ReqOf(s, c) in s.places && PlaceOk(s, ReqOf(s, c)) && s.reqs[ReqOf(s, c)].worker == w
    ensures Bundle(s, ReqOf(s, c), c, FdOf(s, c)) && Owned(s, {w}, {}, ReqOf(s, c), c)
    ensures InEpoll(p) ==> Listed(s, c)
    ensures ReqOf(s, c) !in s.closed
  {
    hide BatchOk, QueueOk, Accounted, ActorOk, CtxOk, CountersOk, WorkerOk;
    var r := s.ctxs[c].req;
    assert PlaceOk(s, r);
    assert r in s.closed ==> ClosedOk(s, r);
    BundleOf(s, r, c);
  }

  lemma {:induction false} BundleOf(s: State, r: ReqId, c: CtxId)
    requires Places(s) && r in s.places && CtxOf(s.places[r]) <= {c}
    requires c in s.ctxs ==> s.ctxs[c].req == r
    ensures Bundle(s, r, c, s.reqs[r].fd)
  {
    forall x | x in s.places && x != r
      ensures c !in CtxOf(s.places[x]) && s.reqs[x].fd != s.reqs[r].fd
    {
      assert PlaceOk(s, x) && PlaceOk(s, r);
    }
  }

  // ---------------------------------------------------------------- queues and counters that do not change

  ghost predicate SameQueues(s: State, s': State) {
    && (forall b, v :: Q(s', b, v) == Q(s, b, v) && Event(s', b, v) == Event(s, b, v))
    && (forall b :: APc(s', b) == APc(s, b))
  }

  lemma {:induction false} QueuesKept(s: State, s': State, r: ReqId, c: CtxId, fd: Fd)
    requires Inv(s) && SameBut(s, s', r, c, fd) && SameQueues(s, s')
    requires r in s.places ==> !s.places[r].Queued?
    ensures forall b: Actor, v: Worker :: QueueOk(s', b, v) && Accounted(s', b, v)
    ensures OthersStayQueued(s, s', r)
  {
    hide BatchOk, PlaceOk, ActorOk, CtxOk, CountersOk, WorkerOk, Descriptors, SameBut;
    forall b, v
      ensures QueueOk(s', b, v) && Accounted(s', b, v)
    {
      assert QueueOk(s, b, v) && Accounted(s, b, v);
      OtherQueue(s, s', r, c, fd, b, v);
    }
  }

  lemma {:induction false} SameLive(s: State, s': State, r: ReqId, c: CtxId, fd: Fd)
    requires SameBut(s, s', r, c, fd) && (r in Live(s) <==> r in Live(s'))
    ensures Live(s') == Live(s)
  {
    forall x
      ensures x in Live(s') <==> x in Live(s)
    {
      if x != r {
        assert x in s.places <==> x in s'.places;
      }
    }
  }

  lemma {:induction false} LostLive(s: State, s': State, r: ReqId, c: CtxId, fd: Fd)
    requires SameBut(s, s', r, c, fd) && r in Live(s) && r !in Live(s')
    ensures Live(s') == Live(s) - {r} && |Live(s')| == |Live(s)| - 1
  {
    forall x
      ensures x in Live(s') <==> x in Live(s) - {r}
    {
      if x != r {
        assert x in s.places <==> x in s'.places;
      }
    }
  }

  lemma {:induction false} GainedLive(s: State, s': State, r: ReqId, c: CtxId, fd: Fd)
    requires SameBut(s, s', r, c, fd) && r !in Live(s) && r in Live(s')
    ensures Live(s') == Live(s) + {r} && |Live(s')| == |Live(s)| + 1
  {
    forall x
      ensures x in Live(s') <==> x in Live(s) + {r}
    {
      if x != r {
        assert x in s.places <==> x in s'.places;
      }
    }
  }

  /** What is left of the worker's own batch, from event `k` on, none of it about the context in hand. */
  lemma {:induction false} OwnBatch(s: State, s': State, w: Worker, r: ReqId, c: CtxId, fd: Fd, k: nat)
    requires Frame(s, s', {w}, {}, r, c, fd) && Places(s) && BatchOk(s, w)
    requires k <= |Batch(s, w)| && Batch(s', w) == Batch(s, w)[k..]
    requires forall i :: k <= i < |Batch(s, w)| ==> Batch(s, w)[i].ctx != c
    requires Pc(s', w) == Dispatch || Pc(s', w).ctx == c
    ensures BatchOk(s', w)
  {
    hide OthersStayQueued, SameBut, Bundle, Places, At, Movers, Owned;
    forall i | 0 <= i < |Batch(s', w)|
      ensures EventOk(s', w, Batch(s', w)[i])
    {
      var e := Batch(s, w)[k + i];
      assert EventOk(s, w, e);
      AtKept(s, s', {w}, {}, r, c, fd, w, e.ctx, Registered(e.ctx, e.ready));
    }
  }

  /** A worker step that leaves the queues alone keeps the invariant if it does so for what the worker had in hand. */
  lemma {:induction false} WorkerStepKeeps(s: State, s': State, w: Worker, r: ReqId, c: CtxId, fd: Fd, k: nat)
    requires Inv(s) && SameBut(s, s', r, c, fd) && Bundle(s, r, c, fd) && Movers(s, s', {w}, {}, r, c)
          && Owned(s, {w}, {}, r, c)
    requires SameQueues(s, s')
    requires k <= |Batch(s, w)| && Batch(s', w) == Batch(s, w)[k..]
    requires forall i :: k <= i < |Batch(s, w)| ==> Batch(s, w)[i].ctx != c
    requires Pc(s', w) == Dispatch || Pc(s', w).ctx == c
    requires (r in s'.places <==> r in s'.reqs) && (r in s'.places ==> PlaceOk(s', r) && CtxOf(s'.places[r]) <= {c})
    requires WorkerOk(s', w) && (c in s'.ctxs ==> CtxOk(s', c)) && (r in s'.closed ==> ClosedOk(s', r))
    requires r in s.reqs ==> s.reqs[r].fd == fd
    requires fd in s'.open ==> s'.open[fd] == r && r in s'.reqs && s'.reqs[r].fd == fd
    requires fd in s'.epoll ==> fd in s'.open
    requires CountersOk(s')
    ensures Inv(s')
  {
    hide BatchOk, QueueOk, Accounted, ActorOk, CtxOk, CountersOk, PlaceOk, WorkerOk, Descriptors;
    hide Bundle, Movers, SameBut, SameQueues;
    QueuesKept(s, s', r, c, fd);
    OwnBatch(s, s', w, r, c, fd, k);
    Keeps(s, s', {w}, {}, r, c, fd);
  }

  // ---------------------------------------------------------------- worker steps

  lemma {:induction false} OfWorker(s: State, w: Worker)
    requires Inv(s)
    ensures WorkerOk(s, w) && BatchOk(s, w) && CountersOk(s) && Places(s)
    ensures Batch(s, w)[0..] == Batch(s, w)
    ensures Pc(s, w) != Dispatch ==> forall i :: 0 <= i < |Batch(s, w)| ==> Batch(s, w)[i].ctx != Pc(s, w).ctx
  {
  }

  /** Worker `w` went on to `pc`; besides its request, context and descriptor nothing else changed. */
  ghost predicate WorkerMoved(s: State, s': State, w: Worker, pc: WorkerPc, r: ReqId, c: CtxId, fd: Fd) {
    && SameBut(s, s', r, c, fd) && Movers(s, s', {w}, {}, r, c) && SameQueues(s, s')
    && Pc(s', w) == pc && Batch(s', w) == Batch(s, w)
  }

  /** What a step does to one key of a map. */
  datatype Edit<V> = Keep | Drop | Put(value: V)

  function Apply<K, V>(m: map<K, V>, k: K, e: Edit<V>): map<K, V> {
    match e
    case Keep => m
    case Drop => m - {k}
    case Put(v) => m[k := v]
  }

  lemma {:induction false} ApplyAgrees<K(!new), V>(m: map<K, V>, k: K, e: Edit<V>)
    ensures AgreeBut(m, Apply(m, k, e), k)
  {
  }

  /** What a step does to the one request, context and descriptor it is about. */
  datatype Footprint = Footprint(place: Edit<Place>, req: Edit<Req>, ctx: Edit<SockCtx>, reg: Edit<Reg>,
                                 open: Edit<ReqId>, closed: Edit<CtxId>)

  const NOTHING := Footprint(Keep, Keep, Keep, Keep, Keep, Keep)

  /** Into epoll for input, out of epoll, and the close of the descriptor. */
  function Registering(w: Worker, c: CtxId): Footprint {
    NOTHING.(place := Put(Registered(c, In)), reg := Put(Reg(w, c, In)))
  }

  function Leaving(p: Place): Footprint { NOTHING.(place := Put(p), reg := Drop) }

  function Shutting(c: CtxId): Footprint { NOTHING.(place := Drop, req := Drop, open := Drop, closed := Put(c)) }

  ghost predicate Edited(s: State, s': State, r: ReqId, c: CtxId, fd: Fd, f: Footprint) {
    && s'.places == Apply(s.places, r, f.place) && s'.reqs == Apply(s.reqs, r, f.req)
    && s'.ctxs == Apply(s.ctxs, c, f.ctx) && s'.epoll == Apply(s.epoll, fd, f.reg)
    && s'.open == Apply(s.open, fd, f.open) && s'.closed == Apply(s.closed, r, f.closed)
  }

  lemma {:induction false} EditedSameBut(s: State, s': State, r: ReqId, c: CtxId, fd: Fd, f: Footprint)
    requires Edited(s, s', r, c, fd, f)
    ensures SameBut(s, s', r, c, fd)
  {
    hide AgreeBut, Apply;
    ApplyAgrees(s.places, r, f.place);
    ApplyAgrees(s.reqs, r, f.req);
    ApplyAgrees(s.ctxs, c, f.ctx);
    ApplyAgrees(s.epoll, fd, f.reg);
    ApplyAgrees(s.open, fd, f.open);
    ApplyAgrees(s.closed, r, f.closed);
  }

  lemma {:induction false} WorkerEdits(s: State, s': State, w: Worker, pc: WorkerPc, r: ReqId, c: CtxId, fd: Fd,
      f: Footprint)
    requires Edited(s, s', r, c, fd, f)
    requires s'.workers == s.workers[w := pc] && s'.batches == s.batches && s'.actors == s.actors
    requires s'.queues == s.queues && s'.events == s.events
    requires Pc(s, w) == Dispatch || Pc(s, w).ctx == c
    ensures WorkerMoved(s, s', w, pc, r, c, fd)
  {
    hide SameBut, Edited;
    EditedSameBut(s, s', r, c, fd, f);
  }

  lemma {:induction false} LiveIff(s: State, r: ReqId)
    ensures r in Live(s) <==> r in s.places && !s.places[r].Closing? && !s.places[r].Dead?
  {
  }

  /** The state after worker `w` went on to `pc` and did `f` to what it had in hand. */
  function Changed(s: State, w: Worker, pc: WorkerPc, c: CtxId, f: Footprint): State
    requires Alive(s, c)
  {
    var r, fd := ReqOf(s, c), FdOf(s, c);
    s.(places := Apply(s.places, r, f.place), reqs := Apply(s.reqs, r, f.req), ctxs := Apply(s.ctxs, c, f.ctx),
       epoll := Apply(s.epoll, fd, f.reg), open := Apply(s.open, fd, f.open), closed := Apply(s.closed, r, f.closed),
       workers := s.workers[w := pc])
  }

  /** The steps of a worker on the context it has in hand: what they do to it is all there is to look at. */
  lemma {:induction false} HandStepKeeps(s: State, s': State, w: Worker, c: CtxId, p: Place, pc: WorkerPc, f: Footprint)
    requires Inv(s) && At(s, w, c, p) && c in CtxOf(p) && Alive(s, c) && s' == Changed(s, w, pc, c, f)
    requires Pc(s, w) == Dispatch || Pc(s, w).ctx == c
    requires forall i :: 0 <= i < |Batch(s, w)| ==> Batch(s, w)[i].ctx != c
    requires pc == Dispatch || pc.ctx == c
    requires var r, fd := ReqOf(s, c), FdOf(s, c);
      && (r in s'.places <==> r in s'.reqs) && (r in s'.places ==> PlaceOk(s', r) && CtxOf(s'.places[r]) == {c})
      && (r in s'.places && !s'.places[r].Closing? && !s'.places[r].Dead? <==> !p.Closing? && !p.Dead?)
      && (fd in s'.open ==> s'.open[fd] == r && r in s'.reqs && s'.reqs[r].fd == fd)
      && (fd in s'.epoll ==> fd in s'.open)
    requires WorkerOk(s', w) && (c in s'.ctxs ==> CtxOk(s', c))
    requires ReqOf(s, c) in s'.closed ==> ClosedOk(s', ReqOf(s, c))
    ensures Inv(s')
  {
    hide Inv, SameBut, Movers, SameQueues, Bundle, Owned, Live, PlaceOk, WorkerOk, CtxOk;
    OfWorker(s, w);
    InHand(s, w, c, p);
    var r, fd := ReqOf(s, c), FdOf(s, c);
    LiveIff(s, r);
    LiveIff(s', r);
    WorkerEdits(s, s', w, pc, r, c, fd, f);
    SameLive(s, s', r, c, fd);
    WorkerStepKeeps(s, s', w, r, c, fd, 0);
  }

  lemma {:induction false} AddIs(s: State, w: Worker, c: CtxId)
    requires Enabled(s, Add(w)) && c == Pc(s, w).ctx && Alive(s, c) && FdOf(s, c) !in s.epoll && s.ctxs[c].worker == w
    ensures Safe(s, Add(w))
    ensures Do(s, Add(w)) == Changed(s, w, Dispatch, c, Registering(w, c))
  {
  }

  lemma {:induction false} AddKeeps(s: State, w: Worker)
    requires Inv(s) && Enabled(s, Add(w))
    ensures Safe(s, Add(w)) && Inv(Do(s, Add(w)))
  {
    hide Inv, Places, Owned, Bundle, BatchOk, CountersOk, Do, Safe;
    var c := Pc(s, w).ctx;
    OfWorker(s, w);
    InHand(s, w, c, Fresh(c));
    AddIs(s, w, c);
    HandStepKeeps(s, Do(s, Add(w)), w, c, Fresh(c), Dispatch, Registering(w, c));
  }

  lemma {:induction false} RearmIs(s: State, w: Worker, c: CtxId)
    requires Enabled(s, Rearm(w)) && c == Pc(s, w).ctx && Listed(s, c) && s.ctxs[c].worker == w
    ensures Safe(s, Rearm(w))
    ensures Do(s, Rearm(w)) == Changed(s, w, Dispatch, c, Registering(w, c))
  {
  }

  lemma {:induction false} RearmKeeps(s: State, w: Worker)
    requires Inv(s) && Enabled(s, Rearm(w))
    ensures Safe(s, Rearm(w)) && Inv(Do(s, Rearm(w)))
  {
    hide Inv, Places, Owned, Bundle, BatchOk, CountersOk, Do, Safe;
    var c := Pc(s, w).ctx;
    OfWorker(s, w);
    InHand(s, w, c, Registered(c, Out));
    RearmIs(s, w, c);
    HandStepKeeps(s, Do(s, Rearm(w)), w, c, Registered(c, Out), Dispatch, Registering(w, c));
  }

  lemma {:induction false} DeleteIs(s: State, w: Worker, c: CtxId)
    requires Enabled(s, Delete(w)) && c == Pc(s, w).ctx && Listed(s, c) && s.ctxs[c].worker == w
    ensures Safe(s, Delete(w))
    ensures Do(s, Delete(w)) == Changed(s, w, Pushing(c), c, Leaving(Detached(c)))
  {
  }

  lemma {:induction false} DeleteKeeps(s: State, w: Worker)
    requires Inv(s) && Enabled(s, Delete(w))
    ensures Safe(s, Delete(w)) && Inv(Do(s, Delete(w)))
  {
    hide Inv, Places, Owned, Bundle, BatchOk, CountersOk, Do, Safe;
    var c := Pc(s, w).ctx;
    OfWorker(s, w);
    InHand(s, w, c, Registered(c, In));
    DeleteIs(s, w, c);
    HandStepKeeps(s, Do(s, Delete(w)), w, c, Registered(c, In), Pushing(c), Leaving(Detached(c)));
  }

  lemma {:induction false} UnlistIs(s: State, w: Worker, c: CtxId)
    requires Enabled(s, Unlist(w)) && c == Pc(s, w).ctx && Listed(s, c) && s.ctxs[c].worker == w
    ensures Safe(s, Unlist(w))
    ensures Do(s, Unlist(w)) == Changed(s, w, Destroying(c), c, Leaving(Dead(c)))
  {
  }

  lemma {:induction false} UnlistKeeps(s: State, w: Worker)
    requires Inv(s) && Enabled(s, Unlist(w))
    ensures Safe(s, Unlist(w)) && Inv(Do(s, Unlist(w)))
  {
    hide Inv, Places, Owned, Bundle, BatchOk, CountersOk, Do, Safe;
    var c := Pc(s, w).ctx;
    OfWorker(s, w);
    InHand(s, w, c, Closing(c));
    UnlistIs(s, w, c);
    HandStepKeeps(s, Do(s, Unlist(w)), w, c, Closing(c), Destroying(c), Leaving(Dead(c)));
  }

  lemma {:induction false} DestroyIs(s: State, w: Worker, c: CtxId)
    requires Enabled(s, Destroy(w)) && c == Pc(s, w).ctx
    requires Alive(s, c) && FdOf(s, c) !in s.epoll && s.ctxs[c].worker == w
    ensures Safe(s, Destroy(w))
    ensures Do(s, Destroy(w)) == Changed(s, w, Releasing(c), c, Shutting(c))
  {
  }

  lemma {:induction false} DestroyKeeps(s: State, w: Worker)
    requires Inv(s) && Enabled(s, Destroy(w))
    ensures Safe(s, Destroy(w)) && Inv(Do(s, Destroy(w)))
  {
    hide Inv, Places, Owned, BatchOk, CountersOk, Do, Safe;
    var c := Pc(s, w).ctx;
    OfWorker(s, w);
    InHand(s, w, c, Dead(c));
    DestroyIs(s, w, c);
    HandStepKeeps(s, Do(s, Destroy(w)), w, c, Dead(c), Releasing(c), Shutting(c));
  }

  lemma {:induction false} AcceptMoves(s: State, w: Worker, fd: Fd, r: ReqId, c: CtxId)
    requires Enabled(s, Accept(w, fd, r, c))
    ensures WorkerMoved(s, Do(s, Accept(w, fd, r, c)), w, Adding(c), r, c, fd)
  {
    hide WorkerMoved;
    var f := Footprint(Put(Fresh(c)), Put(Req(fd, w, {TotalTime})), Put(SockCtx(r, In, w)), Keep, Put(r), Keep);
    WorkerEdits(s, Do(s, Accept(w, fd, r, c)), w, Adding(c), r, c, fd, f);
  }

  lemma {:induction false} Unclaimed(s: State, r: ReqId, c: CtxId, fd: Fd)
    requires Inv(s) && r !in s.reqs && r !in s.closed && c !in s.ctxs && fd !in s.open
    ensures r !in s.places && fd !in s.epoll && Bundle(s, r, c, fd) && Owned(s, {}, {}, r, c)
  {
    hide BatchOk, QueueOk, Accounted, ActorOk, CtxOk, CountersOk, WorkerOk;
    forall x | x in s.places
      ensures c !in CtxOf(s.places[x]) && s.reqs[x].fd != fd
    {
      assert PlaceOk(s, x);
    }
  }

  lemma {:induction false} AcceptLocal(s: State, w: Worker, fd: Fd, r: ReqId, c: CtxId)
    requires Enabled(s, Accept(w, fd, r, c)) && r !in s.places && fd !in s.epoll
    ensures var s' := Do(s, Accept(w, fd, r, c));
      && r in s'.places && r in s'.reqs && PlaceOk(s', r) && s'.places[r] == Fresh(c) && WorkerOk(s', w)
      && c in s'.ctxs && CtxOk(s', c) && s'.reqs[r].fd == fd && s'.open[fd] == r && r !in s'.closed
      && s'.counters == s.counters.(active := s.counters.active + 1, accepted := s.counters.accepted + 1)
  {
  }

  lemma {:induction false} AcceptKeeps(s: State, w: Worker, fd: Fd, r: ReqId, c: CtxId)
    requires Inv(s) && Enabled(s, Accept(w, fd, r, c))
    ensures Inv(Do(s, Accept(w, fd, r, c)))
  {
    hide Inv, Places, SameBut, Movers, SameQueues, Bundle, Live, PlaceOk, WorkerOk, CtxOk;
    OfWorker(s, w);
    Unclaimed(s, r, c, fd);
    AcceptLocal(s, w, fd, r, c);
    AcceptMoves(s, w, fd, r, c);
    var s' := Do(s, Accept(w, fd, r, c));
    hide Do;
    LiveIff(s, r);
    LiveIff(s', r);
    GainedLive(s, s', r, c, fd);
    assert forall i :: 0 <= i < |Batch(s, w)| ==> EventOk(s, w, Batch(s, w)[i]);
    WorkerStepKeeps(s, s', w, r, c, fd, 0);
  }

  // ---------------------------------------------------------------- handling one event

  function Popped(s: State, w: Worker): State
    requires Batch(s, w) != []
  {
    s.(batches := s.batches[w := Batch(s, w)[1..]])
  }

  lemma {:induction false} PoppedMoves(s: State, w: Worker, r: ReqId, c: CtxId, fd: Fd)
    requires Pc(s, w) == Dispatch && Batch(s, w) != []
    ensures var s' := Popped(s, w);
      && SameBut(s, s', r, c, fd) && Movers(s, s', {w}, {}, r, c) && SameQueues(s, s')
      && Pc(s', w) == Dispatch && Batch(s', w) == Batch(s, w)[1..]
  {
  }

  /** Taking the next event off the batch: it speaks of a registered context, and no later event does. */
  lemma {:induction false} PoppedKeeps(s: State, w: Worker)
    requires Inv(s) && Pc(s, w) == Dispatch && Batch(s, w) != []
    ensures var s', e := Popped(s, w), Batch(s, w)[0];
      && Inv(s') && EventOk(s', w, e) && Pc(s', w) == Dispatch
      && forall i :: 0 <= i < |Batch(s', w)| ==> Batch(s', w)[i].ctx != e.ctx
  {
    hide Inv, Places, SameBut, Movers, SameQueues, Bundle, Owned, Live;
    var e := Batch(s, w)[0];
    OfWorker(s, w);
    assert EventOk(s, w, e);
    InHand(s, w, e.ctx, Registered(e.ctx, e.ready));
    var r, c, fd := ReqOf(s, e.ctx), e.ctx, FdOf(s, e.ctx);
    var s' := Popped(s, w);
    PoppedMoves(s, w, r, c, fd);
    LiveIff(s, r);
    LiveIff(s', r);
    SameLive(s, s', r, c, fd);
    WorkerStepKeeps(s, s', w, r, c, fd, 1);
  }

  lemma {:induction false} CloseMoves(s: State, w: Worker, c: CtxId)
    requires Pc(s, w) == Dispatch && Alive(s, c)
    ensures WorkerMoved(s, BeginClose(s, w, c), w, Unlisting(c), ReqOf(s, c), c, FdOf(s, c))
  {
    hide WorkerMoved;
    var r := ReqOf(s, c);
    var req := s.reqs[r].(running := s.reqs[r].running - {TotalTime});
    WorkerEdits(s, BeginClose(s, w, c), w, Unlisting(c), r, c, FdOf(s, c),
                NOTHING.(place := Put(Closing(c)), req := Put(req)));
  }

  lemma {:induction false} CloseKeeps(s: State, w: Worker, c: CtxId, i: Interest)
    requires Inv(s) && Pc(s, w) == Dispatch && At(s, w, c, Registered(c, i))
    requires forall k :: 0 <= k < |Batch(s, w)| ==> Batch(s, w)[k].ctx != c
    ensures Alive(s, c) && RunningOf(s, c) == {TotalTime} && Inv(BeginClose(s, w, c))
  {
    hide Inv, Places, SameBut, Movers, SameQueues, Bundle, Owned, Live;
    OfWorker(s, w);
    InHand(s, w, c, Registered(c, i));
    var r, fd := ReqOf(s, c), FdOf(s, c);
    var s' := BeginClose(s, w, c);
    CloseMoves(s, w, c);
    LiveIff(s, r);
    LiveIff(s', r);
    LostLive(s, s', r, c, fd);
    assert {TotalTime} - {TotalTime} == {};
    WorkerStepKeeps(s, s', w, r, c, fd, 0);
  }

  lemma {:induction false} ResetMoves(s: State, w: Worker, c: CtxId)
    requires Pc(s, w) == Dispatch && Alive(s, c)
    ensures WorkerMoved(s, BeginReset(s, w, c), w, Rearming(c), ReqOf(s, c), c, FdOf(s, c))
  {
    hide WorkerMoved;
    var r := ReqOf(s, c);
    WorkerEdits(s, BeginReset(s, w, c), w, Rearming(c), r, c, FdOf(s, c),
                NOTHING.(req := Put(s.reqs[r].(running := {TotalTime})), ctx := Put(s.ctxs[c].(mode := In))));
  }

  lemma {:induction false} ResetKeeps(s: State, w: Worker, c: CtxId)
    requires Inv(s) && Pc(s, w) == Dispatch && At(s, w, c, Registered(c, Out))
    requires forall k :: 0 <= k < |Batch(s, w)| ==> Batch(s, w)[k].ctx != c
    ensures Alive(s, c) && Inv(BeginReset(s, w, c))
  {
    hide Inv, Places, SameBut, Movers, SameQueues, Bundle, Owned, Live;
    OfWorker(s, w);
    InHand(s, w, c, Registered(c, Out));
    var r, fd := ReqOf(s, c), FdOf(s, c);
    var s' := BeginReset(s, w, c);
    ResetMoves(s, w, c);
    LiveIff(s, r);
    LiveIff(s', r);
    SameLive(s, s', r, c, fd);
    WorkerStepKeeps(s, s', w, r, c, fd, 0);
  }

  lemma {:induction false} DeletingMoves(s: State, w: Worker, c: CtxId)
    requires Pc(s, w) == Dispatch && Alive(s, c)
    ensures WorkerMoved(s, SetPc(s, w, Deleting(c)), w, Deleting(c), ReqOf(s, c), c, FdOf(s, c))
  {
    hide WorkerMoved;
    WorkerEdits(s, SetPc(s, w, Deleting(c)), w, Deleting(c), ReqOf(s, c), c, FdOf(s, c), NOTHING);
  }

  lemma {:induction false} DeletingKeeps(s: State, w: Worker, c: CtxId)
    requires Inv(s) && Pc(s, w) == Dispatch && At(s, w, c, Registered(c, In)) && s.ctxs[c].mode == In
    requires forall k :: 0 <= k < |Batch(s, w)| ==> Batch(s, w)[k].ctx != c
    ensures Inv(SetPc(s, w, Deleting(c)))
  {
    hide Inv, Places, SameBut, Movers, SameQueues, Bundle, Owned, Live;
    OfWorker(s, w);
    InHand(s, w, c, Registered(c, In));
    var r, fd := ReqOf(s, c), FdOf(s, c);
    var s' := SetPc(s, w, Deleting(c));
    DeletingMoves(s, w, c);
    LiveIff(s, r);
    LiveIff(s', r);
    SameLive(s, s', r, c, fd);
    WorkerStepKeeps(s, s', w, r, c, fd, 0);
  }

  lemma {:induction false} HandleKeeps(s: State, w: Worker, outcome: Outcome)
    requires Inv(s) && Enabled(s, Handle(w, outcome))
    ensures Safe(s, Handle(w, outcome)) && Inv(Do(s, Handle(w, outcome)))
  {
    hide Inv, BeginClose, BeginReset;
    var e, s1 := Batch(s, w)[0], Popped(s, w);
    PoppedKeeps(s, w);
    CloseKeeps(s1, w, e.ctx, e.ready);
    if e.ready == Out {
      ResetKeeps(s1, w, e.ctx);
    } else {
      DeletingKeeps(s1, w, e.ctx);
    }
  }

  // ---------------------------------------------------------------- handing over to an actor

  /** Queue (a, w) got `r` and one notification; the others and the actors are as before. */
  ghost predicate QueueGrew(s: State, s': State, a: Actor, w: Worker, r: ReqId) {
    && Q(s', a, w) == Q(s, a, w) + [r] && Event(s', a, w) == Event(s, a, w) + 1
    && (forall b: Actor, v: Worker :: b != a || v != w ==>
          Q(s', b, v) == Q(s, b, v) && Event(s', b, v) == Event(s, b, v))
    && (forall b: Actor :: APc(s', b) == APc(s, b))
  }

  lemma {:induction false} OneMore(s: State, s': State, a: Actor, w: Worker, r: ReqId)
    requires s'.queues == s.queues[(a, w) := Q(s, a, w) + [r]] && s'.events == s.events[(a, w) := Event(s, a, w) + 1]
    requires s'.actors == s.actors
    ensures QueueGrew(s, s', a, w, r)
  {
  }

  lemma {:induction false} OnlyWorker(s: State, s': State, w: Worker, pc: WorkerPc, r: ReqId, c: CtxId)
    requires s'.workers == s.workers[w := pc] && s'.batches == s.batches && s'.actors == s.actors
    requires Pc(s, w) == Dispatch || Pc(s, w).ctx == c
    ensures Movers(s, s', {w}, {}, r, c)
  {
  }

  lemma {:induction false} PushMoves(s: State, w: Worker, a: Actor)
    requires Enabled(s, Push(w, a)) && Safe(s, Push(w, a)) && !Halts(s, Push(w, a))
    ensures var c := Pc(s, w).ctx; var r := ReqOf(s, c); var s' := Do(s, Push(w, a));
      && SameBut(s, s', r, c, FdOf(s, c)) && Movers(s, s', {w}, {}, r, c)
      && Pc(s', w) == Freeing(c) && Batch(s', w) == Batch(s, w)
      && QueueGrew(s, s', a, w, r)
  {
    hide SameBut, Movers, QueueGrew;
    var c := Pc(s, w).ctx;
    var r, s' := ReqOf(s, c), Do(s, Push(w, a));
    var req := s.reqs[r].(running := s.reqs[r].running + {QueueTime});
    EditedSameBut(s, s', r, c, FdOf(s, c), NOTHING.(place := Put(Queued(a)), req := Put(req)));
    OnlyWorker(s, s', w, Freeing(c), r, c);
    OneMore(s, s', a, w, r);
  }

  /** Appending a request that no queue holds. */
  lemma {:induction false} QueuePushed(s: State, s': State, w: Worker, a: Actor, r: ReqId, c: CtxId, fd: Fd)
    requires Inv(s) && SameBut(s, s', r, c, fd) && |Q(s, a, w)| < QUEUE_CAPACITY
    requires r in s.places && !s.places[r].Queued?
    requires r in s'.places && r in s'.reqs && s'.places[r] == Queued(a) && s'.reqs[r].worker == w
    requires QueueGrew(s, s', a, w, r)
    ensures forall b: Actor, v: Worker :: QueueOk(s', b, v) && Accounted(s', b, v)
    ensures OthersStayQueued(s, s', r)
  {
    hide BatchOk, PlaceOk, ActorOk, CtxOk, CountersOk, WorkerOk, Descriptors;
    forall b: Actor, v: Worker
      ensures QueueOk(s', b, v) && Accounted(s', b, v)
    {
      assert QueueOk(s, b, v) && Accounted(s, b, v);
      if b != a || v != w {
        OtherQueue(s, s', r, c, fd, b, v);
      }
    }
  }

  lemma {:induction false} PushLocal(s: State, w: Worker, a: Actor)
    requires Enabled(s, Push(w, a)) && Safe(s, Push(w, a)) && !Halts(s, Push(w, a))
    requires var c := Pc(s, w).ctx; var r := ReqOf(s, c);
      && r in s.places && s.places[r] == Detached(c) && PlaceOk(s, r) && s.reqs[r].worker == w && s.ctxs[c].worker == w
      && Bundle(s, r, c, FdOf(s, c))
    ensures var c := Pc(s, w).ctx; var r := ReqOf(s, c); var s' := Do(s, Push(w, a));
      && r in s'.places && r in s'.reqs && s'.places[r] == Queued(a)
      && s'.reqs[r].worker == w && s'.reqs[r].fd == FdOf(s, c)
      && PlaceOk(s', r) && WorkerOk(s', w) && c in s'.ctxs && CtxOk(s', c)
      && s'.counters == s.counters && s'.open == s.open && s'.epoll == s.epoll && s'.closed == s.closed
  {
    var c := Pc(s, w).ctx;
    var r, s' := ReqOf(s, c), Do(s, Push(w, a));
    assert r in Q(s', a, w);
    forall x | x in s'.places
      ensures c !in CtxOf(s'.places[x])
    {
      assert x != r ==> x in s.places && s'.places[x] == s.places[x];
    }
  }

  /** The request handed over is in its queue and in the worker's hands no more, so the invariant holds. */
  lemma {:induction false} PushedKeeps(s: State, s': State, w: Worker, a: Actor, c: CtxId)
    requires Inv(s) && At(s, w, c, Detached(c)) && Alive(s, c)
    requires Pc(s, w) == Pushing(c) && |Q(s, a, w)| < QUEUE_CAPACITY
    requires SameBut(s, s', ReqOf(s, c), c, FdOf(s, c)) && Movers(s, s', {w}, {}, ReqOf(s, c), c)
    requires Pc(s', w) == Freeing(c) && Batch(s', w) == Batch(s, w) && QueueGrew(s, s', a, w, ReqOf(s, c))
    requires var r, fd := ReqOf(s, c), FdOf(s, c);
      && r in s'.places && r in s'.reqs && s'.places[r] == Queued(a) && s'.reqs[r].worker == w && s'.reqs[r].fd == fd
      && PlaceOk(s', r) && WorkerOk(s', w) && c in s'.ctxs && CtxOk(s', c)
      && s'.counters == s.counters && s'.open == s.open && s'.epoll == s.epoll && s'.closed == s.closed
    ensures Inv(s')
  {
    hide Inv, SameBut, Movers, QueueGrew, Live, CtxOk, PlaceOk, WorkerOk, Bundle, Owned, EventOk;
    OfWorker(s, w);
    InHand(s, w, c, Detached(c));
    var r, fd := ReqOf(s, c), FdOf(s, c);
    QueuePushed(s, s', w, a, r, c, fd);
    LiveIff(s, r);
    LiveIff(s', r);
    SameLive(s, s', r, c, fd);
    OwnBatch(s, s', w, r, c, fd, 0);
    Keeps(s, s', {w}, {}, r, c, fd);
  }

  lemma {:induction false} PushKeeps(s: State, w: Worker, a: Actor)
    requires Inv(s) && Enabled(s, Push(w, a))
    ensures Safe(s, Push(w, a)) && (!Halts(s, Push(w, a)) ==> Inv(Do(s, Push(w, a))))
  {
    hide Inv, Places, SameBut, Movers, QueueGrew, Owned, BatchOk, CtxOk;
    var c := Pc(s, w).ctx;
    OfWorker(s, w);
    InHand(s, w, c, Detached(c));
    if !Halts(s, Push(w, a)) {
      OfQueue(s, a, w);
      PushMoves(s, w, a);
      PushLocal(s, w, a);
      PushedKeeps(s, Do(s, Push(w, a)), w, a, c);
    }
  }

  lemma {:induction false} OfQueue(s: State, a: Actor, w: Worker)
    requires Inv(s)
    ensures QueueOk(s, a, w) && Accounted(s, a, w) && ActorOk(s, a)
  {
  }

  // ---------------------------------------------------------------- steps that touch no request

  lemma {:induction false} FreshNat(xs: set<nat>) returns (n: nat)
    ensures n !in xs && forall x :: x in xs ==> x < n
    decreases |xs|
  {
    n := 0;
    if xs != {} {
      var x :| x in xs;
      var m := FreshNat(xs - {x});
      n := if x < m then m else x + 1;
      forall y | y in xs ensures y < n {
        assert y == x || y in xs - {x};
      }
    }
  }

  /** Numbers that name no request, context or descriptor. */
  lemma {:induction false} Strangers(s: State) returns (r: ReqId, c: CtxId, fd: Fd)
    requires Inv(s)
    ensures r !in s.reqs && r !in s.places && r !in s.closed && c !in s.ctxs && fd !in s.open && fd !in s.epoll
    ensures Bundle(s, r, c, fd) && Owned(s, {}, {}, r, c)
  {
    hide Inv, Bundle, Owned;
    r := FreshNat(s.reqs.Keys + s.closed.Keys);
    c := FreshNat(s.ctxs.Keys);
    fd := FreshNat(s.open.Keys);
    Unclaimed(s, r, c, fd);
  }

  lemma {:induction false} FreeKeeps(s: State, w: Worker)
    requires Inv(s) && Enabled(s, Free(w))
    ensures Safe(s, Free(w)) && Inv(Do(s, Free(w)))
  {
    hide Inv, Places, SameBut, Movers, SameQueues, Live, Bundle, Owned;
    var c := Pc(s, w).ctx;
    OfWorker(s, w);
    var r, c', fd := Strangers(s);
    FreeOwned(s, w, r, c, c', fd);
    UnusedIsForgotten(s, w, c);
    hide Forgotten;
    var s' := Do(s, Free(w));
    WorkerEdits(s, s', w, Dispatch, r, c, fd, NOTHING.(ctx := Drop));
    LiveIff(s, r);
    LiveIff(s', r);
    SameLive(s, s', r, c, fd);
    WorkerStepKeeps(s, s', w, r, c, fd, 0);
  }

  /** A context that no request hangs on is in no epoll entry, in no batch and in no other worker's hands. */
  lemma {:induction false} UnusedIsForgotten(s: State, w: Worker, c: CtxId)
    requires Inv(s) && c in s.ctxs && s.ctxs[c].worker == w && Unused(s, c)
    ensures Forgotten(s, w, c)
  {
    hide Inv, Places, Unused;
    forall fd | fd in s.epoll ensures s.epoll[fd].ctx != c { EntryUsed(s, fd, c); }
    forall v: Worker
      ensures forall i :: 0 <= i < |Batch(s, v)| ==> Batch(s, v)[i].ctx != c
      ensures v != w && Pc(s, v) != Dispatch ==> Pc(s, v).ctx != c
    {
      OfWorker(s, v);
      forall i | 0 <= i < |Batch(s, v)| ensures Batch(s, v)[i].ctx != c {
        var e := Batch(s, v)[i];
        assert EventOk(s, v, e);
        AtUsed(s, v, e.ctx, Registered(e.ctx, e.ready), c);
      }
      WorkerUsed(s, v, w, c);
    }
  }

  lemma {:induction false} EntryUsed(s: State, fd: Fd, c: CtxId)
    requires Inv(s) && fd in s.epoll && Unused(s, c)
    ensures s.epoll[fd].ctx != c
  {
    hide BatchOk, QueueOk, Accounted, ActorOk, CtxOk, CountersOk, WorkerOk;
    var r := s.open[fd];
    assert PlaceOk(s, r) && c !in CtxOf(s.places[r]);
  }

  lemma {:induction false} AtUsed(s: State, v: Worker, d: CtxId, p: Place, c: CtxId)
    requires At(s, v, d, p) && d in CtxOf(p) && Unused(s, c)
    ensures d != c
  {
  }

  lemma {:induction false} WorkerUsed(s: State, v: Worker, w: Worker, c: CtxId)
    requires WorkerOk(s, v) && c in s.ctxs && s.ctxs[c].worker == w && Unused(s, c)
    ensures v != w && Pc(s, v) != Dispatch ==> Pc(s, v).ctx != c
  {
    if v != w {
      match Pc(s, v)
      case Dispatch =>
      case Adding(d) => AtUsed(s, v, d, Fresh(d), c);
      case Deleting(d) => AtUsed(s, v, d, Registered(d, In), c);
      case Pushing(d) => AtUsed(s, v, d, Detached(d), c);
      case Unlisting(d) => AtUsed(s, v, d, Closing(d), c);
      case Destroying(d) => AtUsed(s, v, d, Dead(d), c);
      case Rearming(d) => AtUsed(s, v, d, Registered(d, Out), c);
      case Freeing(d) =>
      case Releasing(d) =>
    }
  }

  lemma {:induction false} FreeOwned(s: State, w: Worker, r: ReqId, c: CtxId, c': CtxId, fd: Fd)
    requires Bundle(s, r, c', fd) && r !in s.places && r !in s.closed
    requires Pc(s, w) == Freeing(c) && c in s.ctxs && s.ctxs[c].worker == w && Unused(s, c)
    ensures Bundle(s, r, c, fd) && Owned(s, {w}, {}, r, c)
  {
  }

  /** The request of a closed connection belongs with its context and with no descriptor. */
  lemma {:induction false} ClosedAlone(s: State, w: Worker, c: CtxId, fd: Fd)
    requires Inv(s) && Pc(s, w) == Releasing(c) && fd !in s.open
    ensures c in s.ctxs && ReqOf(s, c) in s.closed && ReqOf(s, c) !in s.reqs && ReqOf(s, c) !in s.places
    ensures Bundle(s, ReqOf(s, c), c, fd) && Owned(s, {w}, {}, ReqOf(s, c), c) && Abandoned(s, ReqOf(s, c))
  {
    hide BatchOk, Accounted, CtxOk, CountersOk;
    assert WorkerOk(s, w);
    var r := s.ctxs[c].req;
    assert ClosedOk(s, r);
    forall x | x in s.places
      ensures c !in CtxOf(s.places[x]) && s.reqs[x].fd != fd
    {
      assert PlaceOk(s, x);
    }
    forall a: Actor, v: Worker ensures r !in Q(s, a, v) { assert QueueOk(s, a, v); }
    forall a: Actor ensures APc(s, a).Holding? || APc(s, a).Replying? ==> APc(s, a).req != r { assert ActorOk(s, a); }
  }

  lemma {:induction false} ReleaseKeeps(s: State, w: Worker)
    requires Inv(s) && Enabled(s, Release(w))
    ensures Safe(s, Release(w)) && Inv(Do(s, Release(w)))
  {
    hide Inv, Places, SameBut, Movers, SameQueues, Live, Bundle, Owned, Abandoned;
    var c := Pc(s, w).ctx;
    var _, _, fd := Strangers(s);
    OfWorker(s, w);
    ClosedAlone(s, w, c, fd);
    var r, s' := ReqOf(s, c), Do(s, Release(w));
    WorkerEdits(s, s', w, Freeing(c), r, c, fd, NOTHING.(closed := Drop));
    LiveIff(s, r);
    LiveIff(s', r);
    SameLive(s, s', r, c, fd);
    WorkerStepKeeps(s, s', w, r, c, fd, 0);
  }

  lemma {:induction false} WaitMoves(s: State, w: Worker, events: seq<Ev>, r: ReqId, c: CtxId, fd: Fd)
    requires Enabled(s, Wait(w, events))
    ensures var s' := Do(s, Wait(w, events));
      && SameBut(s, s', r, c, fd) && Movers(s, s', {w}, {}, r, c) && SameQueues(s, s')
      && Pc(s', w) == Dispatch && Batch(s', w) == events
  {
    hide SameBut;
    EditedSameBut(s, Do(s, Wait(w, events)), r, c, fd, NOTHING);
  }

  /** A delivered event speaks of a context of this worker, registered for just that and with the handler for it. */
  lemma {:induction false} DeliveredOk(s: State, w: Worker, events: seq<Ev>, i: nat)
    requires Inv(s) && Enabled(s, Wait(w, events)) && i < |events|
    ensures EventOk(s, w, events[i])
  {
    hide BatchOk, QueueOk, Accounted, ActorOk, CtxOk, CountersOk, WorkerOk;
    assert Delivers(s, w, events[i]);
    var fd :| fd in s.epoll && s.epoll[fd] == Reg(w, events[i].ctx, events[i].ready);
    var r := s.open[fd];
    assert PlaceOk(s, r);
  }

  lemma {:induction false} WaitKeeps(s: State, w: Worker, events: seq<Ev>)
    requires Inv(s) && Enabled(s, Wait(w, events))
    ensures Inv(Do(s, Wait(w, events)))
  {
    hide Inv, Places, SameBut, Movers, SameQueues, Live, Bundle, At, CtxOk;
    var r, c, fd := Strangers(s);
    var s' := Do(s, Wait(w, events));
    OfWorker(s, w);
    WaitMoves(s, w, events, r, c, fd);
    QueuesKept(s, s', r, c, fd);
    LiveIff(s, r);
    LiveIff(s', r);
    SameLive(s, s', r, c, fd);
    assert Owned(s, {w}, {}, r, c);
    hide Owned;
    forall i | 0 <= i < |events|
      ensures EventOk(s', w, events[i])
    {
      DeliveredOk(s, w, events, i);
      EventKept(s, w, events, events[i]);
    }
    Keeps(s, s', {w}, {}, r, c, fd);
  }

  lemma {:induction false} EventKept(s: State, w: Worker, events: seq<Ev>, e: Ev)
    requires Enabled(s, Wait(w, events)) && EventOk(s, w, e)
    ensures EventOk(Do(s, Wait(w, events)), w, e)
  {
  }

  // ---------------------------------------------------------------- actor steps

  /** Only actor `a` moved, to `pc`; the queues and notifications it does not drain are as before. */
  ghost predicate ActorMoved(s: State, s': State, a: Actor, pc: ActorPc, r: ReqId, c: CtxId, fd: Fd) {
    && SameBut(s, s', r, c, fd) && APc(s', a) == pc
    && (forall b: Actor :: b != a ==> APc(s', b) == APc(s, b))
    && (forall v: Worker :: Pc(s', v) == Pc(s, v) && Batch(s', v) == Batch(s, v))
    && (forall b: Actor, v: Worker :: b != a ==> Q(s', b, v) == Q(s, b, v) && Event(s', b, v) == Event(s, b, v))
  }

  lemma {:induction false} ActorEdits(s: State, s': State, a: Actor, pc: ActorPc, w: Worker, r: ReqId, c: CtxId, fd: Fd,
      f: Footprint, q: Edit<seq<ReqId>>, e: Edit<nat>)
    requires Edited(s, s', r, c, fd, f)
    requires s'.actors == s.actors[a := pc] && s'.workers == s.workers && s'.batches == s.batches
    requires s'.queues == Apply(s.queues, (a, w), q) && s'.events == Apply(s.events, (a, w), e)
    ensures ActorMoved(s, s', a, pc, r, c, fd)
    ensures forall v: Worker :: v != w ==> Q(s', a, v) == Q(s, a, v) && Event(s', a, v) == Event(s, a, v)
  {
    hide SameBut, Edited;
    EditedSameBut(s, s', r, c, fd, f);
  }

  lemma {:induction false} ActorFrame(s: State, s': State, a: Actor, pc: ActorPc, r: ReqId, c: CtxId, fd: Fd)
    requires ActorMoved(s, s', a, pc, r, c, fd) && Bundle(s, r, c, fd) && Owned(s, {}, {a}, r, c)
    requires APc(s, a).Holding? || APc(s, a).Replying? ==> APc(s, a).req == r
    requires forall v: Worker, x :: x != r && x in Q(s, a, v) ==> x in Q(s', a, v)
    ensures Frame(s, s', {}, {a}, r, c, fd)
  {
    hide SameBut, Bundle, Owned;
  }

  /** Queues of other actors, and what the new state owes this one's. */
  lemma {:induction false} ActorQueues(s: State, s': State, a: Actor, pc: ActorPc, w: Worker, r: ReqId, c: CtxId,
      fd: Fd)
    requires Inv(s) && ActorMoved(s, s', a, pc, r, c, fd)
    requires r in s.places && s.places[r].Queued? ==>
      s.places[r] == Queued(a) && r in s.reqs && s.reqs[r].worker == w
    requires forall v: Worker :: v != w ==> Q(s', a, v) == Q(s, a, v) && Event(s', a, v) == Event(s, a, v)
    requires forall v: Worker :: v != w ==> Owed(s', a, v) == Owed(s, a, v)
    requires QueueOk(s', a, w) && Accounted(s', a, w)
    ensures forall b: Actor, v: Worker :: QueueOk(s', b, v) && Accounted(s', b, v)
  {
    hide BatchOk, PlaceOk, ActorOk, CtxOk, CountersOk, WorkerOk, Descriptors, SameBut;
    forall b: Actor, v: Worker
      ensures QueueOk(s', b, v) && Accounted(s', b, v)
    {
      assert QueueOk(s, b, v) && Accounted(s, b, v);
      if b != a || v != w {
        NotQueuedHere(s, b, v, a, w, r);
        OtherQueue(s, s', r, c, fd, b, v);
      }
    }
  }

  lemma {:induction false} NotQueuedHere(s: State, b: Actor, v: Worker, a: Actor, w: Worker, r: ReqId)
    requires QueueOk(s, b, v) && (b != a || v != w)
    requires r in s.places && s.places[r].Queued? ==>
      s.places[r] == Queued(a) && r in s.reqs && s.reqs[r].worker == w
    ensures r !in Q(s, b, v)
  {
  }

  /** Steps of an actor that take no request: the start and the end of a round. */
  lemma {:induction false} IdleStepKeeps(s: State, s': State, a: Actor, pc: ActorPc, w: Worker, e: Edit<nat>)
    requires Inv(s) && !APc(s, a).Holding? && !APc(s, a).Replying? && !pc.Holding? && !pc.Replying?
    requires s' == s.(actors := s.actors[a := pc], events := Apply(s.events, (a, w), e))
    requires forall v: Worker :: v != w ==> Owed(s', a, v) == Owed(s, a, v)
    requires Event(s', a, w) + Owed(s', a, w) == Event(s, a, w) + Owed(s, a, w)
    ensures Inv(s')
  {
    hide Inv, SameBut, Live, Bundle, Owned, Places, Frame;
    var r, c, fd := Strangers(s);
    ActorEdits(s, s', a, pc, w, r, c, fd, NOTHING, Keep, e);
    OwnedMore(s, a, r, c);
    ActorFrame(s, s', a, pc, r, c, fd);
    OfQueue(s, a, w);
    OtherQueueAlone(s, s', r, c, fd, a, w);
    ActorQueues(s, s', a, pc, w, r, c, fd);
    LiveIff(s, r);
    LiveIff(s', r);
    SameLive(s, s', r, c, fd);
    OfWorker(s, 0);
    Keeps(s, s', {}, {a}, r, c, fd);
  }

  lemma {:induction false} OwnedMore(s: State, a: Actor, r: ReqId, c: CtxId)
    requires Owned(s, {}, {}, r, c)
    ensures Owned(s, {}, {a}, r, c)
  {
  }

  lemma {:induction false} OtherQueueAlone(s: State, s': State, r: ReqId, c: CtxId, fd: Fd, a: Actor, w: Worker)
    requires SameBut(s, s', r, c, fd) && QueueOk(s, a, w) && Q(s', a, w) == Q(s, a, w) && r !in s.places
    ensures QueueOk(s', a, w)
  {
    OtherQueue(s, s', r, c, fd, a, w);
  }

  lemma {:induction false} ReadEventKeeps(s: State, a: Actor, w: Worker)
    requires Inv(s) && Enabled(s, ReadEvent(a, w))
    ensures Inv(Do(s, ReadEvent(a, w)))
  {
    hide Inv;
    var s' := Do(s, ReadEvent(a, w));
    IdleStepKeeps(s, s', a, Draining(w, Event(s, a, w)), w, Put(0));
  }

  lemma {:induction false} RoundDoneKeeps(s: State, a: Actor)
    requires Inv(s) && Enabled(s, RoundDone(a))
    ensures Inv(Do(s, RoundDone(a)))
  {
    hide Inv;
    IdleStepKeeps(s, Do(s, RoundDone(a)), a, Waiting, APc(s, a).worker, Keep);
  }

  /** What an actor has in hand, or finds at the head of the queue it drains. */
  lemma {:induction false} OfActor(s: State, a: Actor, r: ReqId, c: CtxId)
    requires Inv(s) && r in s.places && (s.places[r] == Queued(a) || s.places[r] == Held(a)) && c !in s.ctxs
    ensures r in s.reqs && PlaceOk(s, r) && Bundle(s, r, c, s.reqs[r].fd) && Owned(s, {}, {a}, r, c)
    ensures r !in s.closed
  {
    hide BatchOk, QueueOk, Accounted, ActorOk, CtxOk, CountersOk, WorkerOk, Descriptors;
    assert PlaceOk(s, r);
    assert r in s.closed ==> ClosedOk(s, r);
    BundleOf(s, r, c);
  }

  /** The actor finds a request: a round never pops more than there is. */
  lemma {:induction false} PopFinds(s: State, a: Actor)
    requires Inv(s) && Enabled(s, Pop(a))
    ensures !PopsNull(s, Pop(a)) && Q(s, a, APc(s, a).worker) != []
  {
    hide Inv;
    OfQueue(s, a, APc(s, a).worker);
  }

  lemma {:induction false} TailOk(s: State, s': State, a: Actor, w: Worker, c: CtxId, fd: Fd)
    requires Q(s, a, w) != [] && SameBut(s, s', Q(s, a, w)[0], c, fd) && QueueOk(s, a, w)
    requires Q(s', a, w) == Q(s, a, w)[1..]
    ensures QueueOk(s', a, w)
    ensures forall x :: x != Q(s, a, w)[0] && x in Q(s, a, w) ==> x in Q(s', a, w)
  {
    var q, q' := Q(s, a, w), Q(s', a, w);
    forall i | 0 <= i < |q'|
      ensures q'[i] in s'.places && q'[i] in s'.reqs && s'.places[q'[i]] == Queued(a) && s'.reqs[q'[i]].worker == w
    {
      assert q'[i] == q[i + 1] && q[i + 1] != q[0];
    }
    assert q == [q[0]] + q';
  }

  /** What a step of actor `a` on request `r`, taken from worker `w`, must leave in order. */
  ghost predicate Handled(s: State, s': State, a: Actor, w: Worker, r: ReqId, c: CtxId, fd: Fd) {
    && r in s.places && r in s.reqs && s.reqs[r].fd == fd && (s.places[r].Queued? || s.places[r].Held?)
    && r in s'.places && r in s'.reqs && s'.reqs[r].fd == fd && PlaceOk(s', r)
    && (s'.places[r].Held? || (s'.places[r].Registered? && s'.places[r].ctx == c))
    && ActorOk(s', a) && (c in s'.ctxs ==> CtxOk(s', c))
    && s'.open == s.open && fd in s.open && s.open[fd] == r && s'.counters == s.counters && s'.closed == s.closed
    && Event(s', a, w) == Event(s, a, w) && |Q(s', a, w)| - |Q(s, a, w)| == Owed(s', a, w) - Owed(s, a, w)
    && (forall v: Worker :: v != w ==> Owed(s', a, v) == Owed(s, a, v))
  }

  lemma {:induction false} ActorStepKeeps(s: State, s': State, a: Actor, pc: ActorPc, w: Worker, r: ReqId, c: CtxId,
      fd: Fd)
    requires Inv(s) && ActorMoved(s, s', a, pc, r, c, fd) && Handled(s, s', a, w, r, c, fd)
    requires c !in s.ctxs && (s.places[r] == Queued(a) || s.places[r] == Held(a)) && s.reqs[r].worker == w
    requires APc(s, a).Holding? || APc(s, a).Replying? ==> APc(s, a).req == r
    requires forall v: Worker :: v != w ==> Q(s', a, v) == Q(s, a, v) && Event(s', a, v) == Event(s, a, v)
    requires QueueOk(s', a, w) && forall x :: x != r && x in Q(s, a, w) ==> x in Q(s', a, w)
    ensures Inv(s')
  {
    hide Inv, SameBut, Live, Bundle, Owned, Frame, PlaceOk, CtxOk, QueueOk, ActorOk;
    OfQueue(s, a, w);
    OfActor(s, a, r, c);
    ActorFrame(s, s', a, pc, r, c, fd);
    ActorQueues(s, s', a, pc, w, r, c, fd);
    LiveIff(s, r);
    LiveIff(s', r);
    SameLive(s, s', r, c, fd);
    OfWorker(s, 0);
    Keeps(s, s', {}, {a}, r, c, fd);
  }

  lemma {:induction false} PopLocal(s: State, a: Actor, c: CtxId)
    requires Enabled(s, Pop(a)) && Q(s, a, APc(s, a).worker) != [] && c !in s.ctxs
    requires var w := APc(s, a).worker; var r := Q(s, a, w)[0];
      r in s.places && r in s.reqs && s.places[r] == Queued(a) && s.reqs[r].worker == w && PlaceOk(s, r)
    ensures var w := APc(s, a).worker; var r := Q(s, a, w)[0]; var s' := Do(s, Pop(a));
      Handled(s, s', a, w, r, c, s.reqs[r].fd) && Q(s', a, w) == Q(s, a, w)[1..]
  {
  }

  lemma {:induction false} PopMoves(s: State, a: Actor, c: CtxId, fd: Fd)
    requires Enabled(s, Pop(a)) && Q(s, a, APc(s, a).worker) != []
    ensures var d := APc(s, a); var w := d.worker; var r := Q(s, a, w)[0]; var s' := Do(s, Pop(a));
      && ActorMoved(s, s', a, Holding(w, d.left, r), r, c, fd)
      && forall v: Worker :: v != w ==> Q(s', a, v) == Q(s, a, v) && Event(s', a, v) == Event(s, a, v)
  {
    hide ActorMoved;
    var d := APc(s, a);
    var r := Q(s, a, d.worker)[0];
    ActorEdits(s, Do(s, Pop(a)), a, Holding(d.worker, d.left, r), d.worker, r, c, fd,
               NOTHING.(place := Put(Held(a))), Put(Q(s, a, d.worker)[1..]), Keep);
  }

  lemma {:induction false} PopKeeps(s: State, a: Actor)
    requires Inv(s) && Enabled(s, Pop(a))
    ensures Inv(Do(s, Pop(a)))
  {
    hide Inv, SameBut, Bundle, Owned, PlaceOk, Handled;
    var d := APc(s, a);
    var w := d.worker;
    PopFinds(s, a);
    OfQueue(s, a, w);
    var r := Q(s, a, w)[0];
    var _, c, _ := Strangers(s);
    OfActor(s, a, r, c);
    var fd := s.reqs[r].fd;
    PopLocal(s, a, c);
    PopMoves(s, a, c, fd);
    var s' := Do(s, Pop(a));
    hide Do;
    TailOk(s, s', a, w, c, fd);
    ActorStepKeeps(s, s', a, Holding(w, d.left, r), w, r, c, fd);
  }

  /** What an actor with a request in hand knows about it. */
  lemma {:induction false} InActorsHand(s: State, a: Actor, c: CtxId)
    requires Inv(s) && (APc(s, a).Holding? || APc(s, a).Replying?) && c !in s.ctxs
    ensures var h := APc(s, a);
      && h.left > 0 && h.req in s.places && s.places[h.req] == Held(a) && PlaceOk(s, h.req) && Usable(s, h.req)
      && s.reqs[h.req].worker == h.worker && QueueOk(s, a, h.worker)
  {
    hide Inv;
    OfQueue(s, a, APc(s, a).worker);
    OfActor(s, a, APc(s, a).req, c);
  }

  lemma {:induction false} WorkLocal(s: State, a: Actor, c: CtxId)
    requires Enabled(s, Work(a)) && Safe(s, Work(a)) && APc(s, a).left > 0 && c !in s.ctxs
    requires var h := APc(s, a);
      && h.req in s.places && s.places[h.req] == Held(a) && PlaceOk(s, h.req) && s.reqs[h.req].worker == h.worker
    ensures var h := APc(s, a); Handled(s, Do(s, Work(a)), a, h.worker, h.req, c, s.reqs[h.req].fd)
  {
    assert {TotalTime, QueueTime} - {QueueTime} == {TotalTime};
  }

  lemma {:induction false} WorkKeeps(s: State, a: Actor)
    requires Inv(s) && Enabled(s, Work(a))
    ensures Safe(s, Work(a)) && Inv(Do(s, Work(a)))
  {
    hide Inv, SameBut, ActorMoved, Handled;
    var h := APc(s, a);
    var w, r := h.worker, h.req;
    var _, c, _ := Strangers(s);
    InActorsHand(s, a, c);
    var fd := s.reqs[r].fd;
    var s' := Do(s, Work(a));
    WorkLocal(s, a, c);
    var req := s.reqs[r].(running := s.reqs[r].running - {QueueTime});
    ActorEdits(s, s', a, Replying(w, h.left, r), w, r, c, fd, NOTHING.(req := Put(req)), Keep, Keep);
    hide Do, PlaceOk;
    HeldLeavesQueue(s, s', a, Replying(w, h.left, r), w, r, c, fd);
    ActorStepKeeps(s, s', a, Replying(w, h.left, r), w, r, c, fd);
  }

  /** A queue stays in order when a request that is not in it moves. */
  lemma {:induction false} HeldLeavesQueue(s: State, s': State, a: Actor, pc: ActorPc, w: Worker, r: ReqId, c: CtxId,
      fd: Fd)
    requires ActorMoved(s, s', a, pc, r, c, fd) && QueueOk(s, a, w) && Q(s', a, w) == Q(s, a, w)
    requires r in s.places && !s.places[r].Queued?
    ensures QueueOk(s', a, w)
  {
    OtherQueue(s, s', r, c, fd, a, w);
  }

  lemma {:induction false} ReplyLocal(s: State, a: Actor, c: CtxId)
    requires Enabled(s, Reply(a, c)) && Safe(s, Reply(a, c)) && APc(s, a).left > 0
    requires var h := APc(s, a);
      && h.req in s.places && s.places[h.req] == Held(a) && PlaceOk(s, h.req) && s.reqs[h.req].worker == h.worker
    ensures var h := APc(s, a); Handled(s, Do(s, Reply(a, c)), a, h.worker, h.req, c, s.reqs[h.req].fd)
  {
  }

  lemma {:induction false} ReplyKeeps(s: State, a: Actor, c: CtxId)
    requires Inv(s) && Enabled(s, Reply(a, c))
    ensures Safe(s, Reply(a, c)) && Inv(Do(s, Reply(a, c)))
  {
    hide Inv, SameBut, ActorMoved, Handled;
    var h := APc(s, a);
    var w, r := h.worker, h.req;
    InActorsHand(s, a, c);
    var fd := s.reqs[r].fd;
    var s' := Do(s, Reply(a, c));
    ReplyLocal(s, a, c);
    ActorEdits(s, s', a, Draining(w, h.left - 1), w, r, c, fd,
               NOTHING.(place := Put(Registered(c, Out)), ctx := Put(SockCtx(r, Out, w)), reg := Put(Reg(w, c, Out))),
               Keep, Keep);
    hide Do, PlaceOk;
    HeldLeavesQueue(s, s', a, Draining(w, h.left - 1), w, r, c, fd);
    ActorStepKeeps(s, s', a, Draining(w, h.left - 1), w, r, c, fd);
  }

  // ---------------------------------------------------------------- in the middle of something

  /** The steps of a worker on the context it has in hand. */
  predicate InHandStep(st: Step) { st.Add? || st.Delete? || st.Push? || st.Unlist? || st.Destroy? || st.Rearm? }

  /** What the worker's place in its code says about the context in its hand. */
  function HandPlace(s: State, w: Worker): Place
    requires Pc(s, w) != Dispatch && !Pc(s, w).Freeing? && !Pc(s, w).Releasing?
  {
    match Pc(s, w)
    case Adding(c) => Fresh(c)
    case Deleting(c) => Registered(c, In)
    case Pushing(c) => Detached(c)
    case Unlisting(c) => Closing(c)
    case Destroying(c) => Dead(c)
    case Rearming(c) => Registered(c, Out)
  }

  lemma {:induction false} HandAt(s: State, w: Worker)
    requires Inv(s) && Pc(s, w) != Dispatch && !Pc(s, w).Freeing? && !Pc(s, w).Releasing?
    ensures var c := Pc(s, w).ctx;
      && At(s, w, c, HandPlace(s, w)) && c in CtxOf(HandPlace(s, w))
      && Alive(s, c) && PlaceOk(s, ReqOf(s, c)) && s.reqs[ReqOf(s, c)].worker == w && s.ctxs[c].worker == w
      && (InEpoll(HandPlace(s, w)) ==> Listed(s, c)) && Bundle(s, ReqOf(s, c), c, FdOf(s, c))
  {
    hide Inv, Bundle, PlaceOk, Owned, Listed;
    OfWorker(s, w);
    InHand(s, w, Pc(s, w).ctx, HandPlace(s, w));
  }

  // ---------------------------------------------------------------- all steps

  /** Whatever step a thread takes next, nothing goes wrong in it, and the invariant holds afterwards. */
  lemma {:induction false} StepKeeps(s: State, st: Step)
    requires Inv(s) && Enabled(s, st)
    ensures Safe(s, st) && !PopsNull(s, st)
    ensures !Halts(s, st) ==> Inv(Do(s, st))
  {
    hide Inv, Do;
    match st
    case Wait(w, events) => WaitKeeps(s, w, events);
    case Accept(w, fd, r, c) => AcceptKeeps(s, w, fd, r, c);
    case Add(w) => AddKeeps(s, w);
    case Handle(w, outcome) => HandleKeeps(s, w, outcome);
    case Delete(w) => DeleteKeeps(s, w);
    case Push(w, a) => PushKeeps(s, w, a);
    case Free(w) => FreeKeeps(s, w);
    case Unlist(w) => UnlistKeeps(s, w);
    case Destroy(w) => DestroyKeeps(s, w);
    case Release(w) => ReleaseKeeps(s, w);
    case Rearm(w) => RearmKeeps(s, w);
    case ReadEvent(a, from) => ReadEventKeeps(s, a, from);
    case Pop(a) => PopFinds(s, a); PopKeeps(s, a);
    case Work(a) => WorkKeeps(s, a);
    case Reply(a, c) => ReplyKeeps(s, a, c);
    case RoundDone(a) => RoundDoneKeeps(s, a);
  }
}
