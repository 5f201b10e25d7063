/** What every state of every run satisfies, entity by entity. */
module LifecycleInv {
  import opened RequestStats
  import opened Lifecycle

  /** The context a stage hangs on, if any. */
  function CtxOf(p: Place): set<CtxId> {
    match p
    case Queued(_) => {}
    case Held(_) => {}
    case Registered(c, _) => {c}
    case Fresh(c) => {c}
    case Detached(c) => {c}
    case Closing(c) => {c}
    case Dead(c) => {c}
  }

  predicate InEpoll(p: Place) { p.Registered? || p.Closing? }

  /** The stage says where the request's descriptor, context, worker, queue and actor stand, and what is timed. */
  ghost predicate PlaceOk(s: State, r: ReqId)
    requires r in s.places && r in s.reqs
  {
    var q := s.reqs[r];
    && q.fd in s.open && s.open[q.fd] == r
    && (q.fd in s.epoll <==> InEpoll(s.places[r]))
    && (forall c :: c in CtxOf(s.places[r]) ==> c in s.ctxs && s.ctxs[c].req == r && s.ctxs[c].worker == q.worker)
    && match s.places[r]
       case Fresh(c) => Pc(s, q.worker) == Adding(c) && q.running == {TotalTime} && s.ctxs[c].mode == In
       case Registered(c, i) =>
         && s.epoll[q.fd] == Reg(q.worker, c, i) && q.running == {TotalTime}
         && (s.ctxs[c].mode == i || Pc(s, q.worker) == Rearming(c))
       case Detached(c) => Pc(s, q.worker) == Pushing(c) && q.running == {TotalTime}
       case Queued(a) => r in Q(s, a, q.worker) && q.running == {TotalTime, QueueTime}
       case Held(a) =>
         || (APc(s, a).Holding? && APc(s, a).req == r && q.running == {TotalTime, QueueTime})
         || (APc(s, a).Replying? && APc(s, a).req == r && q.running == {TotalTime})
       case Closing(c) =>
         && Pc(s, q.worker) == Unlisting(c) && q.running == {}
         && s.epoll[q.fd].worker == q.worker && s.epoll[q.fd].ctx == c
       case Dead(c) => Pc(s, q.worker) == Destroying(c) && q.running == {}
  }

  /** The request of a context is at the given stage, and the context is worker `w`'s. */
  ghost predicate At(s: State, w: Worker, c: CtxId, p: Place) {
    && c in s.ctxs && s.ctxs[c].worker == w
    && s.ctxs[c].req in s.places && s.places[s.ctxs[c].req] == p
  }

  /** No request hangs on this context. */
  ghost predicate Unused(s: State, c: CtxId) {
    forall r :: r in s.places ==> c !in CtxOf(s.places[r])
  }

  ghost predicate WorkerOk(s: State, w: Worker) {
    match Pc(s, w)
    case Dispatch => true
    case Adding(c) => At(s, w, c, Fresh(c))
    case Deleting(c) => At(s, w, c, Registered(c, In)) && s.ctxs[c].mode == In
    case Pushing(c) => At(s, w, c, Detached(c))
    case Freeing(c) => c in s.ctxs && s.ctxs[c].worker == w && Unused(s, c)
    case Releasing(c) =>
      && c in s.ctxs && s.ctxs[c].worker == w && Unused(s, c)
      && s.ctxs[c].req in s.closed && s.closed[s.ctxs[c].req] == c
    case Unlisting(c) => At(s, w, c, Closing(c))
    case Destroying(c) => At(s, w, c, Dead(c))
    case Rearming(c) => At(s, w, c, Registered(c, Out)) && s.ctxs[c].mode == In
  }

  ghost predicate EventOk(s: State, w: Worker, e: Ev) {
    At(s, w, e.ctx, Registered(e.ctx, e.ready)) && s.ctxs[e.ctx].mode == e.ready
  }

  /** The events still to be handled speak of registered contexts, each once, and not of the one in hand. */
  ghost predicate BatchOk(s: State, w: Worker) {
    && (forall i :: 0 <= i < |Batch(s, w)| ==> EventOk(s, w, Batch(s, w)[i]))
    && (forall i, j :: 0 <= i < j < |Batch(s, w)| ==> Batch(s, w)[i].ctx != Batch(s, w)[j].ctx)
    && (Pc(s, w) != Dispatch ==> forall i :: 0 <= i < |Batch(s, w)| ==> Batch(s, w)[i].ctx != Pc(s, w).ctx)
  }

  ghost predicate QueueOk(s: State, a: Actor, w: Worker) {
    && |Q(s, a, w)| <= QUEUE_CAPACITY
    && (forall i :: 0 <= i < |Q(s, a, w)| ==>
          && Q(s, a, w)[i] in s.places && Q(s, a, w)[i] in s.reqs
          && s.places[Q(s, a, w)[i]] == Queued(a) && s.reqs[Q(s, a, w)[i]].worker == w)
    && (forall i, j :: 0 <= i < j < |Q(s, a, w)| ==> Q(s, a, w)[i] != Q(s, a, w)[j])
  }

  /** Pops of queue (a, w) that actor a still owes. */
  function Owed(s: State, a: Actor, w: Worker): nat {
    match APc(s, a)
    case Waiting => 0
    case Draining(v, left) => if v == w then left else 0
    case Holding(v, left, _) => if v == w && left > 0 then left - 1 else 0
    case Replying(v, left, _) => if v == w && left > 0 then left - 1 else 0
  }

  /** The queue holds one request for every notification not yet read and every pop still owed. */
  ghost predicate Accounted(s: State, a: Actor, w: Worker) {
    |Q(s, a, w)| == Event(s, a, w) + Owed(s, a, w)
  }

  /** The request came from worker `w` and actor `a` holds it. */
  ghost predicate InHands(s: State, a: Actor, w: Worker, r: ReqId) {
    r in s.places && r in s.reqs && s.places[r] == Held(a) && s.reqs[r].worker == w
  }

  ghost predicate ActorOk(s: State, a: Actor) {
    match APc(s, a)
    case Holding(w, left, r) => left > 0 && InHands(s, a, w, r)
    case Replying(w, left, r) => left > 0 && InHands(s, a, w, r)
    case _ => true
  }

  /** Every context is hung on by its request, or about to be freed by its worker: none is lost. */
  ghost predicate CtxOk(s: State, c: CtxId)
    requires c in s.ctxs
  {
    || Pc(s, s.ctxs[c].worker) == Freeing(c) || Pc(s, s.ctxs[c].worker) == Releasing(c)
    || (s.ctxs[c].req in s.places && c in CtxOf(s.places[s.ctxs[c].req]))
  }

  /** A closed request is no other's memory, and about to be freed by the worker that closed it: none is lost. */
  ghost predicate ClosedOk(s: State, r: ReqId)
    requires r in s.closed
  {
    && r !in s.reqs && s.closed[r] in s.ctxs && s.ctxs[s.closed[r]].req == r
    && Pc(s, s.ctxs[s.closed[r]].worker) == Releasing(s.closed[r])
  }

  /** Requests that are not on their way out. */
  ghost function Live(s: State): set<ReqId> {
    set r | r in s.places && !s.places[r].Closing? && !s.places[r].Dead?
  }

  ghost predicate CountersOk(s: State) {
    var k := s.counters;
    k.active == k.accepted - k.closed == |Live(s)| && k.total == k.resets + k.closed
  }

  ghost predicate Places(s: State) {
    && s.places.Keys == s.reqs.Keys
    && (forall r :: r in s.places ==> PlaceOk(s, r))
  }

  ghost predicate Descriptors(s: State) {
    && (forall fd :: fd in s.open ==> s.open[fd] in s.reqs && s.reqs[s.open[fd]].fd == fd)
    && (forall fd :: fd in s.epoll ==> fd in s.open)
  }

  ghost predicate Inv(s: State) {
    && Places(s)
    && Descriptors(s)
    && (forall w :: WorkerOk(s, w))
    && (forall w :: BatchOk(s, w))
    && (forall a, w :: QueueOk(s, a, w))
    && (forall a, w :: Accounted(s, a, w))
    && (forall a :: ActorOk(s, a))
    && (forall c :: c in s.ctxs ==> CtxOk(s, c))
    && (forall r :: r in s.closed ==> ClosedOk(s, r))
    && CountersOk(s)
  }

  lemma InitialInv()
    ensures Inv(INITIAL)
  {
    assert Live(INITIAL) == {};
  }

  // ---------------------------------------------------------------- what a step leaves alone

  /** Two maps agree on every key but `k`. */
  ghost predicate AgreeBut<K(!new), V>(m: map<K, V>, m': map<K, V>, k: K) {
    && (forall x :: x != k ==> (x in m <==> x in m'))
    && (forall x :: x != k && x in m ==> m'[x] == m[x])
  }

  /** `s'` differs from `s` at most at request `r`, context `c` and descriptor `fd`. */
  ghost predicate SameBut(s: State, s': State, r: ReqId, c: CtxId, fd: Fd) {
    && AgreeBut(s.places, s'.places, r) && AgreeBut(s.reqs, s'.reqs, r) && AgreeBut(s.ctxs, s'.ctxs, c)
    && AgreeBut(s.epoll, s'.epoll, fd) && AgreeBut(s.open, s'.open, fd) && AgreeBut(s.closed, s'.closed, r)
  }

  /** The three belong together: nothing else uses `c` or `fd`, and `r` uses no other context or descriptor. */
  ghost predicate Bundle(s: State, r: ReqId, c: CtxId, fd: Fd) {
    && (forall x :: x in s.places && x != r ==> c !in CtxOf(s.places[x]))
    && (forall x :: x in s.reqs && x != r ==> s.reqs[x].fd != fd)
    && (r in s.places ==> CtxOf(s.places[r]) <= {c})
  }

  /** Only the threads named moved, and what they had in hand is `c` or `r`. */
  ghost predicate Movers(s: State, s': State, ws: set<Worker>, actors: set<Actor>, r: ReqId, c: CtxId) {
    && (forall v :: v !in ws ==> Pc(s', v) == Pc(s, v) && Batch(s', v) == Batch(s, v))
    && (forall b :: b !in actors ==> APc(s', b) == APc(s, b))
    && (forall v :: v in ws ==> Pc(s, v) == Dispatch || Pc(s, v).ctx == c)
    && (forall b :: b in actors && (APc(s, b).Holding? || APc(s, b).Replying?) ==> APc(s, b).req == r)
  }

  /** `r` and `c` were in the hands of a thread that moved. */
  ghost predicate Owned(s: State, ws: set<Worker>, actors: set<Actor>, r: ReqId, c: CtxId) {
    && (c in s.ctxs ==> s.ctxs[c].worker in ws)
    && (c in s.ctxs && Pc(s, s.ctxs[c].worker) == Releasing(c) ==> s.ctxs[c].req == r)
    && (r in s.closed ==> s.closed[r] == c)
    && (r in s.places ==> r in s.reqs)
    && (r in s.places && (s.places[r].Queued? || s.places[r].Held?) ==> s.places[r].actor in actors)
    && (r in s.places && !s.places[r].Queued? && !s.places[r].Held? ==> s.reqs[r].worker in ws)
  }

  ghost predicate OthersStayQueued(s: State, s': State, r: ReqId) {
    forall b, v, x :: x != r && x in Q(s, b, v) ==> x in Q(s', b, v)
  }

  ghost predicate Frame(s: State, s': State, ws: set<Worker>, actors: set<Actor>, r: ReqId, c: CtxId, fd: Fd) {
    SameBut(s, s', r, c, fd) && Bundle(s, r, c, fd) && Movers(s, s', ws, actors, r, c) && Owned(s, ws, actors, r, c)
    && OthersStayQueued(s, s', r)
  }

  lemma {:induction false} OtherPlace(s: State, s': State, ws: set<Worker>, actors: set<Actor>, r: ReqId, c: CtxId,
      fd: Fd, x: ReqId)
    requires Frame(s, s', ws, actors, r, c, fd)
    requires s.places.Keys == s.reqs.Keys && x in s'.places && x != r
    requires x in s.places && PlaceOk(s, x)
    ensures x in s'.reqs && PlaceOk(s', x)
  {
    var q := s.reqs[x];
    assert q.fd != fd;
    match s.places[x]
    case Queued(a) =>
      assert x in Q(s', a, q.worker);
    case Held(a) =>
      assert a !in actors;
    case _ =>
      assert c !in CtxOf(s.places[x]);
  }

  /** A context in another worker's hands, and its request, are untouched. */
  lemma {:induction false} AtKept(s: State, s': State, ws: set<Worker>, actors: set<Actor>, r: ReqId, c: CtxId,
      fd: Fd, v: Worker, d: CtxId, p: Place)
    requires Frame(s, s', ws, actors, r, c, fd) && Places(s) && At(s, v, d, p) && d in CtxOf(p) && (v !in ws || d != c)
    ensures At(s', v, d, p) && s'.ctxs[d] == s.ctxs[d]
  {
    hide OthersStayQueued, Movers;
    var x := s.ctxs[d].req;
    assert PlaceOk(s, x);
    assert s.reqs[x].worker == v;
    assert d != c && x != r;
  }

  lemma {:induction false} UnusedKept(s: State, s': State, r: ReqId, c: CtxId, fd: Fd, d: CtxId)
    requires SameBut(s, s', r, c, fd) && Unused(s, d) && d != c
    requires r in s'.places ==> CtxOf(s'.places[r]) <= {c}
    ensures Unused(s', d)
  {
    forall x | x in s'.places
      ensures d !in CtxOf(s'.places[x])
    {
      if x != r {
        assert x in s.places;
      }
    }
  }

  lemma {:induction false} OtherWorker(s: State, s': State, ws: set<Worker>, actors: set<Actor>, r: ReqId, c: CtxId,
      fd: Fd, v: Worker)
    requires Frame(s, s', ws, actors, r, c, fd) && Places(s) && WorkerOk(s, v) && v !in ws
    requires r in s'.places ==> CtxOf(s'.places[r]) <= {c}
    ensures WorkerOk(s', v)
  {
    hide OthersStayQueued, SameBut, Bundle, Places, At, Unused;
    var pc := Pc(s, v);
    assert Pc(s', v) == pc;
    match pc
    case Dispatch =>
    case Adding(d) => AtKept(s, s', ws, actors, r, c, fd, v, d, Fresh(d));
    case Deleting(d) => AtKept(s, s', ws, actors, r, c, fd, v, d, Registered(d, In));
    case Pushing(d) => AtKept(s, s', ws, actors, r, c, fd, v, d, Detached(d));
    case Unlisting(d) => AtKept(s, s', ws, actors, r, c, fd, v, d, Closing(d));
    case Destroying(d) => AtKept(s, s', ws, actors, r, c, fd, v, d, Dead(d));
    case Rearming(d) => AtKept(s, s', ws, actors, r, c, fd, v, d, Registered(d, Out));
    case Freeing(d) =>
      CtxKept(s, s', r, c, fd, d);
      UnusedKept(s, s', r, c, fd, d);
    case Releasing(d) =>
      CtxKept(s, s', r, c, fd, d);
      UnusedKept(s, s', r, c, fd, d);
      StillClosed(s, s', r, c, fd, s.ctxs[d].req);
  }

  lemma {:induction false} StillClosed(s: State, s': State, r: ReqId, c: CtxId, fd: Fd, x: ReqId)
    requires SameBut(s, s', r, c, fd) && x != r && x in s.closed
    ensures x in s'.closed && s'.closed[x] == s.closed[x]
  {
  }

  lemma {:induction false} CtxKept(s: State, s': State, r: ReqId, c: CtxId, fd: Fd, d: CtxId)
    requires SameBut(s, s', r, c, fd) && d != c && d in s.ctxs
    ensures d in s'.ctxs && s'.ctxs[d] == s.ctxs[d]
  {
  }

  lemma {:induction false} OtherBatch(s: State, s': State, ws: set<Worker>, actors: set<Actor>, r: ReqId, c: CtxId,
      fd: Fd, v: Worker)
    requires Frame(s, s', ws, actors, r, c, fd) && Places(s) && BatchOk(s, v) && v !in ws
    ensures BatchOk(s', v)
  {
    hide OthersStayQueued, SameBut, Bundle, Places, At;
    assert Pc(s', v) == Pc(s, v) && Batch(s', v) == Batch(s, v);
    forall i | 0 <= i < |Batch(s', v)|
      ensures EventOk(s', v, Batch(s', v)[i])
    {
      var e := Batch(s, v)[i];
      assert EventOk(s, v, e);
      AtKept(s, s', ws, actors, r, c, fd, v, e.ctx, Registered(e.ctx, e.ready));
    }
  }

  lemma {:induction false} OtherContext(s: State, s': State, ws: set<Worker>, actors: set<Actor>, r: ReqId, c: CtxId,
      fd: Fd, x: CtxId)
    requires Frame(s, s', ws, actors, r, c, fd) && x in s'.ctxs && x != c
    requires x in s.ctxs ==> CtxOk(s, x)
    ensures CtxOk(s', x)
  {
    hide OthersStayQueued;
  }

  lemma {:induction false} OtherClosed(s: State, s': State, ws: set<Worker>, actors: set<Actor>, r: ReqId, c: CtxId,
      fd: Fd, x: ReqId)
    requires Frame(s, s', ws, actors, r, c, fd) && x in s'.closed && x != r
    requires x in s.closed ==> ClosedOk(s, x)
    ensures ClosedOk(s', x)
  {
    hide OthersStayQueued, Bundle;
    assert s.closed[x] != c;
  }

  lemma {:induction false} OtherActor(s: State, s': State, ws: set<Worker>, actors: set<Actor>, r: ReqId, c: CtxId,
      fd: Fd, b: Actor)
    requires Frame(s, s', ws, actors, r, c, fd) && ActorOk(s, b) && b !in actors
    ensures ActorOk(s', b)
  {
    hide OthersStayQueued, Bundle;
    assert APc(s', b) == APc(s, b);
  }

  /** A queue that did not change stays in order if the request that moved is not in it. */
  lemma {:induction false} OtherQueue(s: State, s': State, r: ReqId, c: CtxId, fd: Fd, b: Actor, v: Worker)
    requires SameBut(s, s', r, c, fd) && QueueOk(s, b, v) && Q(s', b, v) == Q(s, b, v) && r !in Q(s, b, v)
    ensures QueueOk(s', b, v)
  {
    forall i | 0 <= i < |Q(s', b, v)|
      ensures Q(s', b, v)[i] in s'.places && Q(s', b, v)[i] in s'.reqs
      ensures s'.places[Q(s', b, v)[i]] == Queued(b) && s'.reqs[Q(s', b, v)[i]].worker == v
    {
      assert Q(s, b, v)[i] != r;
    }
  }

  lemma {:induction false} OtherDescriptors(s: State, s': State, r: ReqId, c: CtxId, fd: Fd)
    requires SameBut(s, s', r, c, fd) && Descriptors(s)
    requires forall x :: x in s.reqs && x == r ==> s.reqs[x].fd == fd
    requires fd in s'.open ==> s'.open[fd] == r && r in s'.reqs && s'.reqs[r].fd == fd
    requires fd in s'.epoll ==> fd in s'.open
    ensures Descriptors(s')
  {
    forall x | x in s'.open
      ensures s'.open[x] in s'.reqs && s'.reqs[s'.open[x]].fd == x
    {
      if x != fd {
        assert s.open[x] in s.reqs;
      }
    }
  }

  /** The places, contexts and threads a step did not move. */
  lemma {:induction false} Framed(s: State, s': State, ws: set<Worker>, actors: set<Actor>, r: ReqId, c: CtxId, fd: Fd)
    requires Inv(s) && Frame(s, s', ws, actors, r, c, fd)
    requires r in s'.places ==> CtxOf(s'.places[r]) <= {c}
    ensures forall x :: x in s'.places && x != r ==> x in s'.reqs && PlaceOk(s', x)
    ensures forall v :: v !in ws ==> WorkerOk(s', v) && BatchOk(s', v)
    ensures forall b :: b !in actors ==> ActorOk(s', b)
    ensures forall x :: x in s'.ctxs && x != c ==> CtxOk(s', x)
    ensures forall x :: x in s'.closed && x != r ==> ClosedOk(s', x)
  {
    hide BatchOk, QueueOk, Accounted, ActorOk, CtxOk, ClosedOk, CountersOk, PlaceOk, WorkerOk, Descriptors;
    hide Bundle, Movers, Owned, OthersStayQueued;
    forall x | x in s'.places && x != r ensures x in s'.reqs && PlaceOk(s', x) {
      assert x in s.places;
      OtherPlace(s, s', ws, actors, r, c, fd, x);
    }
    forall v | v !in ws ensures WorkerOk(s', v) && BatchOk(s', v) {
      OtherWorker(s, s', ws, actors, r, c, fd, v);
      OtherBatch(s, s', ws, actors, r, c, fd, v);
    }
    forall b | b !in actors ensures ActorOk(s', b) {
      OtherActor(s, s', ws, actors, r, c, fd, b);
    }
    forall x | x in s'.ctxs && x != c ensures CtxOk(s', x) {
      OtherContext(s, s', ws, actors, r, c, fd, x);
    }
    forall x | x in s'.closed && x != r ensures ClosedOk(s', x) {
      OtherClosed(s, s', ws, actors, r, c, fd, x);
    }
  }

  /** The rest of the invariant, about what did move. */
  ghost predicate Local(s: State, s': State, ws: set<Worker>, actors: set<Actor>, r: ReqId, c: CtxId, fd: Fd) {
    && (r in s'.places <==> r in s'.reqs)
    && (r in s'.places ==> PlaceOk(s', r) && CtxOf(s'.places[r]) <= {c})
    && (forall v :: v in ws ==> WorkerOk(s', v) && BatchOk(s', v))
    && (forall b :: b in actors ==> ActorOk(s', b))
    && (c in s'.ctxs ==> CtxOk(s', c))
    && (r in s'.closed ==> ClosedOk(s', r))
    && (r in s.reqs ==> s.reqs[r].fd == fd)
    && (fd in s'.open ==> s'.open[fd] == r && r in s'.reqs && s'.reqs[r].fd == fd)
    && (fd in s'.epoll ==> fd in s'.open)
  }

  lemma {:induction false} Keeps(s: State, s': State, ws: set<Worker>, actors: set<Actor>, r: ReqId, c: CtxId, fd: Fd)
    requires Inv(s) && Frame(s, s', ws, actors, r, c, fd) && Local(s, s', ws, actors, r, c, fd)
    requires forall b, v :: QueueOk(s', b, v) && Accounted(s', b, v)
    requires CountersOk(s')
    ensures Inv(s')
  {
    hide BatchOk, QueueOk, Accounted, ActorOk, CtxOk, ClosedOk, CountersOk, PlaceOk, WorkerOk, Descriptors;
    hide Bundle, Movers, Owned, OthersStayQueued;
    Framed(s, s', ws, actors, r, c, fd);
    OtherDescriptors(s, s', r, c, fd);
    assert s'.places.Keys == s'.reqs.Keys;
  }
}
