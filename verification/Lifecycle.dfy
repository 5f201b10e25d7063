/**
 * The life of a connection across IO workers and actors, as a transition system over any number of each. The state is
 * what the threads and the kernel really hold: epoll registrations, open descriptors, allocated contexts and requests,
 * queues, eventfd counters, program counters. Every thread step is separate, so threads interleave in every way.
 */
module Lifecycle {
  import opened RequestStats

  type Worker = nat
  type Actor = nat
  type ReqId = nat
  type CtxId = nat
  type Fd = nat

  datatype Interest = In | Out

  /** An entry of a worker's epoll set: the context it carries and what it waits for. */
  datatype Reg = Reg(worker: Worker, ctx: CtxId, interest: Interest)

  /** A socket context; `mode` is which of the two handlers is installed. */
  datatype SockCtx = SockCtx(req: ReqId, mode: Interest, worker: Worker)

  /** A request context: descriptor, owning worker's epoll, and the timers that are running. */
  datatype Req = Req(fd: Fd, worker: Worker, running: set<TimeType>)

  /** One delivered epoll event: the context, whether an error bit is set, and what it is ready for. */
  datatype Ev = Ev(ctx: CtxId, error: bool, ready: Interest)

  /** Where a worker is: between events, or in the middle of handling one context. */
  datatype WorkerPc =
    | Dispatch
    | Adding(ctx: CtxId)      // accepted, not yet added to epoll
    | Deleting(ctx: CtxId)    // request complete, about to leave epoll
    | Pushing(ctx: CtxId)     // out of epoll, about to be queued
    | Freeing(ctx: CtxId)     // about to free the socket context
    | Unlisting(ctx: CtxId)   // closing, about to leave epoll
    | Destroying(ctx: CtxId)  // closing, about to close the descriptor
    | Releasing(ctx: CtxId)   // descriptor closed, about to free the request
    | Rearming(ctx: CtxId)    // reset, about to wait for input again

  /** Where an actor is: waiting, inside a round of `left` pops, or with a popped request in hand. */
  datatype ActorPc =
    | Waiting
    | Draining(worker: Worker, left: nat)
    | Holding(worker: Worker, left: nat, req: ReqId)
    | Replying(worker: Worker, left: nat, req: ReqId)

  /** The stage of a request: a history variable that no step looks at. */
  datatype Place =
    | Fresh(ctx: CtxId)
    | Registered(ctx: CtxId, interest: Interest)
    | Detached(ctx: CtxId)
    | Queued(actor: Actor)
    | Held(actor: Actor)
    | Closing(ctx: CtxId)
    | Dead(ctx: CtxId)

  datatype Counters = Counters(active: int, total: int, accepted: nat, closed: nat, resets: nat)

  /**
   * `reqs` are the allocated requests whose descriptor is open, `closed` those whose descriptor is closed already, each
   * with the context it was closed through.
   */
  datatype State = State(
    epoll: map<Fd, Reg>, open: map<Fd, ReqId>, ctxs: map<CtxId, SockCtx>, reqs: map<ReqId, Req>,
    closed: map<ReqId, CtxId>,
    queues: map<(Actor, Worker), seq<ReqId>>, events: map<(Actor, Worker), nat>,
    workers: map<Worker, WorkerPc>, batches: map<Worker, seq<Ev>>, actors: map<Actor, ActorPc>,
    counters: Counters, places: map<ReqId, Place>)

  const QUEUE_CAPACITY: nat := 1024

  function Pc(s: State, w: Worker): WorkerPc { if w in s.workers then s.workers[w] else Dispatch }
  function Batch(s: State, w: Worker): seq<Ev> { if w in s.batches then s.batches[w] else [] }
  function APc(s: State, a: Actor): ActorPc { if a in s.actors then s.actors[a] else Waiting }
  function Q(s: State, a: Actor, w: Worker): seq<ReqId> { if (a, w) in s.queues then s.queues[(a, w)] else [] }
  function Event(s: State, a: Actor, w: Worker): nat { if (a, w) in s.events then s.events[(a, w)] else 0 }

  const INITIAL :=
    State(map[], map[], map[], map[], map[], map[], map[], map[], map[], map[], Counters(0, 0, 0, 0, 0), map[])

  // ---------------------------------------------------------------- steps

  /** How reading or writing ended; `keep` is whether the client asked to keep the connection. */
  datatype Outcome = Done(keep: bool) | Busy | Failed

  datatype Step =
    | Wait(w: Worker, events: seq<Ev>)
    | Accept(w: Worker, fd: Fd, r: ReqId, c: CtxId)
    | Add(w: Worker)
    | Handle(w: Worker, outcome: Outcome)
    | Delete(w: Worker)
    | Push(w: Worker, a: Actor)
    | Free(w: Worker)
    | Unlist(w: Worker)
    | Destroy(w: Worker)
    | Release(w: Worker)
    | Rearm(w: Worker)
    | ReadEvent(a: Actor, from: Worker)
    | Pop(a: Actor)
    | Work(a: Actor)
    | Reply(a: Actor, c: CtxId)
    | RoundDone(a: Actor)

  /** The event's context is in this worker's set, registered for what the event reports. */
  ghost predicate Delivers(s: State, w: Worker, e: Ev) {
    exists fd :: fd in s.epoll && s.epoll[fd] == Reg(w, e.ctx, e.ready)
  }

  /** epoll_wait: at most one event per descriptor, from this worker's set, and no bit that was not asked for. */
  ghost predicate Deliverable(s: State, w: Worker, events: seq<Ev>) {
    && (forall i :: 0 <= i < |events| ==> Delivers(s, w, events[i]))
    && (forall i, j :: 0 <= i < j < |events| ==> events[i].ctx != events[j].ctx)
  }

  /** The thread is at this step, and the environment can answer as the step says. */
  ghost predicate Enabled(s: State, st: Step) {
    match st
    case Wait(w, events) => Pc(s, w) == Dispatch && Batch(s, w) == [] && Deliverable(s, w, events)
    case Accept(w, fd, r, c) => Pc(s, w) == Dispatch && fd !in s.open && r !in s.reqs && r !in s.closed && c !in s.ctxs
    case Add(w) => Pc(s, w).Adding?
    case Handle(w, _) => Pc(s, w) == Dispatch && Batch(s, w) != []
    case Delete(w) => Pc(s, w).Deleting?
    case Push(w, _) => Pc(s, w).Pushing?
    case Free(w) => Pc(s, w).Freeing?
    case Unlist(w) => Pc(s, w).Unlisting?
    case Destroy(w) => Pc(s, w).Destroying?
    case Release(w) => Pc(s, w).Releasing?
    case Rearm(w) => Pc(s, w).Rearming?
    case ReadEvent(a, from) => APc(s, a) == Waiting && Event(s, a, from) > 0
    case Pop(a) => APc(s, a).Draining? && APc(s, a).left > 0
    case Work(a) => APc(s, a).Holding?
    case Reply(a, c) => APc(s, a).Replying? && c !in s.ctxs
    case RoundDone(a) => APc(s, a).Draining? && APc(s, a).left == 0
  }

  /** The request is allocated, and its descriptor is open and its own. */
  predicate Usable(s: State, r: ReqId) {
    r in s.reqs && s.reqs[r].fd in s.open && s.open[s.reqs[r].fd] == r
  }

  /** The context is allocated, and its request can be used. */
  predicate Alive(s: State, c: CtxId) {
    c in s.ctxs && Usable(s, s.ctxs[c].req)
  }

  /** No epoll entry, no delivered event and no other worker than `w` still refers to the context. */
  ghost predicate Forgotten(s: State, w: Worker, c: CtxId) {
    && (forall fd :: fd in s.epoll ==> s.epoll[fd].ctx != c)
    && (forall v: Worker, i :: 0 <= i < |Batch(s, v)| ==> Batch(s, v)[i].ctx != c)
    && (forall v: Worker :: v != w && Pc(s, v) != Dispatch ==> Pc(s, v).ctx != c)
  }

  /** No queue holds the request, no actor has it in hand, and no descriptor is its own. */
  ghost predicate Abandoned(s: State, r: ReqId) {
    && (forall a: Actor, w: Worker :: r !in Q(s, a, w))
    && (forall a: Actor :: APc(s, a).Holding? || APc(s, a).Replying? ==> APc(s, a).req != r)
    && (forall fd :: fd in s.open ==> s.open[fd] != r)
  }

  function ReqOf(s: State, c: CtxId): ReqId
    requires c in s.ctxs
  {
    s.ctxs[c].req
  }

  function FdOf(s: State, c: CtxId): Fd
    requires Alive(s, c)
  {
    s.reqs[ReqOf(s, c)].fd
  }

  function RunningOf(s: State, c: CtxId): set<TimeType>
    requires Alive(s, c)
  {
    s.reqs[ReqOf(s, c)].running
  }

  /** What an event leads to: an error bit comes first; a handler that is not installed is only logged. */
  datatype Todo = Nothing | DoRead | DoWrite | DoClose

  function TodoFor(e: Ev, mode: Interest): Todo {
    if e.error then DoClose
    else if e.ready == In && mode == In then DoRead
    else if e.ready == Out && mode == Out then DoWrite
    else Nothing
  }

  /** Closes for one of the reasons the handlers know. */
  predicate Closes(todo: Todo, outcome: Outcome) {
    todo == DoClose || (todo != Nothing && outcome == Failed) || (todo == DoWrite && outcome == Done(false))
  }

  /**
   * Nothing goes wrong in this step: every context and request it touches is allocated and its descriptor open, ADD
   * finds the descriptor unregistered, MOD and DEL find it registered in this worker's set, nothing is freed or closed
   * twice or while something still refers to it, and no timer CHECK fires.
   */
  ghost predicate Safe(s: State, st: Step)
    requires Enabled(s, st)
  {
    match st
    case Wait(_, _) => true
    case Accept(_, _, _, _) => true
    case Add(w) => Alive(s, Pc(s, w).ctx) && FdOf(s, Pc(s, w).ctx) !in s.epoll
    case Handle(w, outcome) =>
      var e := Batch(s, w)[0];
      && Alive(s, e.ctx)
      && var todo := TodoFor(e, s.ctxs[e.ctx].mode);
      && (todo == DoRead ==> ClientReadTime !in RunningOf(s, e.ctx))
      && (todo == DoWrite ==> ClientWriteTime !in RunningOf(s, e.ctx))
      && (Closes(todo, outcome) || (todo == DoWrite && outcome.Done?) ==> TotalTime in RunningOf(s, e.ctx))
    case Delete(w) => Listed(s, Pc(s, w).ctx)
    case Push(w, a) => Alive(s, Pc(s, w).ctx) && QueueTime !in RunningOf(s, Pc(s, w).ctx)
    case Free(w) => Pc(s, w).ctx in s.ctxs && Forgotten(s, w, Pc(s, w).ctx)
    case Unlist(w) => Listed(s, Pc(s, w).ctx)
    case Destroy(w) =>
      var c := Pc(s, w).ctx;
      Alive(s, c) && FdOf(s, c) !in s.epoll
    case Release(w) =>
      var c := Pc(s, w).ctx;
      c in s.ctxs && s.ctxs[c].req in s.closed && Abandoned(s, s.ctxs[c].req)
    case Rearm(w) => Listed(s, Pc(s, w).ctx)
    case ReadEvent(_, _) => true
    case Pop(_) => true
    case Work(a) =>
      var r := APc(s, a).req;
      Usable(s, r) && QueueTime in s.reqs[r].running && ActorTime !in s.reqs[r].running
    case Reply(a, _) => Usable(s, APc(s, a).req) && s.reqs[APc(s, a).req].fd !in s.epoll
    case RoundDone(_) => true
  }

  /** Registered in the epoll set the context names, and with that context. */
  predicate Listed(s: State, c: CtxId) {
    && Alive(s, c) && FdOf(s, c) in s.epoll
    && s.epoll[FdOf(s, c)].worker == s.ctxs[c].worker && s.epoll[FdOf(s, c)].ctx == c
  }

  /** A push to a full queue stops the process. */
  predicate Halts(s: State, st: Step) {
    match st
    case Push(w, a) => |Q(s, a, w)| == QUEUE_CAPACITY
    case _ => false
  }

  /** The actor finds its queue empty and leaves its round. */
  predicate PopsNull(s: State, st: Step) {
    match st
    case Pop(a) => APc(s, a).Draining? && Q(s, a, APc(s, a).worker) == []
    case _ => false
  }

  function SetPc(s: State, w: Worker, pc: WorkerPc): State { s.(workers := s.workers[w := pc]) }

  function SetReq(s: State, r: ReqId, req: Req, p: Place): State {
    s.(reqs := s.reqs[r := req], places := s.places[r := p])
  }

  /** `client_close_connection` up to the epoll call. */
  function BeginClose(s: State, w: Worker, c: CtxId): State
    requires Alive(s, c)
  {
    var r := ReqOf(s, c);
    var k := s.counters;
    SetPc(SetReq(s, r, s.reqs[r].(running := s.reqs[r].running - {TotalTime}), Closing(c)), w, Unlisting(c))
    .(counters := k.(active := k.active - 1, total := k.total + 1, closed := k.closed + 1))
  }

  /** `client_reset_connection` up to the epoll call: timers cleared and TOTAL started again. */
  function BeginReset(s: State, w: Worker, c: CtxId): State
    requires Alive(s, c)
  {
    var r := ReqOf(s, c);
    var k := s.counters;
    SetPc(s, w, Rearming(c))
    .(reqs := s.reqs[r := s.reqs[r].(running := {TotalTime})], ctxs := s.ctxs[c := s.ctxs[c].(mode := In)],
      counters := k.(total := k.total + 1, resets := k.resets + 1))
  }

  function HandleEvent(s: State, w: Worker, e: Ev, outcome: Outcome): State
    requires Alive(s, e.ctx)
  {
    var todo := TodoFor(e, s.ctxs[e.ctx].mode);
    if Closes(todo, outcome) then BeginClose(s, w, e.ctx)
    else if todo == DoRead && outcome.Done? then SetPc(s, w, Deleting(e.ctx))
    else if todo == DoWrite && outcome.Done? then BeginReset(s, w, e.ctx)
    else s
  }

  function Do(s: State, st: Step): State
    requires Enabled(s, st) && Safe(s, st) && !Halts(s, st)
  {
    match st
    case Wait(w, events) => s.(batches := s.batches[w := events])
    case Accept(w, fd, r, c) =>
      var k := s.counters;
      SetPc(SetReq(s, r, Req(fd, w, {TotalTime}), Fresh(c)), w, Adding(c))
      .(open := s.open[fd := r], ctxs := s.ctxs[c := SockCtx(r, In, w)],
        counters := k.(active := k.active + 1, accepted := k.accepted + 1))
    case Add(w) =>
      var c := Pc(s, w).ctx;
      SetPc(s, w, Dispatch).(epoll := s.epoll[FdOf(s, c) := Reg(s.ctxs[c].worker, c, In)],
                             places := s.places[ReqOf(s, c) := Registered(c, In)])
    case Handle(w, outcome) =>
      HandleEvent(s.(batches := s.batches[w := Batch(s, w)[1..]]), w, Batch(s, w)[0], outcome)
    case Delete(w) =>
      var c := Pc(s, w).ctx;
      SetPc(s, w, Pushing(c)).(epoll := s.epoll - {FdOf(s, c)}, places := s.places[ReqOf(s, c) := Detached(c)])
    case Push(w, a) =>
      var c := Pc(s, w).ctx;
      var r := ReqOf(s, c);
      SetPc(SetReq(s, r, s.reqs[r].(running := s.reqs[r].running + {QueueTime}), Queued(a)), w, Freeing(c))
      .(queues := s.queues[(a, w) := Q(s, a, w) + [r]], events := s.events[(a, w) := Event(s, a, w) + 1])
    case Free(w) => SetPc(s, w, Dispatch).(ctxs := s.ctxs - {Pc(s, w).ctx})
    case Unlist(w) =>
      var c := Pc(s, w).ctx;
      SetPc(s, w, Destroying(c)).(epoll := s.epoll - {FdOf(s, c)}, places := s.places[ReqOf(s, c) := Dead(c)])
    case Destroy(w) =>
      var c := Pc(s, w).ctx;
      SetPc(s, w, Releasing(c)).(open := s.open - {FdOf(s, c)}, reqs := s.reqs - {ReqOf(s, c)},
                                 closed := s.closed[ReqOf(s, c) := c], places := s.places - {ReqOf(s, c)})
    case Release(w) =>
      var c := Pc(s, w).ctx;
      SetPc(s, w, Freeing(c)).(closed := s.closed - {ReqOf(s, c)})
    case Rearm(w) =>
      var c := Pc(s, w).ctx;
      SetPc(s, w, Dispatch).(epoll := s.epoll[FdOf(s, c) := Reg(s.ctxs[c].worker, c, In)],
                             places := s.places[ReqOf(s, c) := Registered(c, In)])
    case ReadEvent(a, from) =>
      s.(actors := s.actors[a := Draining(from, Event(s, a, from))], events := s.events[(a, from) := 0])
    case Pop(a) =>
      var d := APc(s, a);
      var q := Q(s, a, d.worker);
      if q == [] then s.(actors := s.actors[a := Waiting])
      else s.(actors := s.actors[a := Holding(d.worker, d.left, q[0])], queues := s.queues[(a, d.worker) := q[1..]],
              places := s.places[q[0] := Held(a)])
    case Work(a) =>
      var h := APc(s, a);
      s.(actors := s.actors[a := Replying(h.worker, h.left, h.req)],
         reqs := s.reqs[h.req := s.reqs[h.req].(running := s.reqs[h.req].running - {QueueTime})])
    case Reply(a, c) =>
      var h := APc(s, a);
      var req := s.reqs[h.req];
      s.(actors := s.actors[a := Draining(h.worker, if h.left > 0 then h.left - 1 else 0)],
         ctxs := s.ctxs[c := SockCtx(h.req, Out, req.worker)],
         epoll := s.epoll[req.fd := Reg(req.worker, c, Out)],
         places := s.places[h.req := Registered(c, Out)])
    case RoundDone(a) => s.(actors := s.actors[a := Waiting])
  }
}
