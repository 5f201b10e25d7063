/**
 * The notification protocol of one locked queue: any number of writers, one draining actor. The eventfd write is
 * inside the critical section, but the actor reads the eventfd without the lock; all of these are separate steps.
 */
module Notification {
  import opened Options

  /** Who holds the mutex, and how far its holder has come. */
  datatype Holder<T> =
    | Free
    | Entered(writer: nat, item: T)
    | Enqueued(writer: nat)
    | WriterLeaving(writer: nat, ok: bool)
    | ActorEntered
    | ActorLeaving(popped: Option<T>)

  /** The actor: waiting on epoll, or with a number of pops still to do; `gaveUp` once a pop returned NULL. */
  datatype Actor = Waiting | Draining(left: nat) | GaveUp

  /** `accepted` and `handled` are the items pushed and popped so far, in the order of the critical sections. */
  datatype State<T> = State(capacity: nat, items: seq<T>, event: nat, holder: Holder<T>, actor: Actor,
                            accepted: seq<T>, handled: seq<T>)

  datatype Action<T> = WriterLock(writer: nat, item: T) | WriterEnqueue | WriterNotify | WriterUnlock
                     | ActorReadEvent | ActorLock | ActorPop | ActorUnlock | ActorRoundDone

  ghost predicate Init<T>(s: State<T>) {
    && s.items == s.accepted == s.handled == [] && s.event == 0 && s.holder == Free && s.actor == Waiting
  }

  predicate Enabled<T>(s: State<T>, a: Action<T>) {
    match a
    case WriterLock(_, _) => s.holder.Free?
    case WriterEnqueue => s.holder.Entered?
    case WriterNotify => s.holder.Enqueued?
    case WriterUnlock => s.holder.WriterLeaving?
    case ActorReadEvent => s.actor.Waiting?
    case ActorLock => s.holder.Free? && s.actor.Draining? && s.actor.left > 0
    case ActorPop => s.holder.ActorEntered?
    case ActorUnlock => s.holder.ActorLeaving? && s.actor.Draining? && s.actor.left > 0
    case ActorRoundDone => s.actor.Draining? && s.actor.left == 0 && !s.holder.ActorEntered? && !s.holder.ActorLeaving?
  }

  function Step<T>(s: State<T>, a: Action<T>): State<T>
    requires Enabled(s, a)
  {
    match a
    case WriterLock(writer, item) => s.(holder := Entered(writer, item))
    case WriterEnqueue =>
      var h := s.holder;
      if |s.items| == s.capacity then s.(holder := WriterLeaving(h.writer, false))
      else s.(items := s.items + [h.item], accepted := s.accepted + [h.item], holder := Enqueued(h.writer))
    case WriterNotify => s.(event := s.event + 1, holder := WriterLeaving(s.holder.writer, true))
    case WriterUnlock => s.(holder := Free)
    case ActorReadEvent => if s.event == 0 then s else s.(event := 0, actor := Draining(s.event))
    case ActorLock => s.(holder := ActorEntered)
    case ActorPop =>
      if |s.items| == 0 then s.(holder := ActorLeaving(None))
      else s.(items := s.items[1..], handled := s.handled + [s.items[0]], holder := ActorLeaving(Some(s.items[0])))
    case ActorUnlock =>
      if s.holder.popped.None? then s.(holder := Free, actor := GaveUp)
      else s.(holder := Free, actor := Draining(s.actor.left - 1))
    case ActorRoundDone => s.(actor := Waiting)
  }

  /** Pops the actor still owes. */
  function Left<T>(s: State<T>): nat {
    (if s.actor.Draining? then s.actor.left else 0)
  }

  /** An item stored but not yet announced counts on one side, a pop done but not yet counted off on the other. */
  ghost predicate Accounted<T>(s: State<T>) {
    |s.items| + (if s.holder.ActorLeaving? then 1 else 0) == s.event + Left(s) + (if s.holder.Enqueued? then 1 else 0)
  }

  ghost predicate Inv<T>(s: State<T>) {
    && |s.items| <= s.capacity
    && s.accepted == s.handled + s.items
    && Accounted(s)
    && !s.actor.GaveUp?
    && (s.holder.ActorEntered? || s.holder.ActorLeaving? ==> s.actor.Draining? && s.actor.left > 0)
    && (s.holder.ActorLeaving? ==> s.holder.popped.Some?)
  }

  lemma {:induction false} StepKeepsInv<T>(s: State<T>, a: Action<T>)
    requires Inv(s) && Enabled(s, a)
    ensures Inv(Step(s, a))
  {
    match a
    case ActorPop =>
      assert s.items == [s.items[0]] + s.items[1..];
    case _ =>
  }

  ghost predicate IsRun<T>(ss: seq<State<T>>, acts: seq<Action<T>>) {
    && |ss| == |acts| + 1 && Init(ss[0])
    && forall i :: 0 <= i < |acts| ==> Enabled(ss[i], acts[i]) && ss[i + 1] == Step(ss[i], acts[i])
  }

  lemma {:induction false} RunInv<T>(ss: seq<State<T>>, acts: seq<Action<T>>, n: nat)
    requires IsRun(ss, acts) && n <= |acts|
    ensures Inv(ss[n])
    decreases n
  {
    if n > 0 {
      RunInv(ss, acts, n - 1);
      StepKeepsInv(ss[n - 1], acts[n - 1]);
    }
  }

  /**
   * Over all runs: while the lock is free the size is the event counter plus the actor's remaining pops; a pop is
   * never answered with NULL; a waiting actor has an event pending whenever there is an item; and items leave in the
   * order in which the writers' critical sections put them in.
   */
  lemma {:induction false} NoLostWakeup<T>(ss: seq<State<T>>, acts: seq<Action<T>>, n: nat)
    requires IsRun(ss, acts) && n <= |acts|
    ensures ss[n].holder.Free? ==> |ss[n].items| == ss[n].event + Left(ss[n])
    ensures ss[n].holder != ActorLeaving(None) && ss[n].actor != GaveUp
    ensures ss[n].holder.Free? && ss[n].actor.Waiting? && ss[n].items != [] ==> ss[n].event > 0
    ensures ss[n].accepted == ss[n].handled + ss[n].items
  {
    RunInv(ss, acts, n);
  }
}
