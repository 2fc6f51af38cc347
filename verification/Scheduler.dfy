/**
 * The cooperative scheduler in fair mode (varianta/runtime/kernel.cpp:1113-1193, 1229-1230, 5025-5090,
 * 5336-5445): the run token, the wait protocol around it, events, semaphores and multi-object waits, as the
 * atomic steps of any number of threads.
 */
module Scheduler {
  // ---- the run token -----------------------------------------------------------------------------

  datatype Token = Token(next: nat, serving: nat, held: bool)

  function Issue(k: Token): Token {
    k.(next := k.next + 1)
  }

  predicate MayEnter(k: Token, ticket: nat) {
    !k.held && k.serving == ticket
  }

  function Enter(k: Token): Token {
    k.(held := true)
  }

  function Leave(k: Token): Token {
    k.(held := false, serving := k.serving + 1)
  }

  /** FairMutex: `lock` takes a ticket, then waits until TryEnter succeeds. */
  class FairMutex {
    var next: nat
    var serving: nat
    var held: bool

    function State(): Token
      reads this
    {
      Token(next, serving, held)
    }

    constructor ()
      ensures State() == Token(0, 0, false)
    {
      next, serving, held := 0, 0, false;
    }

    method TakeTicket() returns (my: nat)
      modifies this
      ensures my == old(next) && State() == Issue(old(State()))
    {
      my := next;
      next := next + 1;
    }

    method TryEnter(my: nat) returns (entered: bool)
      modifies this
      ensures entered == MayEnter(old(State()), my)
      ensures State() == if entered then Enter(old(State())) else old(State())
    {
      entered := !held && serving == my;
      if entered { held := true; }
    }

    method Unlock()
      modifies this
      ensures State() == Leave(old(State()))
    {
      held := false;
      serving := serving + 1;
    }
  }

  // ---- dispatch objects --------------------------------------------------------------------------

  /** Type 1 is an auto-reset event or a timer, 2 a mutant, 5 a semaphore; waits take a unit of these. */
  datatype Obj = Obj(ty: nat, state: int, timer: bool)

  predicate Consumable(o: Obj) {
    o.ty == 1 || o.ty == 2 || o.ty == 5
  }

  /** An id outside the object table stands for a handle that names no object. */
  predicate Signaled(objs: seq<Obj>, o: nat) {
    o < |objs| && objs[o].state > 0
  }

  /** A wait for one object is a wait for any of one. */
  datatype Wait = Wait(ids: seq<nat>, any: bool, finite: bool)

  /** The source's firstReady: for wait-any the least ready index, for wait-all 0, or -1. */
  function FirstReady(objs: seq<Obj>, w: Wait): (i: int)
    ensures -1 <= i
  {
    if w.any then FirstSignaled(objs, w.ids, 0) else if AllSignaled(objs, w.ids) then 0 else -1
  }

  function FirstSignaled(objs: seq<Obj>, ids: seq<nat>, from: nat): (i: int)
    requires from <= |ids|
    ensures i == -1 || from <= i < |ids|
    ensures i == -1 ==> forall j :: from <= j < |ids| ==> !Signaled(objs, ids[j])
    ensures i >= 0 ==> Signaled(objs, ids[i]) && forall j :: from <= j < i ==> !Signaled(objs, ids[j])
    decreases |ids| - from
  {
    if from == |ids| then -1 else if Signaled(objs, ids[from]) then from else FirstSignaled(objs, ids, from + 1)
  }

  predicate AllSignaled(objs: seq<Obj>, ids: seq<nat>) {
    forall j :: 0 <= j < |ids| ==> Signaled(objs, ids[j])
  }

  predicate Ready(objs: seq<Obj>, w: Wait) {
    FirstReady(objs, w) >= 0
  }

  function Consume(objs: seq<Obj>, o: nat): (r: seq<Obj>)
    ensures |r| == |objs|
  {
    if o < |objs| && Consumable(objs[o]) then objs[o := objs[o].(state := objs[o].state - 1)] else objs
  }

  function ConsumeAll(objs: seq<Obj>, ids: seq<nat>): (r: seq<Obj>)
    ensures |r| == |objs|
  {
    if ids == [] then objs else Consume(ConsumeAll(objs, ids[..|ids| - 1]), ids[|ids| - 1])
  }

  /** How often o is named. */
  function Times(ids: seq<nat>, o: nat): (n: nat)
    ensures n > 0 <==> o in ids
  {
    if ids == [] then 0 else Times(ids[..|ids| - 1], o) + if ids[|ids| - 1] == o then 1 else 0
  }

  /** A wait-all takes one unit per mention of a consumable object, and nothing else. */
  lemma {:induction false} ConsumeAllTakes(objs: seq<Obj>, ids: seq<nat>, o: nat)
    requires o < |objs|
    ensures ConsumeAll(objs, ids)[o]
         == if Consumable(objs[o]) then objs[o].(state := objs[o].state - Times(ids, o)) else objs[o]
  {
    if ids != [] {
      ConsumeAllTakes(objs, ids[..|ids| - 1], o);
    }
  }

  predicate NonNegative(objs: seq<Obj>) {
    forall o :: 0 <= o < |objs| ==> objs[o].state >= 0
  }

  /** No consumable object is named twice. */
  predicate NamedOnce(objs: seq<Obj>, ids: seq<nat>) {
    forall o :: 0 <= o < |objs| && Consumable(objs[o]) ==> Times(ids, o) <= 1
  }

  /** Exactly when a satisfied wait-all leaves no negative state. */
  lemma WaitAllStaysNonNegative(objs: seq<Obj>, ids: seq<nat>)
    requires NonNegative(objs)
    ensures NonNegative(ConsumeAll(objs, ids))
       <==> forall o :: 0 <= o < |objs| && Consumable(objs[o]) ==> Times(ids, o) <= objs[o].state
  {
    forall o | 0 <= o < |objs| { ConsumeAllTakes(objs, ids, o); }
  }

  /** The same objects with other states. */
  predicate SameKinds(objs: seq<Obj>, objs': seq<Obj>) {
    |objs| == |objs'| && forall o :: 0 <= o < |objs| ==> objs[o].ty == objs'[o].ty && objs[o].timer == objs'[o].timer
  }

  /** Whatever the states are when a wait for all of the list is satisfied, it leaves no negative one. */
  ghost predicate AlwaysPays(objs: seq<Obj>, ids: seq<nat>) {
    forall objs': seq<Obj> {:trigger AllSignaled(objs', ids)} ::
      SameKinds(objs, objs') && NonNegative(objs') && AllSignaled(objs', ids) ==> NonNegative(ConsumeAll(objs', ids))
  }

  /** The objects with one unit each. */
  function OneEach(objs: seq<Obj>): (r: seq<Obj>)
    ensures SameKinds(objs, r) && NonNegative(r)
  {
    seq(|objs|, o requires 0 <= o < |objs| => objs[o].(state := 1))
  }

  predicate InTable(objs: seq<Obj>, ids: seq<nat>) {
    forall j :: 0 <= j < |ids| ==> ids[j] < |objs|
  }

  /** Exactly which lists a caller may wait for all of: those that name no consumable object twice. */
  lemma NamedOnceIsExact(objs: seq<Obj>, ids: seq<nat>)
    requires InTable(objs, ids)
    ensures NamedOnce(objs, ids) <==> AlwaysPays(objs, ids)
  {
    if NamedOnce(objs, ids) {
      forall objs': seq<Obj> {:trigger AllSignaled(objs', ids)} | SameKinds(objs, objs') && NonNegative(objs') && AllSignaled(objs', ids)
        ensures NonNegative(ConsumeAll(objs', ids))
      {
        forall o | 0 <= o < |objs'| && Consumable(objs'[o]) ensures Times(ids, o) <= objs'[o].state {
          if o in ids { assert Signaled(objs', o); }
        }
        WaitAllStaysNonNegative(objs', ids);
      }
    } else {
      WaitAllStaysNonNegative(OneEach(objs), ids);
      assert AllSignaled(OneEach(objs), ids);
      var o :| 0 <= o < |objs| && Consumable(objs[o]) && Times(ids, o) > 1;
      assert Consumable(OneEach(objs)[o]);
    }
  }

  // ---- threads -----------------------------------------------------------------------------------

  /**
   * What a thread does next with the token: guest code; FairWaitUntil's check at the top of its loop; its
   * unlock after a failed check; its last look after a timeout; after it returned true the choice of an
   * index, and the taking of the units; after it returned false the report of a timeout.
   */
  datatype Task =
    | Guest
    | Recheck(w: Wait) | Yielding(w: Wait) | LastLook(w: Wait)
    | Satisfied(w: Wait) | Picked(w: Wait, i: nat) | TimedOut(w: Wait)

  datatype Phase =
    | Outside(task: Task)
    | Blocked(w: Wait)
    | Queued(ticket: nat, task: Task)
    | Running(ticket: nat, task: Task)

  datatype Sched = Sched(token: Token, threads: seq<Phase>, objs: seq<Obj>)

  datatype Action =
    | Ask(t: nat) | Grant(t: nat) | Unlock(t: nat)
    | BeginWait(t: nat, w: Wait) | Check(t: nat) | Yield(t: nat) | Wake(t: nat) | Timeout(t: nat) | Look(t: nat)
    | Pick(t: nat) | Take(t: nat) | GiveUp(t: nat)
    | SetState(t: nat, o: nat, state: int) | Release(t: nat, o: nat, n: int) | TimerFires(o: nat)

  predicate IsRunning(p: Phase, task: Task) {
    p.Running? && p.task == task
  }

  predicate Enabled(s: Sched, a: Action) {
    if a.TimerFires? then a.o < |s.objs| && s.objs[a.o].timer
    else
      a.t < |s.threads| &&
      var p := s.threads[a.t];
      match a
      case Ask(t) => p.Outside?
      case Grant(t) => p.Queued? && MayEnter(s.token, p.ticket)
      case Unlock(t) => IsRunning(p, Guest)
      case BeginWait(t, w) => IsRunning(p, Guest)
      case Check(t) => p.Running? && p.task.Recheck?
      case Yield(t) => p.Running? && p.task.Yielding?
      case Wake(t) => p.Blocked? && Ready(s.objs, p.w)
      case Timeout(t) => p.Blocked? && p.w.finite && !Ready(s.objs, p.w)
      case Look(t) => p.Running? && p.task.LastLook?
      case Pick(t) => p.Running? && p.task.Satisfied? && Ready(s.objs, p.task.w)
      case Take(t) => p.Running? && p.task.Picked? && p.task.i <= |p.task.w.ids| && (p.task.w.any ==> p.task.i < |p.task.w.ids|)
      case GiveUp(t) => p.Running? && p.task.TimedOut?
      case SetState(t, o, state) => IsRunning(p, Guest) && o < |s.objs| && s.objs[o].ty != 5 && (state == 0 || state == 1)
      case Release(t, o, n) => IsRunning(p, Guest) && o < |s.objs| && s.objs[o].ty == 5 && Int32(n) == n
  }

  /** An int32_t sum. */
  function Int32(n: int): int {
    if n >= 0x8000_0000 then n - 0x1_0000_0000 else if n < -0x8000_0000 then n + 0x1_0000_0000 else n
  }

  /** The thread with a new phase. */
  function Move(s: Sched, t: nat, p: Phase): Sched
    requires t < |s.threads|
  {
    s.(threads := s.threads[t := p])
  }

  function WithState(s: Sched, o: nat, state: int): Sched
    requires o < |s.objs|
  {
    s.(objs := s.objs[o := s.objs[o].(state := state)])
  }

  /** What the thread's wait takes. */
  function Taken(objs: seq<Obj>, task: Task): seq<Obj>
    requires task.Picked? && (task.w.any ==> task.i < |task.w.ids|)
  {
    if task.w.any then Consume(objs, task.w.ids[task.i]) else ConsumeAll(objs, task.w.ids)
  }

  function Apply(s: Sched, a: Action): Sched
    requires Enabled(s, a)
  {
    match a
    case Ask(t) => Move(s, t, Queued(s.token.next, s.threads[t].task)).(token := Issue(s.token))
    case Grant(t) => Move(s, t, Running(s.threads[t].ticket, s.threads[t].task)).(token := Enter(s.token))
    case Unlock(t) => Move(s, t, Outside(Guest)).(token := Leave(s.token))
    case BeginWait(t, w) => Move(s, t, Running(s.threads[t].ticket, Recheck(w)))
    case Check(t) =>
      var w := s.threads[t].task.w;
      Move(s, t, Running(s.threads[t].ticket, if Ready(s.objs, w) then Satisfied(w) else Yielding(w)))
    case Yield(t) => Move(s, t, Blocked(s.threads[t].task.w)).(token := Leave(s.token))
    case Wake(t) => Move(s, t, Outside(Recheck(s.threads[t].w)))
    case Timeout(t) => Move(s, t, Outside(LastLook(s.threads[t].w)))
    case Look(t) =>
      var w := s.threads[t].task.w;
      Move(s, t, Running(s.threads[t].ticket, if Ready(s.objs, w) then Satisfied(w) else TimedOut(w)))
    case Pick(t) =>
      var w := s.threads[t].task.w;
      Move(s, t, Running(s.threads[t].ticket, Picked(w, FirstReady(s.objs, w))))
    case Take(t) => Move(s, t, Running(s.threads[t].ticket, Guest)).(objs := Taken(s.objs, s.threads[t].task))
    case GiveUp(t) => Move(s, t, Running(s.threads[t].ticket, Guest))
    case SetState(t, o, state) => WithState(s, o, state)
    case Release(t, o, n) => WithState(s, o, Int32(s.objs[o].state + n))
    case TimerFires(o) => WithState(s, o, 1)
  }

  // ---- runs --------------------------------------------------------------------------------------

  ghost predicate IsRun(s: Sched, acts: seq<Action>)
    decreases |acts|
  {
    acts == [] || (Enabled(s, acts[0]) && IsRun(Apply(s, acts[0]), acts[1..]))
  }

  ghost function Run(s: Sched, acts: seq<Action>): Sched
    requires IsRun(s, acts)
    decreases |acts|
  {
    if acts == [] then s else Run(Apply(s, acts[0]), acts[1..])
  }

  /** Nobody has or wants the token, and no object is in debt. */
  predicate IsStart(s: Sched) {
    s.token == Token(0, 0, false) && (forall t :: 0 <= t < |s.threads| ==> s.threads[t] == Outside(Guest)) && NonNegative(s.objs)
  }

  // ---- the token over all runs -------------------------------------------------------------------

  predicate HasTicket(p: Phase) {
    p.Queued? || p.Running?
  }

  /** Tickets in use are those from `serving` to `next`, and the one served is held by a running thread only. */
  predicate InRange(s: Sched) {
    forall t :: 0 <= t < |s.threads| && HasTicket(s.threads[t]) ==>
      s.token.serving <= s.threads[t].ticket < s.token.next
      && (s.threads[t].Running? ==> s.token.held && s.threads[t].ticket == s.token.serving)
      && (s.threads[t].Queued? && s.token.held ==> s.token.serving < s.threads[t].ticket)
  }

  predicate Unique(s: Sched) {
    forall t, u :: (0 <= t < |s.threads| && 0 <= u < |s.threads| && HasTicket(s.threads[t])
      && HasTicket(s.threads[u]) && s.threads[t].ticket == s.threads[u].ticket) ==> t == u
  }

  predicate Owns(s: Sched, t: nat, ticket: nat) {
    t < |s.threads| && HasTicket(s.threads[t]) && s.threads[t].ticket == ticket
  }

  ghost predicate Owned(s: Sched, ticket: nat) {
    exists t: nat :: Owns(s, t, ticket)
  }

  ghost predicate Covered(s: Sched) {
    s.token.serving <= s.token.next
    && (forall k: nat :: s.token.serving <= k < s.token.next ==> Owned(s, k))
    && (s.token.held ==> s.token.serving < s.token.next)
  }

  ghost predicate TokenInv(s: Sched) {
    InRange(s) && Unique(s) && Covered(s)
  }

  /** A thread moves between phases with the same ticket, or between phases without one. */
  lemma SameTicket(s: Sched, s': Sched, t: nat)
    requires TokenInv(s) && t < |s.threads| == |s'.threads|
    requires s'.token == s.token && s'.threads == s.threads[t := s'.threads[t]]
    requires var p, p' := s.threads[t], s'.threads[t];
             if HasTicket(p) then p.Running? && p'.Running? && p'.ticket == p.ticket else !HasTicket(p')
    ensures TokenInv(s')
  {
    forall k: nat | s.token.serving <= k < s.token.next ensures Owned(s', k) {
      assert Owned(s, k);
      var u: nat :| Owns(s, u, k);
      assert Owns(s', u, k);
    }
  }

  lemma AskKeeps(s: Sched, t: nat)
    requires TokenInv(s) && Enabled(s, Ask(t))
    ensures TokenInv(Apply(s, Ask(t)))
  {
    var s' := Apply(s, Ask(t));
    forall k: nat | s'.token.serving <= k < s'.token.next ensures Owned(s', k) {
      if k == s.token.next {
        assert Owns(s', t, k);
      } else {
        assert Owned(s, k);
        var u: nat :| Owns(s, u, k);
        assert Owns(s', u, k);
      }
    }
  }

  lemma GrantKeeps(s: Sched, t: nat)
    requires TokenInv(s) && Enabled(s, Grant(t))
    ensures TokenInv(Apply(s, Grant(t)))
  {
    var s' := Apply(s, Grant(t));
    assert Owns(s, t, s.token.serving);
    forall k: nat | s'.token.serving <= k < s'.token.next ensures Owned(s', k) {
      assert Owned(s, k);
      var u: nat :| Owns(s, u, k);
      assert Owns(s', u, k);
    }
  }

  /** The running thread gives the token back, whatever it does next. */
  lemma LeaveKeeps(s: Sched, t: nat, p: Phase)
    requires TokenInv(s) && t < |s.threads| && s.threads[t].Running? && !HasTicket(p)
    ensures TokenInv(Move(s, t, p).(token := Leave(s.token)))
  {
    var s' := Move(s, t, p).(token := Leave(s.token));
    assert Owns(s, t, s.token.serving);
    forall k: nat | s'.token.serving <= k < s'.token.next ensures Owned(s', k) {
      assert Owned(s, k);
      var u: nat :| Owns(s, u, k);
      assert u != t;
      assert Owns(s', u, k);
    }
  }

  lemma StepKeepsToken(s: Sched, a: Action)
    requires TokenInv(s) && Enabled(s, a)
    ensures TokenInv(Apply(s, a))
  {
    match a
    case Ask(t) => AskKeeps(s, t);
    case Grant(t) => GrantKeeps(s, t);
    case Unlock(t) => LeaveKeeps(s, t, Outside(Guest));
    case Yield(t) => LeaveKeeps(s, t, Blocked(s.threads[t].task.w));
    case TimerFires(o) => SameThreads(s, Apply(s, a));
    case SetState(_, _, _) => SameThreads(s, Apply(s, a));
    case Release(_, _, _) => SameThreads(s, Apply(s, a));
    case _ => SameTicket(s, Apply(s, a), a.t);
  }

  lemma SameThreads(s: Sched, s': Sched)
    requires TokenInv(s) && s'.token == s.token && s'.threads == s.threads
    ensures TokenInv(s')
  {
    forall k: nat | s.token.serving <= k < s.token.next ensures Owned(s', k) {
      assert Owned(s, k);
      var u: nat :| Owns(s, u, k);
      assert Owns(s', u, k);
    }
  }

  lemma {:induction false} RunKeepsToken(s: Sched, acts: seq<Action>)
    requires TokenInv(s) && IsRun(s, acts)
    ensures TokenInv(Run(s, acts))
    decreases |acts|
  {
    if acts != [] {
      StepKeepsToken(s, acts[0]);
      RunKeepsToken(Apply(s, acts[0]), acts[1..]);
    }
  }

  /** At most one thread runs, and every ticket from `serving` to `next` is owned by exactly one thread. */
  lemma OneHolder(s0: Sched, acts: seq<Action>, t: nat, u: nat)
    requires IsStart(s0) && IsRun(s0, acts)
    requires t < |Run(s0, acts).threads| && u < |Run(s0, acts).threads|
    ensures var s := Run(s0, acts);
            (s.threads[t].Running? && s.threads[u].Running? ==> t == u)
            && (forall k: nat :: s.token.serving <= k < s.token.next ==> Owned(s, k))
            && (forall k: nat :: Owns(s, t, k) && Owns(s, u, k) ==> t == u)
            && (forall k: nat :: Owns(s, t, k) ==> s.token.serving <= k < s.token.next)
  {
    RunKeepsToken(s0, acts);
  }

  /** A free token with waiting threads has exactly one next owner. */
  lemma NextOwner(s0: Sched, acts: seq<Action>)
    requires IsStart(s0) && IsRun(s0, acts)
    ensures var s := Run(s0, acts);
            !s.token.held && s.token.serving < s.token.next ==>
              exists t :: Enabled(s, Grant(t)) && forall u :: Enabled(s, Grant(u)) ==> u == t
  {
    RunKeepsToken(s0, acts);
    if !Run(s0, acts).token.held && Run(s0, acts).token.serving < Run(s0, acts).token.next {
      var t := OwnerOfServed(Run(s0, acts));
    }
  }

  lemma OwnerOfServed(s: Sched) returns (t: nat)
    requires TokenInv(s) && !s.token.held && s.token.serving < s.token.next
    ensures Enabled(s, Grant(t)) && forall u :: Enabled(s, Grant(u)) ==> u == t
  {
    assert Owned(s, s.token.serving);
    t :| Owns(s, t, s.token.serving);
  }

  // ---- order of grants ---------------------------------------------------------------------------

  /** The tickets granted in a run, in order. */
  ghost function Grants(s: Sched, acts: seq<Action>): seq<nat>
    requires IsRun(s, acts)
    decreases |acts|
  {
    if acts == [] then []
    else
      (if acts[0].Grant? then [s.threads[acts[0].t].ticket] else []) + Grants(Apply(s, acts[0]), acts[1..])
  }

  /** The first ticket not yet granted. */
  function Upcoming(k: Token): nat {
    k.serving + if k.held then 1 else 0
  }

  lemma StepGrants(s: Sched, a: Action)
    requires TokenInv(s) && Enabled(s, a)
    ensures Upcoming(Apply(s, a).token) == Upcoming(s.token) + if a.Grant? then 1 else 0
    ensures a.Grant? ==> s.threads[a.t].ticket == Upcoming(s.token)
  {
  }

  lemma {:induction false} GrantedInOrder(s: Sched, acts: seq<Action>)
    requires TokenInv(s) && IsRun(s, acts)
    ensures Grants(s, acts) == seq(|Grants(s, acts)|, i requires 0 <= i => Upcoming(s.token) + i)
    decreases |acts|
  {
    if acts != [] {
      var s' := Apply(s, acts[0]);
      StepGrants(s, acts[0]);
      StepKeepsToken(s, acts[0]);
      GrantedInOrder(s', acts[1..]);
    }
  }

  // ---- objects over all runs ---------------------------------------------------------------------

  /** The index chosen for a satisfied wait still stands for signaled objects. */
  predicate Chosen(objs: seq<Obj>, w: Wait, i: nat) {
    if w.any then i < |w.ids| && Signaled(objs, w.ids[i]) else i == 0 && AllSignaled(objs, w.ids)
  }

  /** A wait-all that names no consumable object twice. */
  predicate WellNamed(objs: seq<Obj>, w: Wait) {
    w.any || NamedOnce(objs, w.ids)
  }

  /** FairWaitUntil has returned. */
  predicate Returned(task: Task) {
    task.Satisfied? || task.Picked? || task.TimedOut?
  }

  /** What a thread was promised: by FairWaitUntil's success only while it holds the token. */
  predicate Promised(objs: seq<Obj>, p: Phase) {
    match p
    case Blocked(_) => true
    case Running(_, Satisfied(w)) => Ready(objs, w)
    case Running(_, Picked(w, i)) => Chosen(objs, w, i)
    case Running(_, _) => true
    case Outside(task) => !Returned(task)
    case Queued(_, task) => !Returned(task)
  }

  predicate PromiseInv(s: Sched) {
    forall t :: 0 <= t < |s.threads| ==> Promised(s.objs, s.threads[t])
  }

  predicate TaskNamed(objs: seq<Obj>, task: Task) {
    task.Guest? || WellNamed(objs, task.w)
  }

  /** And a wait that a thread is in names no consumable object twice. */
  predicate Kept(objs: seq<Obj>, p: Phase) {
    Promised(objs, p) && if p.Blocked? then WellNamed(objs, p.w) else TaskNamed(objs, p.task)
  }

  predicate ObjInv(s: Sched) {
    NonNegative(s.objs) && forall t :: 0 <= t < |s.threads| ==> Kept(s.objs, s.threads[t])
  }

  /**
   * The guest never waits for all of a list that names a consumable object twice, and releases no semaphore
   * to a count below 0 or past the largest int32_t.
   */
  predicate Careful(s: Sched, a: Action) {
    (a.BeginWait? ==> WellNamed(s.objs, a.w))
    && (a.Release? && a.o < |s.objs| ==> 0 <= s.objs[a.o].state + a.n < 0x8000_0000)
  }

  /** Exactly when a release leaves a semaphore in credit. */
  lemma ReleaseStaysNonNegative(s: Sched, t: nat, o: nat, n: int)
    requires Enabled(s, Release(t, o, n)) && 0 <= s.objs[o].state < 0x8000_0000
    ensures Apply(s, Release(t, o, n)).objs[o].state >= 0 <==> Careful(s, Release(t, o, n))
  {
  }

  lemma SignalsStay(objs: seq<Obj>, objs': seq<Obj>, p: Phase)
    requires SameKinds(objs, objs') && Kept(objs, p)
    requires (forall o: nat :: Signaled(objs, o) ==> Signaled(objs', o))
             || !p.Running? || !(p.task.Satisfied? || p.task.Picked?)
    ensures Kept(objs', p)
  {
    if p.Running? && p.task.Satisfied? {
      ReadyStays(objs, objs', p.task.w);
    }
  }

  lemma ReadyStays(objs: seq<Obj>, objs': seq<Obj>, w: Wait)
    requires Ready(objs, w) && forall o: nat :: Signaled(objs, o) ==> Signaled(objs', o)
    ensures Ready(objs', w)
  {
    if w.any {
      var i := FirstSignaled(objs, w.ids, 0);
      assert Signaled(objs', w.ids[i]);
    }
  }

  /** While a thread runs, no other thread holds a promise. */
  lemma OthersHoldNothing(s: Sched, t: nat, u: nat)
    requires TokenInv(s) && t < |s.threads| && u < |s.threads| && t != u && s.threads[t].Running?
    ensures !s.threads[u].Running?
  {
  }

  /** A running thread changes object states. */
  lemma HolderWrites(s: Sched, t: nat, p: Phase, objs: seq<Obj>)
    requires TokenInv(s) && ObjInv(s) && t < |s.threads| && s.threads[t].Running?
    requires SameKinds(s.objs, objs) && NonNegative(objs) && p.Running? && p.task == Guest
    ensures ObjInv(Move(s, t, p).(objs := objs))
  {
    forall u | 0 <= u < |s.threads| && u != t ensures Kept(objs, s.threads[u]) {
      OthersHoldNothing(s, t, u);
      SignalsStay(s.objs, objs, s.threads[u]);
    }
  }

  lemma TakeKeeps(objs: seq<Obj>, task: Task)
    requires task.Picked? && WellNamed(objs, task.w) && Chosen(objs, task.w, task.i) && NonNegative(objs)
    ensures SameKinds(objs, Taken(objs, task)) && NonNegative(Taken(objs, task))
  {
    if !task.w.any {
      forall o | 0 <= o < |objs|
        ensures ConsumeAll(objs, task.w.ids)[o] == objs[o].(state := ConsumeAll(objs, task.w.ids)[o].state)
        ensures Consumable(objs[o]) ==> Times(task.w.ids, o) <= objs[o].state
      {
        ConsumeAllTakes(objs, task.w.ids, o);
        if Consumable(objs[o]) && o in task.w.ids {
          assert Signaled(objs, o);
        }
      }
      WaitAllStaysNonNegative(objs, task.w.ids);
    }
  }

  lemma StepKeepsObjects(s: Sched, a: Action)
    requires TokenInv(s) && ObjInv(s) && Enabled(s, a) && Careful(s, a)
    ensures ObjInv(Apply(s, a)) && SameKinds(s.objs, Apply(s, a).objs)
  {
    if a.Take? || a.SetState? || a.Release? {
      WriteKeepsObjects(s, a);
    } else if a.TimerFires? {
      var objs := Apply(s, a).objs;
      assert forall o: nat :: Signaled(s.objs, o) ==> Signaled(objs, o);
      forall u | 0 <= u < |s.threads| ensures Kept(objs, s.threads[u]) {
        SignalsStay(s.objs, objs, s.threads[u]);
      }
    } else {
      MoveKeepsObjects(s, a);
    }
  }

  lemma WriteKeepsObjects(s: Sched, a: Action)
    requires TokenInv(s) && ObjInv(s) && Enabled(s, a) && Careful(s, a) && (a.Take? || a.SetState? || a.Release?)
    ensures ObjInv(Apply(s, a)) && SameKinds(s.objs, Apply(s, a).objs)
  {
    if a.Take? {
      assert Kept(s.objs, s.threads[a.t]);
      TakeKeeps(s.objs, s.threads[a.t].task);
      HolderWrites(s, a.t, Apply(s, a).threads[a.t], Taken(s.objs, s.threads[a.t].task));
    } else {
      HolderWrites(s, a.t, s.threads[a.t], Apply(s, a).objs);
      assert s.threads[a.t := s.threads[a.t]] == s.threads;
    }
  }

  lemma MoveKeepsObjects(s: Sched, a: Action)
    requires ObjInv(s) && Enabled(s, a) && Careful(s, a)
    requires !a.Take? && !a.SetState? && !a.Release? && !a.TimerFires?
    ensures ObjInv(Apply(s, a)) && s.objs == Apply(s, a).objs
  {
    assert Kept(s.objs, s.threads[a.t]);
    assert Kept(s.objs, Apply(s, a).threads[a.t]);
  }

  ghost predicate IsCarefulRun(s: Sched, acts: seq<Action>)
    decreases |acts|
  {
    acts == [] || (Enabled(s, acts[0]) && Careful(s, acts[0]) && IsCarefulRun(Apply(s, acts[0]), acts[1..]))
  }

  lemma {:induction false} RunKeepsObjects(s: Sched, acts: seq<Action>)
    requires TokenInv(s) && ObjInv(s) && IsCarefulRun(s, acts)
    ensures IsRun(s, acts) && TokenInv(Run(s, acts)) && ObjInv(Run(s, acts)) && SameKinds(s.objs, Run(s, acts).objs)
    decreases |acts|
  {
    if acts != [] {
      StepKeepsToken(s, acts[0]);
      StepKeepsObjects(s, acts[0]);
      RunKeepsObjects(Apply(s, acts[0]), acts[1..]);
    }
  }

  /** In every reachable state no object is in debt. */
  lemma NoDebt(s0: Sched, acts: seq<Action>)
    requires IsStart(s0) && IsCarefulRun(s0, acts)
    ensures IsRun(s0, acts) && NonNegative(Run(s0, acts).objs)
  {
    RunKeepsObjects(s0, acts);
  }

  // ---- what FairWaitUntil promises, over all runs ------------------------------------------------

  /** More signals, or no running thread that was promised any. */
  lemma PromiseStays(objs: seq<Obj>, objs': seq<Obj>, p: Phase)
    requires Promised(objs, p)
    requires (forall o: nat :: Signaled(objs, o) ==> Signaled(objs', o)) || !p.Running?
    ensures Promised(objs', p)
  {
    if p.Running? && p.task.Satisfied? {
      ReadyStays(objs, objs', p.task.w);
    }
  }

  lemma StepKeepsPromises(s: Sched, a: Action)
    requires TokenInv(s) && PromiseInv(s) && Enabled(s, a)
    ensures PromiseInv(Apply(s, a))
  {
    if a.TimerFires? {
      TimerKeepsPromises(s, a.o);
    } else if a.Take? || a.SetState? || a.Release? {
      WriteKeepsPromises(s, a);
    } else {
      assert Promised(s.objs, s.threads[a.t]);
      assert Promised(s.objs, Apply(s, a).threads[a.t]);
    }
  }

  lemma TimerKeepsPromises(s: Sched, o: nat)
    requires PromiseInv(s) && Enabled(s, TimerFires(o))
    ensures PromiseInv(Apply(s, TimerFires(o)))
  {
    var objs := Apply(s, TimerFires(o)).objs;
    assert forall k: nat :: Signaled(s.objs, k) ==> Signaled(objs, k);
    forall u | 0 <= u < |s.threads| ensures Promised(objs, s.threads[u]) {
      PromiseStays(s.objs, objs, s.threads[u]);
    }
  }

  lemma WriteKeepsPromises(s: Sched, a: Action)
    requires TokenInv(s) && PromiseInv(s) && Enabled(s, a) && (a.Take? || a.SetState? || a.Release?)
    ensures PromiseInv(Apply(s, a))
  {
    var s' := Apply(s, a);
    forall u | 0 <= u < |s.threads| && u != a.t ensures Promised(s'.objs, s'.threads[u]) {
      OthersHoldNothing(s, a.t, u);
      PromiseStays(s.objs, s'.objs, s.threads[u]);
    }
    assert Promised(s'.objs, s'.threads[a.t]);
  }

  lemma {:induction false} RunKeepsPromises(s: Sched, acts: seq<Action>)
    requires TokenInv(s) && PromiseInv(s) && IsRun(s, acts)
    ensures TokenInv(Run(s, acts)) && PromiseInv(Run(s, acts))
    decreases |acts|
  {
    if acts != [] {
      StepKeepsToken(s, acts[0]);
      StepKeepsPromises(s, acts[0]);
      RunKeepsPromises(Apply(s, acts[0]), acts[1..]);
    }
  }

  /**
   * In every reachable state, whatever the guest does, a thread whose FairWaitUntil returned holds the token; when it
   * returned true its wait is ready, and neither the choice of an index nor the taking of its units can get stuck.
   */
  lemma ReturnsHolding(s0: Sched, acts: seq<Action>, t: nat)
    requires IsStart(s0) && IsRun(s0, acts) && t < |Run(s0, acts).threads|
    ensures HoldsPromise(Run(s0, acts), t)
  {
    RunKeepsPromises(s0, acts);
    PromiseHeld(Run(s0, acts), t);
  }

  predicate HoldsPromise(s: Sched, t: nat)
    requires t < |s.threads|
  {
    var p := s.threads[t];
    !p.Blocked? && Returned(p.task) ==>
      p.Running? && s.token.held && p.ticket == s.token.serving
      && (p.task.Satisfied? ==> Ready(s.objs, p.task.w) && Enabled(s, Pick(t)))
      && (p.task.Picked? ==> Chosen(s.objs, p.task.w, p.task.i) && Enabled(s, Take(t)))
      && (p.task.TimedOut? ==> Enabled(s, GiveUp(t)))
  }

  lemma PromiseHeld(s: Sched, t: nat)
    requires TokenInv(s) && PromiseInv(s) && t < |s.threads|
    ensures HoldsPromise(s, t)
  {
    assert Promised(s.objs, s.threads[t]);
  }

  /** It returns false only when the wait was not ready at its last look, and then takes nothing. */
  lemma FailsOnlyUnready(s: Sched, a: Action, t: nat)
    requires TokenInv(s) && Enabled(s, a) && t < |s.threads| && !s.threads[t].Blocked? && !s.threads[t].task.TimedOut?
    requires !Apply(s, a).threads[t].Blocked? && Apply(s, a).threads[t].task.TimedOut?
    ensures a == Look(t) && !Ready(s.objs, s.threads[t].task.w) && Apply(s, a).objs == s.objs
    ensures Apply(s, a).threads[t].Running?
  {
  }

  // ---- what waits take ---------------------------------------------------------------------------

  /** The index picked is the least ready one at that moment. */
  lemma PickIsLeast(s: Sched, t: nat)
    requires Enabled(s, Pick(t)) && s.threads[t].task.w.any
    ensures var ids := s.threads[t].task.w.ids; var i := Apply(s, Pick(t)).threads[t].task.i;
            i < |ids| && Signaled(s.objs, ids[i]) && (forall j :: 0 <= j < i ==> !Signaled(s.objs, ids[j]))
  {
  }

  /** A wait-any takes one unit of the object at its index, a wait-all one of every object it names. */
  predicate Takes(objs: seq<Obj>, task: Task, o: nat)
    requires task.Picked? && (task.w.any ==> task.i < |task.w.ids|)
  {
    o < |objs| && Consumable(objs[o]) && if task.w.any then task.w.ids[task.i] == o else o in task.w.ids
  }

  lemma TakesOneUnitEach(s: Sched, t: nat, o: nat)
    requires ObjInv(s) && Enabled(s, Take(t)) && o < |s.objs|
    ensures var task := s.threads[t].task;
            Apply(s, Take(t)).objs[o] == s.objs[o].(state := s.objs[o].state - if Takes(s.objs, task, o) then 1 else 0)
            && (Takes(s.objs, task, o) ==> s.objs[o].state > 0)
  {
    var task := s.threads[t].task;
    assert Kept(s.objs, s.threads[t]);
    if !task.w.any {
      ConsumeAllTakes(s.objs, task.w.ids, o);
      if Takes(s.objs, task, o) {
        assert Signaled(s.objs, o);
      }
    }
  }

  predicate TakesAt(s: Sched, a: Action, o: nat)
    requires Enabled(s, a)
  {
    match a
    case Take(t) => Takes(s.objs, s.threads[t].task, o)
    case _ => false
  }

  /** Successful waits in a run that took a unit of o. */
  ghost function Waits(s: Sched, acts: seq<Action>, o: nat): nat
    requires IsRun(s, acts)
    decreases |acts|
  {
    if acts == [] then 0
    else
      (if TakesAt(s, acts[0], o) then 1 else 0) + Waits(Apply(s, acts[0]), acts[1..], o)
  }

  /** Units released to o in a run. */
  function Released(acts: seq<Action>, o: nat): int
    decreases |acts|
  {
    if acts == [] then 0
    else (if acts[0].Release? && acts[0].o == o then acts[0].n else 0) + Released(acts[1..], o)
  }

  /** Over every run: semaphore state = initial + released - successful waits. */
  lemma {:induction false} SemaphoreConserved(s: Sched, acts: seq<Action>, o: nat)
    requires TokenInv(s) && ObjInv(s) && IsCarefulRun(s, acts)
    requires o < |s.objs| && s.objs[o].ty == 5 && !s.objs[o].timer
    ensures IsRun(s, acts) && |Run(s, acts).objs| == |s.objs|
    ensures Run(s, acts).objs[o].state == s.objs[o].state + Released(acts, o) - Waits(s, acts, o)
    decreases |acts|
  {
    if acts != [] {
      var a := acts[0];
      StepKeepsToken(s, a);
      StepKeepsObjects(s, a);
      SemaphoreConserved(Apply(s, a), acts[1..], o);
      if a.Take? {
        TakesOneUnitEach(s, a.t, o);
      }
    }
  }

  /** Units of o that waits took in a run: a wait-all takes one for every mention. */
  ghost function Units(s: Sched, acts: seq<Action>, o: nat): nat
    requires IsRun(s, acts)
    decreases |acts|
  {
    if acts == [] then 0 else UnitsAt(s, acts[0], o) + Units(Apply(s, acts[0]), acts[1..], o)
  }

  function UnitsAt(s: Sched, a: Action, o: nat): nat
    requires Enabled(s, a)
  {
    match a
    case Take(t) =>
      var task := s.threads[t].task;
      if !task.w.any then Times(task.w.ids, o) else if task.w.ids[task.i] == o then 1 else 0
    case _ => 0
  }

  /**
   * Over every run at all, with negative releases, sums past 32 bits and objects named twice: semaphore state
   * = initial + released - units taken, as 32-bit counts.
   */
  lemma {:induction false} UnitsConserved(s: Sched, acts: seq<Action>, o: nat)
    requires IsRun(s, acts) && o < |s.objs| && s.objs[o].ty == 5 && !s.objs[o].timer
    ensures |Run(s, acts).objs| == |s.objs|
    ensures SameCount(Run(s, acts).objs[o].state, s.objs[o].state + Released(acts, o) - Units(s, acts, o))
    decreases |acts|
  {
    if acts != [] {
      var a, s' := acts[0], Apply(s, acts[0]);
      StepConserves(s, a, o);
      UnitsConserved(s', acts[1..], o);
      var r, u := Released(acts[1..], o), Units(s', acts[1..], o);
      var r0 := if a.Release? && a.o == o then a.n else 0;
      CountsAdd(Run(s, acts).objs[o].state, s'.objs[o].state, r - u, s.objs[o].state + r0 - UnitsAt(s, a, o));
    }
  }

  predicate SameCount(a: int, b: int) {
    (a - b) % 0x1_0000_0000 == 0
  }

  lemma CountsAdd(a: int, b: int, d: int, c: int)
    requires SameCount(a, b + d) && SameCount(b, c)
    ensures SameCount(a, c + d)
  {
    var k, l := (a - b - d) / 0x1_0000_0000, (b - c) / 0x1_0000_0000;
    assert a - (c + d) == (k + l) * 0x1_0000_0000;
  }

  lemma StepConserves(s: Sched, a: Action, o: nat)
    requires Enabled(s, a) && o < |s.objs| && s.objs[o].ty == 5 && !s.objs[o].timer
    ensures var objs := Apply(s, a).objs;
            |objs| == |s.objs| && objs[o].ty == 5 && !objs[o].timer
            && SameCount(objs[o].state, s.objs[o].state + (if a.Release? && a.o == o then a.n else 0) - UnitsAt(s, a, o))
  {
    if a.Take? && !s.threads[a.t].task.w.any {
      ConsumeAllTakes(s.objs, s.threads[a.t].task.w.ids, o);
    }
  }

  // ---- a wait into debt --------------------------------------------------------------------------

  /** The steps of one thread that waits for all of a list of signaled objects. */
  function WaitOnce(w: Wait): seq<Action> {
    [Ask(0), Grant(0), BeginWait(0, w), Check(0), Pick(0), Take(0)]
  }

  /** Such a wait runs to its end. */
  lemma WaitRuns(objs: seq<Obj>, w: Wait)
    requires !w.any && AllSignaled(objs, w.ids)
    ensures var s0 := Sched(Token(0, 0, false), [Outside(Guest)], objs);
            IsRun(s0, WaitOnce(w)) && Run(s0, WaitOnce(w)).objs == ConsumeAll(objs, w.ids)
  {
    var s0 := Sched(Token(0, 0, false), [Outside(Guest)], objs);
    var s1 := Sched(Token(1, 0, false), [Queued(0, Guest)], objs);
    var s2 := Sched(Token(1, 0, true), [Running(0, Guest)], objs);
    var s3 := Sched(Token(1, 0, true), [Running(0, Recheck(w))], objs);
    WaitEnds(objs, w, s3);
    RunOf(s2, BeginWait(0, w), s3, [Check(0), Pick(0), Take(0)]);
    RunOf(s1, Grant(0), s2, [BeginWait(0, w), Check(0), Pick(0), Take(0)]);
    RunOf(s0, Ask(0), s1, [Grant(0), BeginWait(0, w), Check(0), Pick(0), Take(0)]);
  }

  lemma WaitEnds(objs: seq<Obj>, w: Wait, s3: Sched)
    requires !w.any && AllSignaled(objs, w.ids) && s3 == Sched(Token(1, 0, true), [Running(0, Recheck(w))], objs)
    ensures IsRun(s3, [Check(0), Pick(0), Take(0)])
    ensures Run(s3, [Check(0), Pick(0), Take(0)]).objs == ConsumeAll(objs, w.ids)
  {
    var s4 := Sched(Token(1, 0, true), [Running(0, Satisfied(w))], objs);
    var s5 := Sched(Token(1, 0, true), [Running(0, Picked(w, 0))], objs);
    var s6 := Sched(Token(1, 0, true), [Running(0, Guest)], ConsumeAll(objs, w.ids));
    RunOf(s5, Take(0), s6, []);
    RunOf(s4, Pick(0), s5, [Take(0)]);
    RunOf(s3, Check(0), s4, [Pick(0), Take(0)]);
  }

  /** Every list outside the rule, of existing objects, has a run from a start that ends with a negative state. */
  lemma DebtIsReached(objs: seq<Obj>, w: Wait) returns (s0: Sched)
    requires !WellNamed(objs, w) && InTable(objs, w.ids)
    ensures IsStart(s0) && SameKinds(objs, s0.objs) && IsRun(s0, WaitOnce(w))
    ensures !NonNegative(Run(s0, WaitOnce(w)).objs)
  {
    var ones := OneEach(objs);
    s0 := Sched(Token(0, 0, false), [Outside(Guest)], ones);
    assert AllSignaled(ones, w.ids);
    WaitRuns(ones, w);
    WaitAllStaysNonNegative(ones, w.ids);
    var o :| 0 <= o < |objs| && Consumable(objs[o]) && Times(w.ids, o) > 1;
    assert Consumable(ones[o]) && ones[o].state == 1;
  }

  lemma RunOf(s: Sched, a: Action, s': Sched, rest: seq<Action>)
    requires Enabled(s, a) && Apply(s, a) == s' && IsRun(s', rest)
    ensures IsRun(s, [a] + rest) && Run(s, [a] + rest) == Run(s', rest)
  {
    assert ([a] + rest)[1..] == rest;
  }

  // ---- the loops of the multi-object waits -------------------------------------------------------

  class ObjectTable {
    const objs: array<Obj>

    constructor (initial: seq<Obj>)
      ensures objs[..] == initial && fresh(objs)
    {
      objs := new Obj[|initial|](i requires 0 <= i < |initial| => initial[i]);
    }

    method FindReady(w: Wait) returns (index: int)
      ensures index == FirstReady(objs[..], w)
    {
      if w.any {
        var i := 0;
        while i < |w.ids|
          invariant i <= |w.ids| && FirstSignaled(objs[..], w.ids, i) == FirstSignaled(objs[..], w.ids, 0)
        {
          if w.ids[i] < objs.Length && objs[w.ids[i]].state > 0 { return i; }
          i := i + 1;
        }
        return -1;
      }
      var i := 0;
      while i < |w.ids|
        invariant i <= |w.ids| && forall j :: 0 <= j < i ==> Signaled(objs[..], w.ids[j])
      {
        if !(w.ids[i] < objs.Length && objs[w.ids[i]].state > 0) {
          assert !Signaled(objs[..], w.ids[i]);
          return -1;
        }
        i := i + 1;
      }
      return 0;
    }

    method TakeOne(o: nat)
      modifies objs
      ensures objs[..] == Consume(old(objs[..]), o)
    {
      if o < objs.Length {
        var ty := objs[o].ty;
        if ty == 1 || ty == 2 || ty == 5 {
          objs[o] := objs[o].(state := objs[o].state - 1);
        }
      }
    }

    method TakeAll(ids: seq<nat>)
      modifies objs
      ensures objs[..] == ConsumeAll(old(objs[..]), ids)
    {
      var i := 0;
      while i < |ids|
        invariant i <= |ids| && objs[..] == ConsumeAll(old(objs[..]), ids[..i])
      {
        TakeOne(ids[i]);
        assert ids[..i + 1][..i] == ids[..i];
        i := i + 1;
      }
      assert ids[..i] == ids;
    }

    /** The end of a satisfied wait: returns the status, and takes what the specification says. */
    method FinishWait(w: Wait) returns (status: nat)
      requires Ready(objs[..], w)
      modifies objs
      ensures objs[..] == Taken(old(objs[..]), Picked(w, FirstReady(old(objs[..]), w)))
      ensures status == FirstReady(old(objs[..]), w)
    {
      var index := FindReady(w);
      if w.any {
        TakeOne(w.ids[index]);
      } else {
        TakeAll(w.ids);
      }
      status := index;
    }
  }
}
