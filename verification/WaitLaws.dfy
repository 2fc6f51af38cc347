/**
 * The scheduler told from the actions of a run: what a thread may do next, when a wait can fail, and what the actions
 * do to the objects (varianta/runtime/kernel.cpp:1113-1193, 5025-5090, 5362-5445).
 */
module WaitLaws {
  import opened Words
  import opened Scheduler

  // ---- runs from their end -----------------------------------------------------------------------

  lemma {:induction false} RunAppend(s: Sched, acts: seq<Action>, a: Action)
    ensures IsRun(s, acts + [a]) <==> IsRun(s, acts) && Enabled(Run(s, acts), a)
    ensures IsRun(s, acts + [a]) ==> Run(s, acts + [a]) == Apply(Run(s, acts), a)
    decreases |acts|
  {
    if acts == [] {
      assert [a][1..] == [];
    } else {
      assert (acts + [a])[1..] == acts[1..] + [a];
      if Enabled(s, acts[0]) { RunAppend(Apply(s, acts[0]), acts[1..], a); }
    }
  }

  // ---- what a thread did -------------------------------------------------------------------------

  predicate Of(a: Action, t: nat) {
    !a.TimerFires? && a.t == t
  }

  /** The last action of thread t. */
  function Latest(acts: seq<Action>, t: nat): Option<Action> {
    if acts == [] then None
    else if Of(acts[|acts| - 1], t) then Some(acts[|acts| - 1])
    else Latest(acts[..|acts| - 1], t)
  }

  /** Its last action that is no step of the token's lock. */
  function Reason(acts: seq<Action>, t: nat): Option<Action> {
    if acts == [] then None
    else
      var a := acts[|acts| - 1];
      if Of(a, t) && !a.Ask? && !a.Grant? then Some(a) else Reason(acts[..|acts| - 1], t)
  }

  /** The wait that t began and did not end. */
  function OpenWait(acts: seq<Action>, t: nat): Option<Wait> {
    if acts == [] then None
    else
      var a := acts[|acts| - 1];
      if a == Take(t) || a == GiveUp(t) then None
      else if a.BeginWait? && a.t == t then Some(a.w)
      else OpenWait(acts[..|acts| - 1], t)
  }

  /** Its time has run out since it began. */
  predicate Expired(acts: seq<Action>, t: nat) {
    acts != [] &&
    var a := acts[|acts| - 1];
    if a == Timeout(t) then true
    else if a.BeginWait? && a.t == t then false
    else Expired(acts[..|acts| - 1], t)
  }

  predicate GuestAction(a: Action) {
    a.Unlock? || a.BeginWait? || a.SetState? || a.Release?
  }

  /** What t may do after its last action `l`; `r` is the last one that is no step of the lock. */
  predicate Follows(l: Option<Action>, r: Option<Action>, a: Action) {
    match l
    case None => a.Ask?
    case Some(b) =>
      match b
      case Unlock(_) => a.Ask?
      case Wake(_) => a.Ask?
      case Timeout(_) => a.Ask?
      case Ask(_) => a.Grant?
      case Grant(_) => if r.None? || r.value.Unlock? then GuestAction(a) else if r.value.Wake? then a.Check? else a.Look?
      case BeginWait(_, _) => a.Check?
      case Check(_) => a.Pick? || a.Yield?
      case Yield(_) => a.Wake? || a.Timeout?
      case Look(_) => a.Pick? || a.GiveUp?
      case Pick(_) => a.Take?
      case _ => GuestAction(a)
  }

  // ---- the phases are what the actions say -------------------------------------------------------

  /** The task with which a thread without the token asks for it. */
  predicate TaskFits(task: Task, r: Option<Action>, w: Option<Wait>, expired: bool) {
    match task
    case Guest => w.None? && (r.None? || r.value.Unlock?)
    case Recheck(v) => w == Some(v) && r.Some? && r.value.Wake?
    case LastLook(v) => w == Some(v) && r.Some? && r.value.Timeout? && v.finite && expired
    case _ => false
  }

  predicate PhaseFits(p: Phase, l: Option<Action>, r: Option<Action>, w: Option<Wait>, expired: bool) {
    match p
    case Outside(task) => TaskFits(task, r, w, expired) && l == r
    case Queued(_, task) => TaskFits(task, r, w, expired) && l.Some? && l.value.Ask?
    case Blocked(v) => w == Some(v) && l.Some? && l.value.Yield?
    case Running(_, task) =>
      l.Some? &&
      match task
      case Guest =>
        w.None? && (l.value.Take? || l.value.GiveUp? || l.value.SetState? || l.value.Release?
                    || (l.value.Grant? && TaskFits(task, r, w, expired)))
      case Recheck(v) => w == Some(v) && (l.value.BeginWait? || (l.value.Grant? && TaskFits(task, r, w, expired)))
      case LastLook(v) => l.value.Grant? && TaskFits(task, r, w, expired)
      case Yielding(v) => w == Some(v) && l.value.Check?
      case Satisfied(v) => w == Some(v) && (l.value.Check? || l.value.Look?)
      case Picked(v, _) => w == Some(v) && l.value.Pick?
      case TimedOut(v) => w == Some(v) && l.value.Look? && v.finite && expired
  }

  predicate Fits(s: Sched, acts: seq<Action>, t: nat)
    requires t < |s.threads|
  {
    PhaseFits(s.threads[t], Latest(acts, t), Reason(acts, t), OpenWait(acts, t), Expired(acts, t))
  }

  lemma LastAction(acts: seq<Action>, a: Action, t: nat)
    ensures Latest(acts + [a], t) == if Of(a, t) then Some(a) else Latest(acts, t)
    ensures Reason(acts + [a], t) == if Of(a, t) && !a.Ask? && !a.Grant? then Some(a) else Reason(acts, t)
    ensures OpenWait(acts + [a], t)
         == if a == Take(t) || a == GiveUp(t) then None else if a.BeginWait? && a.t == t then Some(a.w) else OpenWait(acts, t)
    ensures Expired(acts + [a], t)
         == if a == Timeout(t) then true else if a.BeginWait? && a.t == t then false else Expired(acts, t)
  {
    assert (acts + [a])[..|acts|] == acts;
  }

  lemma StepFits(s: Sched, acts: seq<Action>, a: Action, t: nat)
    requires t < |s.threads| && Fits(s, acts, t) && Enabled(s, a)
    ensures t < |Apply(s, a).threads| && Fits(Apply(s, a), acts + [a], t)
    ensures Of(a, t) ==> Follows(Latest(acts, t), Reason(acts, t), a)
  {
    LastAction(acts, a, t);
  }

  lemma {:induction false} RunFits(s0: Sched, acts: seq<Action>, t: nat)
    requires IsStart(s0) && IsRun(s0, acts) && t < |s0.threads|
    ensures |Run(s0, acts).threads| == |s0.threads| && Fits(Run(s0, acts), acts, t)
    decreases |acts|
  {
    if acts != [] {
      var n := |acts| - 1;
      assert acts[..n] + [acts[n]] == acts;
      RunAppend(s0, acts[..n], acts[n]);
      RunFits(s0, acts[..n], t);
      StepFits(Run(s0, acts[..n]), acts[..n], acts[n], t);
    }
  }

  /** In every run a thread does what comes next: a wait is checked, yields the token, and after it woke is checked
      again with the token; only one whose time ran out has a last look instead. */
  lemma ActionsFollow(s0: Sched, acts: seq<Action>, a: Action, t: nat)
    requires IsStart(s0) && IsRun(s0, acts + [a]) && Of(a, t)
    ensures Follows(Latest(acts, t), Reason(acts, t), a)
  {
    RunAppend(s0, acts, a);
    SameThreadCount(s0, acts);
    RunFits(s0, acts, t);
    StepFits(Run(s0, acts), acts, a, t);
  }

  lemma {:induction false} SameThreadCount(s: Sched, acts: seq<Action>)
    requires IsRun(s, acts)
    ensures |Run(s, acts).threads| == |s.threads|
    decreases |acts|
  {
    if acts != [] { SameThreadCount(Apply(s, acts[0]), acts[1..]); }
  }

  // ---- and it can go on --------------------------------------------------------------------------

  /** Object id of a table is signaled. */
  predicate Up(objs: seq<Obj>, id: nat) {
    id < |objs| && objs[id].state > 0
  }

  /** A wait for any can end when one object is up, a wait for all when all are. */
  predicate CanEnd(objs: seq<Obj>, w: Wait) {
    if w.any then exists j :: 0 <= j < |w.ids| && Up(objs, w.ids[j]) else forall j :: 0 <= j < |w.ids| ==> Up(objs, w.ids[j])
  }

  lemma ReadyIs(objs: seq<Obj>, w: Wait)
    ensures Ready(objs, w) == CanEnd(objs, w)
  {
    if w.any {
      var i := FirstSignaled(objs, w.ids, 0);
      if i >= 0 { assert Up(objs, w.ids[i]); }
      forall j | 0 <= j < |w.ids| ensures Up(objs, w.ids[j]) == Signaled(objs, w.ids[j]) {}
    } else {
      forall j | 0 <= j < |w.ids| ensures Up(objs, w.ids[j]) == Signaled(objs, w.ids[j]) {}
    }
  }

  /** What t can do in state s after its last action. */
  predicate GoesOn(s: Sched, t: nat, l: Option<Action>, r: Option<Action>, w: Option<Wait>) {
    if l.None? then Enabled(s, Ask(t))
    else
      match l.value
      case Unlock(_) => Enabled(s, Ask(t))
      case Wake(_) => Enabled(s, Ask(t))
      case Timeout(_) => Enabled(s, Ask(t))
      case Ask(_) =>
        t < |s.threads| && s.threads[t].Queued?
        && (!s.token.held && s.token.serving == s.threads[t].ticket ==> Enabled(s, Grant(t)))
      case Grant(_) =>
        if r.None? || r.value.Unlock? then Enabled(s, Unlock(t))
        else if r.value.Wake? then Enabled(s, Check(t))
        else Enabled(s, Look(t))
      case BeginWait(_, _) => Enabled(s, Check(t))
      case Check(_) => Enabled(s, Pick(t)) || Enabled(s, Yield(t))
      case Yield(_) =>
        w.Some? && if CanEnd(s.objs, w.value) then Enabled(s, Wake(t)) else w.value.finite ==> Enabled(s, Timeout(t))
      case Look(_) => Enabled(s, Pick(t)) || Enabled(s, GiveUp(t))
      case Pick(_) => Enabled(s, Take(t))
      case _ => Enabled(s, Unlock(t))
  }

  /** No thread is ever stuck: it waits for its turn, or for its objects, or can go on. */
  lemma NeverStuck(s0: Sched, acts: seq<Action>, t: nat)
    requires IsStart(s0) && IsRun(s0, acts) && t < |s0.threads|
    ensures GoesOn(Run(s0, acts), t, Latest(acts, t), Reason(acts, t), OpenWait(acts, t))
  {
    var s := Run(s0, acts);
    RunFits(s0, acts, t);
    RunKeepsPromises(s0, acts);
    PromiseHeld(s, t);
    if s.threads[t].Blocked? { ReadyIs(s.objs, s.threads[t].w); }
    FitsGoesOn(s, t, Latest(acts, t), Reason(acts, t), OpenWait(acts, t), Expired(acts, t));
  }

  lemma FitsGoesOn(s: Sched, t: nat, l: Option<Action>, r: Option<Action>, w: Option<Wait>, expired: bool)
    requires t < |s.threads| && PhaseFits(s.threads[t], l, r, w, expired) && HoldsPromise(s, t)
    requires s.threads[t].Blocked? ==> Ready(s.objs, s.threads[t].w) == CanEnd(s.objs, s.threads[t].w)
    ensures GoesOn(s, t, l, r, w)
  {
  }

  // ---- when a wait fails -------------------------------------------------------------------------

  /** A wait without a timeout is never about to fail. */
  lemma InfiniteNeverFails(s0: Sched, acts: seq<Action>, t: nat)
    requires IsStart(s0) && IsRun(s0, acts) && t < |Run(s0, acts).threads|
    ensures var p := Run(s0, acts).threads[t];
            !p.Blocked? && (p.task.LastLook? || p.task.TimedOut?) ==> p.task.w.finite
  {
    SameThreadCount(s0, acts);
    RunFits(s0, acts, t);
  }

  /** t was timed out, and began no other wait since. */
  ghost predicate TimedOutSince(acts: seq<Action>, t: nat) {
    exists i :: 0 <= i < |acts| && acts[i] == Timeout(t)
                && forall j :: i < j < |acts| ==> !(acts[j].BeginWait? && acts[j].t == t)
  }

  /** t began the wait w and neither took nor gave it up. */
  ghost predicate BeganLast(acts: seq<Action>, t: nat, w: Wait) {
    exists i :: 0 <= i < |acts| && acts[i] == BeginWait(t, w)
                && forall j :: i < j < |acts| ==>
                     !(acts[j].BeginWait? && acts[j].t == t) && acts[j] != Take(t) && acts[j] != GiveUp(t)
  }

  lemma {:induction false} ExpiredMeans(acts: seq<Action>, t: nat)
    requires Expired(acts, t)
    ensures TimedOutSince(acts, t)
  {
    var n := |acts| - 1;
    if acts[n] != Timeout(t) {
      ExpiredMeans(acts[..n], t);
      var i :| 0 <= i < n && acts[..n][i] == Timeout(t)
               && forall j :: i < j < n ==> !(acts[..n][j].BeginWait? && acts[..n][j].t == t);
      forall j | i < j < |acts| ensures !(acts[j].BeginWait? && acts[j].t == t) {
        if j < n { assert acts[..n][j] == acts[j]; }
      }
      assert acts[i] == Timeout(t);
    }
  }

  lemma {:induction false} OpenMeans(acts: seq<Action>, t: nat, w: Wait)
    requires OpenWait(acts, t) == Some(w)
    ensures BeganLast(acts, t, w)
  {
    var n := |acts| - 1;
    if acts[n].BeginWait? && acts[n].t == t {
      assert acts[n] == BeginWait(t, w);
    } else {
      OpenMeans(acts[..n], t, w);
      var i :| 0 <= i < n && acts[..n][i] == BeginWait(t, w)
               && forall j :: i < j < n ==>
                    !(acts[..n][j].BeginWait? && acts[..n][j].t == t) && acts[..n][j] != Take(t) && acts[..n][j] != GiveUp(t);
      forall j | i < j < |acts|
        ensures !(acts[j].BeginWait? && acts[j].t == t) && acts[j] != Take(t) && acts[j] != GiveUp(t)
      {
        if j < n { assert acts[..n][j] == acts[j]; }
      }
      assert acts[i] == BeginWait(t, w);
    }
  }

  /** A wait is given up only when it was begun with a timeout and has been timed out since. */
  lemma FailureNeedsTimeout(s0: Sched, acts: seq<Action>, t: nat) returns (w: Wait)
    requires IsStart(s0) && IsRun(s0, acts + [GiveUp(t)])
    ensures w.finite && BeganLast(acts, t, w) && TimedOutSince(acts, t)
  {
    RunAppend(s0, acts, GiveUp(t));
    SameThreadCount(s0, acts);
    RunFits(s0, acts, t);
    w := OpenWait(acts, t).value;
    ExpiredMeans(acts, t);
    OpenMeans(acts, t, w);
  }

  // ---- what a wait takes -------------------------------------------------------------------------

  /** How many units of object o a wait takes when it ends by index i. */
  function Share(objs: seq<Obj>, w: Wait, i: nat, o: nat): nat
    requires o < |objs|
  {
    if objs[o].ty != 1 && objs[o].ty != 2 && objs[o].ty != 5 then 0
    else if !w.any then multiset(w.ids)[o]
    else if i < |w.ids| && w.ids[i] == o then 1
    else 0
  }

  ghost predicate TakesShares(objs: seq<Obj>, objs': seq<Obj>, w: Wait, i: nat) {
    |objs'| == |objs| && forall o :: 0 <= o < |objs| ==> objs'[o] == objs[o].(state := objs[o].state - Share(objs, w, i, o))
  }

  /** i is 0 for a wait for all, the least index of an object that is up for a wait for any. */
  predicate LeastUp(objs: seq<Obj>, w: Wait, i: nat) {
    if w.any then i < |w.ids| && Up(objs, w.ids[i]) && forall j :: 0 <= j < i ==> !Up(objs, w.ids[j]) else i == 0
  }

  lemma {:induction false} TimesIsCount(ids: seq<nat>, o: nat)
    ensures Times(ids, o) == multiset(ids)[o]
  {
    if ids != [] {
      TimesIsCount(ids[..|ids| - 1], o);
      assert ids[..|ids| - 1] + [ids[|ids| - 1]] == ids;
    }
  }

  /** A wait that can end takes its share of every object, by the least index; the status is that index. */
  lemma EndOfWait(objs: seq<Obj>, w: Wait)
    requires CanEnd(objs, w)
    ensures Ready(objs, w) && LeastUp(objs, w, FirstReady(objs, w))
    ensures TakesShares(objs, Taken(objs, Picked(w, FirstReady(objs, w))), w, FirstReady(objs, w))
  {
    ReadyIs(objs, w);
    var i := FirstReady(objs, w);
    if w.any {
      forall j | 0 <= j <= i ensures Up(objs, w.ids[j]) == Signaled(objs, w.ids[j]) {}
    } else {
      forall o | 0 <= o < |objs|
        ensures ConsumeAll(objs, w.ids)[o] == objs[o].(state := objs[o].state - Share(objs, w, i, o))
      {
        ConsumeAllTakes(objs, w.ids, o);
        TimesIsCount(w.ids, o);
      }
    }
  }

  /** The state after thread t ended its wait by index i. */
  ghost predicate Ended(s: Sched, s': Sched, t: nat, w: Wait, i: nat)
    requires t < |s.threads| && s.threads[t].Running?
  {
    && s' == s.(threads := s.threads[t := Running(s.threads[t].ticket, Guest)], objs := s'.objs)
    && TakesShares(s.objs, s'.objs, w, i)
  }

  /** A check or last look at a wait that can end leads to the taking of its units and to nothing else. */
  lemma LookTakes(s: Sched, a: Action, t: nat) returns (i: nat)
    requires (a == Check(t) || a == Look(t)) && Enabled(s, a) && CanEnd(s.objs, s.threads[t].task.w)
    ensures IsRun(s, [a, Pick(t), Take(t)]) && LeastUp(s.objs, s.threads[t].task.w, i)
    ensures Ended(s, Run(s, [a, Pick(t), Take(t)]), t, s.threads[t].task.w, i)
    ensures forall b :: Of(b, t) && Enabled(Apply(s, a), b) ==> b == Pick(t)
  {
    EndOfWait(s.objs, s.threads[t].task.w);
    i := FirstReady(s.objs, s.threads[t].task.w);
    TakeRun(s, a, t, s.threads[t].task.w, s.threads[t].ticket, i);
  }

  lemma TakeRun(s: Sched, a: Action, t: nat, w: Wait, k: nat, i: nat)
    requires (a == Check(t) || a == Look(t)) && Enabled(s, a)
    requires Ready(s.objs, w) && i == FirstReady(s.objs, w) && w == s.threads[t].task.w && k == s.threads[t].ticket
    ensures IsRun(s, [a, Pick(t), Take(t)])
    ensures Run(s, [a, Pick(t), Take(t)])
         == s.(threads := s.threads[t := Running(k, Guest)], objs := Taken(s.objs, Picked(w, i)))
    ensures forall b :: Of(b, t) && Enabled(Apply(s, a), b) ==> b == Pick(t)
  {
    var s1 := s.(threads := s.threads[t := Running(k, Satisfied(w))]);
    var s2 := s.(threads := s.threads[t := Running(k, Picked(w, i))]);
    var s3 := s.(threads := s.threads[t := Running(k, Guest)], objs := Taken(s.objs, Picked(w, i)));
    assert s1.threads[t := Running(k, Picked(w, i))] == s2.threads && s2.threads[t := Running(k, Guest)] == s3.threads;
    RunOf(s2, Take(t), s3, []);
    RunOf(s1, Pick(t), s2, [Take(t)]);
    RunOf(s, a, s1, [Pick(t), Take(t)]);
  }

  /** A check of a wait that cannot end yields the token and blocks on that wait. */
  lemma CheckYields(s: Sched, t: nat)
    requires Enabled(s, Check(t)) && !CanEnd(s.objs, s.threads[t].task.w)
    ensures IsRun(s, [Check(t), Yield(t)])
    ensures Run(s, [Check(t), Yield(t)])
         == s.(threads := s.threads[t := Blocked(s.threads[t].task.w)],
               token := s.token.(held := false, serving := s.token.serving + 1))
    ensures forall b :: Of(b, t) && Enabled(Apply(s, Check(t)), b) ==> b == Yield(t)
  {
    var w, k := s.threads[t].task.w, s.threads[t].ticket;
    ReadyIs(s.objs, w);
    var s1 := s.(threads := s.threads[t := Running(k, Yielding(w))]);
    var s2 := s.(threads := s.threads[t := Blocked(w)], token := s.token.(held := false, serving := s.token.serving + 1));
    assert s1.threads[t := Blocked(w)] == s2.threads;
    RunOf(s1, Yield(t), s2, []);
    RunOf(s, Check(t), s1, [Yield(t)]);
  }

  /** A last look at a wait that cannot end gives it up and takes nothing. */
  lemma LookGivesUp(s: Sched, t: nat)
    requires Enabled(s, Look(t)) && !CanEnd(s.objs, s.threads[t].task.w)
    ensures IsRun(s, [Look(t), GiveUp(t)])
    ensures Run(s, [Look(t), GiveUp(t)]) == s.(threads := s.threads[t := Running(s.threads[t].ticket, Guest)])
    ensures forall b :: Of(b, t) && Enabled(Apply(s, Look(t)), b) ==> b == GiveUp(t)
  {
    var w, k := s.threads[t].task.w, s.threads[t].ticket;
    ReadyIs(s.objs, w);
    var s1 := s.(threads := s.threads[t := Running(k, TimedOut(w))]);
    var s2 := s.(threads := s.threads[t := Running(k, Guest)]);
    assert s1.threads[t := Running(k, Guest)] == s2.threads;
    RunOf(s1, GiveUp(t), s2, []);
    RunOf(s, Look(t), s1, [GiveUp(t)]);
  }

  // ---- what the actions do to objects ------------------------------------------------------------

  /** Events and timers get the state that they are set to, semaphores what is released to them as a 32-bit count; apart
      from a wait's taking nothing else changes any object. */
  lemma ObjectLaw(s: Sched, a: Action, o: nat)
    requires Enabled(s, a) && !a.Take? && o < |s.objs|
    ensures |Apply(s, a).objs| == |s.objs|
    ensures var x, x' := s.objs[o], Apply(s, a).objs[o];
            && x'.ty == x.ty && x'.timer == x.timer
            && (a.SetState? && a.o == o ==> x'.state == a.state)
            && (a.TimerFires? && a.o == o ==> x'.state == 1)
            && (a.Release? && a.o == o && -0x8000_0000 <= x.state < 0x8000_0000 ==>
                  SameCount(x'.state, x.state + a.n) && -0x8000_0000 <= x'.state < 0x8000_0000)
            && (!((a.SetState? || a.TimerFires? || a.Release?) && a.o == o) ==> x' == x)
  {
    if a.Release? && a.o == o && -0x8000_0000 <= s.objs[o].state < 0x8000_0000 { ReleaseCount(s.objs[o].state, a.n); }
  }

  lemma ReleaseCount(x: int, n: int)
    requires -0x8000_0000 <= x < 0x8000_0000 && Int32(n) == n
    ensures SameCount(Int32(x + n), x + n) && -0x8000_0000 <= Int32(x + n) < 0x8000_0000
  {
  }
}
