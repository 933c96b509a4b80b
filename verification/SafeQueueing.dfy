/** SafeQueue: the lock sections as a class, and the mutex, condition variable and threads as a machine. */
module SafeQueueing {
  import opened Wrappers

  /** What a pop section takes from the queue once its wait, if any, is over. */
  function Front<T>(items: seq<T>): Option<T> {
    if items == [] then None else Some(items[0])
  }

  function Rest<T>(items: seq<T>): seq<T> {
    if items == [] then [] else items[1..]
  }

  /** The queue as one thread sees it while it holds the mutex. */
  class SafeQueue<T> {
    var queue: seq<T>
    var closed: bool

    constructor ()
      ensures queue == [] && !closed
    {
      queue, closed := [], false;
    }

    method Push(item: T)
      modifies this
      ensures queue == old(queue) + [item] && closed == old(closed)
    {
      queue := queue + [item];
    }

    /** pop() after its wait: the wait returns only when there is an item or the queue was shut down.
        None stands for the exception. */
    method Pop() returns (r: Option<T>)
      requires queue != [] || closed
      modifies this
      ensures r == old(Front(queue)) && queue == old(Rest(queue)) && closed == old(closed)
    {
      if queue == [] {
        return None;
      }
      r := Some(queue[0]);
      queue := queue[1..];
    }

    method TryPop() returns (r: Option<T>)
      modifies this
      ensures r == old(Front(queue)) && queue == old(Rest(queue)) && closed == old(closed)
    {
      if queue == [] {
        return None;
      }
      r := Some(queue[0]);
      queue := queue[1..];
    }

    /** pop_for() after its wait, which may also have ended by timeout. */
    method PopFor() returns (r: Option<T>)
      modifies this
      ensures r == old(Front(queue)) && queue == old(Rest(queue)) && closed == old(closed)
    {
      if queue == [] && !closed {
        return None;
      }
      if queue == [] {
        return None;
      }
      r := Some(queue[0]);
      queue := queue[1..];
    }

    method Shutdown()
      modifies this
      ensures closed && queue == old(queue)
    {
      closed := true;
    }
  }

  // ---------------------------------------------------------------- the threads

  datatype Kind = Blocking | Timed

  /** Where a thread is. Notifying: push() has released the mutex and not yet called notify_one.
      Entering: about to evaluate the predicate for the first time. Awake: woken, about to re-evaluate it. */
  datatype Pc =
    | Idle
    | Notifying
    | Entering(kind: Kind)
    | Asleep(kind: Kind)
    | Awake(kind: Kind, notified: bool, timedOut: bool)

  datatype Machine<T> = Machine(items: seq<T>, closed: bool, pcs: seq<Pc>, pushed: seq<T>, popped: seq<T>)

  datatype Step<T> =
    | PushItem(t: nat, item: T)
    | Notify(t: nat, target: Option<nat>)
    | TryPopItem(t: nat)
    | Enter(t: nat, kind: Kind)
    | Check(t: nat)
    | Spurious(t: nat)
    | Timeout(t: nat)
    | ShutdownAll(t: nat)

  function Init<T>(threads: nat): Machine<T> {
    Machine([], false, seq(threads, _ => Idle), [], [])
  }

  ghost predicate SomeoneAsleep(pcs: seq<Pc>) {
    exists i :: 0 <= i < |pcs| && pcs[i].Asleep?
  }

  ghost predicate Enabled<T>(m: Machine<T>, s: Step<T>) {
    && s.t < |m.pcs|
    && match s
       case PushItem(t, _) => m.pcs[t].Idle?
       // notify_one wakes one sleeper of the implementation's choice, and is lost only if there is none
       case Notify(t, None) => m.pcs[t].Notifying? && !SomeoneAsleep(m.pcs)
       case Notify(t, Some(u)) => m.pcs[t].Notifying? && u < |m.pcs| && m.pcs[u].Asleep?
       case TryPopItem(t) => m.pcs[t].Idle?
       case Enter(t, _) => m.pcs[t].Idle?
       case Check(t) => m.pcs[t].Entering? || m.pcs[t].Awake?
       case Spurious(t) => m.pcs[t].Asleep?
       case Timeout(t) => (m.pcs[t].Asleep? || m.pcs[t].Awake?) && m.pcs[t].kind == Timed
       case ShutdownAll(t) => m.pcs[t].Idle?
  }

  function WakeAll(pcs: seq<Pc>): (r: seq<Pc>)
    ensures |r| == |pcs|
  {
    seq(|pcs|, i requires 0 <= i < |pcs| => if pcs[i].Asleep? then Awake(pcs[i].kind, true, false) else pcs[i])
  }

  function Take<T>(m: Machine<T>, t: nat): Machine<T>
    requires t < |m.pcs|
  {
    var taken := if m.items == [] then [] else [m.items[0]];
    m.(items := Rest(m.items), popped := m.popped + taken, pcs := m.pcs[t := Idle])
  }

  function Apply<T>(m: Machine<T>, s: Step<T>): Machine<T>
    requires Enabled(m, s)
  {
    match s
    case PushItem(t, item) =>
      m.(items := m.items + [item], pushed := m.pushed + [item], pcs := m.pcs[t := Notifying])
    case Notify(t, None) =>
      m.(pcs := m.pcs[t := Idle])
    case Notify(t, Some(u)) =>
      m.(pcs := m.pcs[t := Idle][u := Awake(m.pcs[u].kind, true, false)])
    case TryPopItem(t) =>
      Take(m, t)
    case Enter(t, kind) =>
      m.(pcs := m.pcs[t := Entering(kind)])
    case Check(t) =>
      if m.items != [] || m.closed then Take(m, t)
      else if m.pcs[t].Awake? && m.pcs[t].timedOut then m.(pcs := m.pcs[t := Idle])
      else m.(pcs := m.pcs[t := Asleep(m.pcs[t].kind)])
    case Spurious(t) =>
      m.(pcs := m.pcs[t := Awake(m.pcs[t].kind, false, false)])
    case Timeout(t) =>
      m.(pcs := m.pcs[t := Awake(Timed, m.pcs[t].Awake? && m.pcs[t].notified, true)])
    case ShutdownAll(t) =>
      m.(closed := true, pcs := WakeAll(m.pcs))
  }

  ghost predicate IsAt<T>(m: Machine<T>, t: nat, pc: Pc) {
    t < |m.pcs| && m.pcs[t] == pc
  }

  /** Only a timed pop is ever marked as timed out. */
  ghost predicate OnlyTimedTimeOut<T>(m: Machine<T>) {
    forall i :: 0 <= i < |m.pcs| && m.pcs[i].Awake? && m.pcs[i].timedOut ==> m.pcs[i].kind == Timed
  }

  /** The machine's steps are the class's lock sections: performing a step on a queue that holds the machine's
      items leaves what Apply says, what the call hands out is what the machine records as popped, and the thread
      is idle again exactly when a pop came back or a notify was sent. */
  method Perform<T(0)>(q: SafeQueue<T>, m: Machine<T>, s: Step<T>) returns (r: Option<T>, returned: bool)
    requires Enabled(m, s) && OnlyTimedTimeOut(m) && q.queue == m.items && q.closed == m.closed
    modifies q
    ensures q.queue == Apply(m, s).items && q.closed == Apply(m, s).closed
    ensures Apply(m, s).popped == m.popped + if r.Some? then [r.value] else []
    ensures returned <==> IsAt(Apply(m, s), s.t, Idle)
  {
    r, returned := None, false;
    match s
    case PushItem(_, item) => q.Push(item);
    case Notify(_, _) => returned := true;
    case TryPopItem(_) => r := q.TryPop(); returned := true;
    case ShutdownAll(_) => q.Shutdown(); returned := true;
    case Check(t) =>
      if m.pcs[t].kind == Timed && (m.items != [] || m.closed || (m.pcs[t].Awake? && m.pcs[t].timedOut)) {
        r := q.PopFor();
        returned := true;
      } else if m.items != [] || m.closed {
        r := q.Pop();
        returned := true;
      }
    case _ =>
  }

  ghost predicate ValidRun<T>(m: Machine<T>, steps: seq<Step<T>>)
    decreases steps
  {
    steps == [] || (Enabled(m, steps[0]) && ValidRun(Apply(m, steps[0]), steps[1..]))
  }

  ghost function Run<T>(m: Machine<T>, steps: seq<Step<T>>): Machine<T>
    requires ValidRun(m, steps)
    decreases steps
  {
    if steps == [] then m else Run(Apply(m, steps[0]), steps[1..])
  }

  // -------------------------------------------------------------------- counting

  function Sum(pcs: seq<Pc>, weight: Pc -> nat): nat {
    if pcs == [] then 0 else weight(pcs[0]) + Sum(pcs[1..], weight)
  }

  lemma {:induction false} SumUpdate(pcs: seq<Pc>, weight: Pc -> nat, t: nat, pc: Pc)
    requires t < |pcs|
    ensures Sum(pcs[t := pc], weight) + weight(pcs[t]) == Sum(pcs, weight) + weight(pc)
  {
    if t == 0 {
      assert pcs[t := pc][1..] == pcs[1..];
    } else {
      assert pcs[t := pc][1..] == pcs[1..][t - 1 := pc];
      SumUpdate(pcs[1..], weight, t - 1, pc);
    }
  }

  lemma {:induction false} SumZero(pcs: seq<Pc>, weight: Pc -> nat)
    requires forall i :: 0 <= i < |pcs| ==> weight(pcs[i]) == 0
    ensures Sum(pcs, weight) == 0
  {
    if pcs != [] {
      SumZero(pcs[1..], weight);
    }
  }

  /** One for a notify still to come and one for a notified thread that has not rechecked yet. */
  const SIGNAL: Pc -> nat := (pc: Pc) => if pc.Notifying? || (pc.Awake? && pc.notified) then 1 else 0

  function Signals(pcs: seq<Pc>): nat {
    Sum(pcs, SIGNAL)
  }

  // -------------------------------------------------------------- the main invariant

  ghost predicate NoLostWakeup<T>(m: Machine<T>) {
    && (SomeoneAsleep(m.pcs) ==> |m.items| <= Signals(m.pcs))
    && (m.closed ==> !SomeoneAsleep(m.pcs))
  }

  ghost predicate FirstInFirstOut<T>(m: Machine<T>) {
    m.pushed == m.popped + m.items
  }

  lemma StillAsleep(pcs: seq<Pc>, t: nat, pc: Pc)
    requires t < |pcs| && !pc.Asleep?
    ensures SomeoneAsleep(pcs[t := pc]) ==> SomeoneAsleep(pcs)
  {
    if SomeoneAsleep(pcs[t := pc]) {
      var i :| 0 <= i < |pcs| && pcs[t := pc][i].Asleep?;
      assert pcs[i].Asleep?;
    }
  }

  lemma StepKeepsNoLostWakeup<T>(m: Machine<T>, s: Step<T>)
    requires Enabled(m, s) && NoLostWakeup(m)
    ensures NoLostWakeup(Apply(m, s))
  {
    var m' := Apply(m, s);
    var t := s.t;
    if s.Notify? && s.target.Some? {
      var u := s.target.value;
      SumUpdate(m.pcs, SIGNAL, t, Idle);
      SumUpdate(m.pcs[t := Idle], SIGNAL, u, Awake(m.pcs[u].kind, true, false));
      assert SomeoneAsleep(m.pcs);
    } else if !s.ShutdownAll? {
      SumUpdate(m.pcs, SIGNAL, t, m'.pcs[t]);
      assert m'.pcs == m.pcs[t := m'.pcs[t]];
      if !m'.pcs[t].Asleep? {
        StillAsleep(m.pcs, t, m'.pcs[t]);
      }
    }
  }

  lemma StepKeepsOrder<T>(m: Machine<T>, s: Step<T>)
    requires Enabled(m, s) && FirstInFirstOut(m)
    ensures FirstInFirstOut(Apply(m, s))
  {
    var m' := Apply(m, s);
    if m'.items == Rest(m.items) && m.items != [] {
      assert m.items == [m.items[0]] + m.items[1..];
    }
  }

  lemma {:induction false} RunKeepsInvariants<T>(m: Machine<T>, steps: seq<Step<T>>)
    requires ValidRun(m, steps) && NoLostWakeup(m) && FirstInFirstOut(m)
    ensures NoLostWakeup(Run(m, steps)) && FirstInFirstOut(Run(m, steps))
    ensures |Run(m, steps).pcs| == |m.pcs|
    decreases steps
  {
    if steps != [] {
      StepKeepsNoLostWakeup(m, steps[0]);
      StepKeepsOrder(m, steps[0]);
      RunKeepsInvariants(Apply(m, steps[0]), steps[1..]);
    }
  }

  /** In every reachable state of any number of threads: a sleeping consumer means that queued items do not
      outnumber the wakeups still under way, after shutdown nobody sleeps, and items leave in the order in
      which they came. */
  lemma {:induction false} NoWakeupIsLost<T>(threads: nat, steps: seq<Step<T>>)
    requires ValidRun(Init<T>(threads), steps)
    ensures var m := Run(Init<T>(threads), steps);
            && (SomeoneAsleep(m.pcs) ==> |m.items| <= Signals(m.pcs))
            && (m.closed ==> !SomeoneAsleep(m.pcs))
            && m.pushed == m.popped + m.items
  {
    RunKeepsInvariants(Init<T>(threads), steps);
  }

  lemma StepKeepsSignals<T>(m: Machine<T>, s: Step<T>)
    requires Enabled(m, s) && !s.ShutdownAll?
    ensures var m' := Apply(m, s);
            Signals(m'.pcs) - Signals(m.pcs) <= |m'.pushed| - |m.pushed|
  {
    var m' := Apply(m, s);
    SumUpdate(m.pcs, SIGNAL, s.t, m'.pcs[s.t]);
    if s.Notify? && s.target.Some? {
      var u := s.target.value;
      SumUpdate(m.pcs, SIGNAL, s.t, Idle);
      SumUpdate(m.pcs[s.t := Idle], SIGNAL, u, Awake(m.pcs[u].kind, true, false));
    } else {
      assert m'.pcs == m.pcs[s.t := m'.pcs[s.t]];
    }
  }

  /** No wakeup comes from nowhere: until a shutdown, the wakeups under way are at most the items ever pushed. */
  lemma {:induction false} SignalsComeFromPushes<T>(m: Machine<T>, steps: seq<Step<T>>)
    requires ValidRun(m, steps) && forall i :: 0 <= i < |steps| ==> !steps[i].ShutdownAll?
    ensures Signals(Run(m, steps).pcs) - Signals(m.pcs) <= |Run(m, steps).pushed| - |m.pushed|
    decreases steps
  {
    if steps != [] {
      StepKeepsSignals(m, steps[0]);
      SignalsComeFromPushes(Apply(m, steps[0]), steps[1..]);
    }
  }

  // ------------------------------------------------------------------- progress

  /** The steps that finish operations already begun: no new push, entry, timeout or spurious wakeup. */
  predicate Internal<T>(s: Step<T>) {
    s.Notify? || s.Check?
  }

  const WORK: Pc -> nat := (pc: Pc) =>
    match pc
    case Notifying => 2
    case Entering(_) => 1
    case Awake(_, _, _) => 1
    case Idle => 0
    case Asleep(_) => 0

  /** While an item is queued and a consumer sleeps, some thread can take a step that brings them together. */
  lemma NeverStuck<T>(m: Machine<T>) returns (next: Step<T>)
    requires NoLostWakeup(m) && SomeoneAsleep(m.pcs) && m.items != []
    ensures Enabled(m, next) && Internal(next)
  {
    if forall i :: 0 <= i < |m.pcs| ==> SIGNAL(m.pcs[i]) == 0 {
      SumZero(m.pcs, SIGNAL);
      assert false;
    }
    var t :| 0 <= t < |m.pcs| && SIGNAL(m.pcs[t]) != 0;
    if m.pcs[t].Notifying? {
      var u :| 0 <= u < |m.pcs| && m.pcs[u].Asleep?;
      next := Notify(t, Some(u));
    } else {
      next := Check(t);
    }
  }

  lemma InternalStepWorks<T>(m: Machine<T>, s: Step<T>)
    requires Enabled(m, s) && Internal(s)
    ensures Sum(Apply(m, s).pcs, WORK) < Sum(m.pcs, WORK)
  {
    var m' := Apply(m, s);
    SumUpdate(m.pcs, WORK, s.t, m'.pcs[s.t]);
    if s.Notify? && s.target.Some? {
      var u := s.target.value;
      SumUpdate(m.pcs[s.t := Idle], WORK, u, m'.pcs[u]);
    } else {
      assert m'.pcs == m.pcs[s.t := m'.pcs[s.t]];
    }
  }

  lemma {:induction false} InternalRunsAreShort<T>(m: Machine<T>, steps: seq<Step<T>>)
    requires ValidRun(m, steps) && forall i :: 0 <= i < |steps| ==> Internal(steps[i])
    ensures |steps| + Sum(Run(m, steps).pcs, WORK) <= Sum(m.pcs, WORK)
    decreases steps
  {
    if steps != [] {
      InternalStepWorks(m, steps[0]);
      InternalRunsAreShort(Apply(m, steps[0]), steps[1..]);
    }
  }

  lemma {:induction false} WorkBound(pcs: seq<Pc>)
    ensures Sum(pcs, WORK) <= 2 * |pcs|
  {
    if pcs != [] {
      WorkBound(pcs[1..]);
    }
  }

  /** From any reachable state, let threads only finish what they have begun. They take at most two steps
      each, and once none of them can continue no consumer sleeps in front of a queued item. */
  lemma {:induction false} ConsumersAreServed<T>(threads: nat, steps: seq<Step<T>>, more: seq<Step<T>>)
    requires ValidRun(Init<T>(threads), steps) && ValidRun(Run(Init<T>(threads), steps), more)
    requires forall i :: 0 <= i < |more| ==> Internal(more[i])
    ensures |more| <= 2 * threads
    ensures var m := Run(Run(Init<T>(threads), steps), more);
            (forall s: Step<T> :: Enabled(m, s) ==> !Internal(s)) ==> !SomeoneAsleep(m.pcs) || m.items == []
  {
    var m0 := Run(Init<T>(threads), steps);
    var m := Run(m0, more);
    RunKeepsInvariants(Init<T>(threads), steps);
    RunKeepsInvariants(m0, more);
    InternalRunsAreShort(m0, more);
    WorkBound(m0.pcs);
    if SomeoneAsleep(m.pcs) && m.items != [] {
      var next := NeverStuck(m);
      assert Enabled(m, next);
    }
  }

  // ------------------------------------------------------------------ how a pop ends

  lemma {:induction false} RunAppend<T>(m: Machine<T>, a: seq<Step<T>>, b: seq<Step<T>>)
    requires ValidRun(m, a)
    ensures ValidRun(m, a + b) <==> ValidRun(Run(m, a), b)
    ensures ValidRun(m, a + b) ==> Run(m, a + b) == Run(Run(m, a), b)
    decreases a
  {
    if a == [] {
      assert a + b == b;
    } else {
      assert (a + b)[0] == a[0] && (a + b)[1..] == a[1..] + b;
      RunAppend(Apply(m, a[0]), a[1..], b);
    }
  }

  lemma RunOne<T>(m: Machine<T>, s: Step<T>)
    requires Enabled(m, s)
    ensures ValidRun(m, [s]) && Run(m, [s]) == Apply(m, s)
  {
    assert [s][1..] == [];
  }

  /** None of these steps is taken by thread t. */
  ghost predicate OfOthers<T>(steps: seq<Step<T>>, t: nat) {
    forall i :: 0 <= i < |steps| ==> steps[i].t != t
  }

  /** What other threads can do to a waiting one: wake it up, if it sleeps. */
  ghost predicate StillOrWoken(pc: Pc, pc': Pc) {
    pc' == pc || (pc.Asleep? && pc' == Awake(pc.kind, true, false))
  }

  lemma {:induction false} OthersAtMostWake<T>(m: Machine<T>, steps: seq<Step<T>>, t: nat)
    requires t < |m.pcs| && ValidRun(m, steps) && OfOthers(steps, t)
    ensures |Run(m, steps).pcs| == |m.pcs| && StillOrWoken(m.pcs[t], Run(m, steps).pcs[t])
    decreases steps
  {
    if steps != [] {
      assert StillOrWoken(m.pcs[t], Apply(m, steps[0]).pcs[t]);
      OthersAtMostWake(Apply(m, steps[0]), steps[1..], t);
    }
  }

  /** The check of a pop, whatever other threads did since it began or was woken: it hands out the oldest item
      if one is queued then; otherwise it returns without one after a shutdown or its own timeout, and sleeps if
      there was neither. */
  lemma CheckAnswers<T>(m: Machine<T>, steps: seq<Step<T>>, t: nat)
    requires t < |m.pcs| && (m.pcs[t].Entering? || m.pcs[t].Awake?)
    requires ValidRun(m, steps) && OfOthers(steps, t)
    ensures ValidRun(m, steps + [Check(t)])
    ensures var before, after := Run(m, steps), Run(m, steps + [Check(t)]);
            var timedOut := m.pcs[t].Awake? && m.pcs[t].timedOut;
            && after.closed == before.closed
            && if before.items != [] then
                 && IsAt(after, t, Idle)
                 && after.popped == before.popped + [before.items[0]] && after.items == before.items[1..]
               else
                 && after.popped == before.popped && after.items == []
                 && IsAt(after, t, if before.closed || timedOut then Idle else Asleep(m.pcs[t].kind))
  {
    OthersAtMostWake(m, steps, t);
    RunAppend(m, steps, [Check(t)]);
    RunOne(Run(m, steps), Check(t));
  }

  /** An idle thread can begin any call: a pop then reaches its check, try_pop and shutdown are over at once, and
      push still has to notify. */
  lemma CallsCanBegin<T>(m: Machine<T>, t: nat, kind: Kind, item: T)
    requires t < |m.pcs| && m.pcs[t].Idle?
    ensures ValidRun(m, [Enter(t, kind)]) && IsAt(Run(m, [Enter(t, kind)]), t, Entering(kind))
    ensures ValidRun(m, [TryPopItem(t)]) && IsAt(Run(m, [TryPopItem(t)]), t, Idle)
    ensures ValidRun(m, [ShutdownAll(t)]) && IsAt(Run(m, [ShutdownAll(t)]), t, Idle)
    ensures ValidRun(m, [PushItem(t, item)]) && IsAt(Run(m, [PushItem(t, item)]), t, Notifying)
  {
    RunOne(m, Enter(t, kind));
    RunOne(m, TryPopItem(t));
    RunOne(m, ShutdownAll(t));
    RunOne(m, PushItem(t, item));
  }

  /** The timeout of a sleeping pop_for can always strike, whatever other threads did since it fell asleep, and
      is not forgotten. */
  lemma TimeoutStrikes<T>(m: Machine<T>, steps: seq<Step<T>>, t: nat)
    requires t < |m.pcs| && m.pcs[t] == Asleep(Timed)
    requires ValidRun(m, steps) && OfOthers(steps, t)
    ensures ValidRun(m, steps + [Timeout(t)])
    ensures var after := Run(m, steps + [Timeout(t)]);
            IsAt(after, t, Awake(Timed, false, true)) || IsAt(after, t, Awake(Timed, true, true))
  {
    OthersAtMostWake(m, steps, t);
    RunAppend(m, steps, [Timeout(t)]);
    RunOne(Run(m, steps), Timeout(t));
  }

  /** pop_for returns: once its timeout has struck, its next check ends it, whatever other threads do before and
      after the timeout, with the oldest item exactly when one is queued at that check. */
  lemma TimedPopReturns<T>(m: Machine<T>, a: seq<Step<T>>, b: seq<Step<T>>, t: nat)
    requires t < |m.pcs| && m.pcs[t] == Asleep(Timed)
    requires ValidRun(m, a + [Timeout(t)] + b) && OfOthers(a, t) && OfOthers(b, t)
    ensures ValidRun(m, a + [Timeout(t)] + b + [Check(t)])
    ensures var before, after := Run(m, a + [Timeout(t)] + b), Run(m, a + [Timeout(t)] + b + [Check(t)]);
            && IsAt(after, t, Idle)
            && after.popped == before.popped + (if before.items == [] then [] else [before.items[0]])
            && after.items == (if before.items == [] then [] else before.items[1..])
  {
    hide ValidRun, Run;
    var struck := a + [Timeout(t)];
    ValidPrefix(m, a, [Timeout(t)] + b);
    assert a + ([Timeout(t)] + b) == struck + b;
    TimeoutStrikes(m, a, t);
    RunAppend(m, struck, b);
    CheckAnswers(Run(m, struck), b, t);
    RunAppend(m, struck, b + [Check(t)]);
    assert struck + (b + [Check(t)]) == struck + b + [Check(t)];
  }

  lemma {:induction false} ValidPrefix<T>(m: Machine<T>, a: seq<Step<T>>, b: seq<Step<T>>)
    requires ValidRun(m, a + b)
    ensures ValidRun(m, a)
    decreases a
  {
    if a != [] {
      assert (a + b)[0] == a[0] && (a + b)[1..] == a[1..] + b;
      ValidPrefix(Apply(m, a[0]), a[1..], b);
    }
  }

  /** With nobody else running, a sleeping pop_for on an empty queue times out and returns empty-handed. */
  lemma TimesOutAlone<T>(m: Machine<T>, t: nat)
    requires t < |m.pcs| && m.pcs[t] == Asleep(Timed) && m.items == []
    ensures ValidRun(m, [Timeout(t), Check(t)])
    ensures Run(m, [Timeout(t), Check(t)]) == m.(pcs := m.pcs[t := Idle])
  {
    var m1 := Apply(m, Timeout(t));
    RunOne(m1, Check(t));
    var steps: seq<Step<T>> := [Timeout(t), Check(t)];
    assert steps[1..] == [Check(t)];
  }

  lemma {:induction false} RunKeepsKinds<T>(m: Machine<T>, steps: seq<Step<T>>)
    requires ValidRun(m, steps) && OnlyTimedTimeOut(m)
    ensures OnlyTimedTimeOut(Run(m, steps))
    decreases steps
  {
    if steps != [] {
      RunKeepsKinds(Apply(m, steps[0]), steps[1..]);
    }
  }

  /** The queue is shut down exactly when somebody has shut it down. */
  lemma {:induction false} ClosedIff<T>(m: Machine<T>, steps: seq<Step<T>>)
    requires ValidRun(m, steps)
    ensures Run(m, steps).closed <==> m.closed || exists i :: 0 <= i < |steps| && steps[i].ShutdownAll?
    decreases steps
  {
    if steps != [] {
      var m' := Apply(m, steps[0]);
      ClosedIff(m', steps[1..]);
      assert m'.closed <==> m.closed || steps[0].ShutdownAll?;
      forall i | 0 <= i < |steps| && steps[i].ShutdownAll?
        ensures Run(m, steps).closed
      {
        if i > 0 {
          assert steps[1..][i - 1].ShutdownAll?;
        }
      }
      if j :| 0 <= j < |steps| - 1 && steps[1..][j].ShutdownAll? {
        assert steps[j + 1].ShutdownAll?;
      }
    }
  }

  /** In every run from an empty open queue: the check of a blocking pop ends it if and only if an item is queued
      or somebody has shut the queue down. */
  lemma {:induction false} BlockingPopReturnsIff<T>(threads: nat, steps: seq<Step<T>>, t: nat)
    requires ValidRun(Init<T>(threads), steps)
    requires var m := Run(Init<T>(threads), steps); Enabled(m, Check(t)) && m.pcs[t].kind == Blocking
    ensures var m := Run(Init<T>(threads), steps);
            var shut := exists i :: 0 <= i < |steps| && steps[i].ShutdownAll?;
            IsAt(Apply(m, Check(t)), t, if m.items != [] || shut then Idle else Asleep(Blocking))
  {
    RunKeepsKinds(Init<T>(threads), steps);
    ClosedIff(Init<T>(threads), steps);
  }

  /** Shutdown releases everybody: in any state reached after one, a thread that waits in a pop of either kind can
      check at once and return. */
  lemma {:induction false} ShutdownReleases<T>(threads: nat, steps: seq<Step<T>>, i: nat, t: nat)
    requires ValidRun(Init<T>(threads), steps) && i < |steps| && steps[i].ShutdownAll?
    requires var pcs := Run(Init<T>(threads), steps).pcs;
             t < |pcs| && (pcs[t].Entering? || pcs[t].Asleep? || pcs[t].Awake?)
    ensures var m := Run(Init<T>(threads), steps);
            Enabled(m, Check(t)) && IsAt(Apply(m, Check(t)), t, Idle)
  {
    RunKeepsInvariants(Init<T>(threads), steps);
    ClosedIff(Init<T>(threads), steps);
  }
}
