/** The thread pool as interleaved steps of its workers, of the threads that add tasks, and of
    the thread that terminates it.  Tasks are numbered in the order in which they are added. */
module ThreadPool {

  datatype Worker =
    | Checking            // at the head of its loop
    | Popping             // in TimedPopFront
    | Running(task: nat)  // in the task's function
    | Exited

  /** Where Terminate stands: it sets m_exit of worker k, then m_waiting of worker k, waits for
      worker k to end, clears the queues. */
  datatype Phase = Before | Telling(k: nat) | Setting(k: nat) | Joining(k: nat) | Done

  /** told: how many workers have their m_exit set.  flagged: how many have their m_waiting set,
      to waiting; it is true before.  added: the number of tasks ever added.  late: of
      these, how many since the last worker exited. */
  datatype State = State(
    workers: seq<Worker>, told: nat, flagged: nat, waiting: bool, phase: Phase,
    pending: seq<nat>, executed: seq<nat>, lost: seq<nat>, added: nat, late: nat)

  datatype Event =
    | Add                        // AddTask
    | Check(i: nat)
    | Pop(i: nat)
    | Finish(i: nat)
    | Terminate(waiting: bool)
    | TellNext
    | SetNext
    | JoinNext

  function Init(n: nat): (r: State) {
    State(seq(n, _ => Checking), 0, 0, true, Before, [], [], [], 0, 0)
  }

  predicate AllExited(ws: seq<Worker>) {
    forall i | 0 <= i < |ws| :: ws[i].Exited?
  }

  predicate Enabled(s: State, e: Event) {
    match e
    case Add => true
    case Check(i) => i < |s.workers| && s.workers[i].Checking?
    case Pop(i) => i < |s.workers| && s.workers[i].Popping?
    case Finish(i) => i < |s.workers| && s.workers[i].Running?
    case Terminate(_) => s.phase.Before?
    case TellNext => s.phase.Telling?
    case SetNext => s.phase.Setting?
    case JoinNext => s.phase.Joining? && (s.phase.k < |s.workers| ==> s.workers[s.phase.k].Exited?)
  }

  /** The condition under which worker i leaves its loop. */
  predicate Leaves(s: State, i: nat) {
    i < s.told && ((i < s.flagged && !s.waiting) || s.pending == [])
  }

  function Set(s: State, i: nat, w: Worker): (r: State)
    requires i < |s.workers|
  {
    s.(workers := s.workers[i := w])
  }

  function Apply(s: State, e: Event): (r: State)
    requires Enabled(s, e)
  {
    match e
    case Add =>
      s.(pending := s.pending + [s.added], added := s.added + 1,
         late := if AllExited(s.workers) then s.late + 1 else 0)
    case Check(i) => Set(s, i, if Leaves(s, i) then Exited else Popping)
    case Pop(i) =>
      // a timeout returns nothing only if the queue is empty
      if s.pending == [] then Set(s, i, Checking)
      else Set(s, i, Running(s.pending[0])).(pending := s.pending[1..])
    case Finish(i) => Set(s, i, Checking).(executed := s.executed + [s.workers[i].task])
    case Terminate(w) => s.(phase := Telling(0), waiting := w)
    case TellNext =>
      if s.phase.k < |s.workers| then s.(told := s.phase.k + 1, phase := Setting(s.phase.k))
      else s.(phase := Joining(0))
    case SetNext => s.(flagged := s.phase.k + 1, phase := Telling(s.phase.k + 1))
    case JoinNext =>
      if s.phase.k < |s.workers| then s.(phase := Joining(s.phase.k + 1))
      else s.(phase := Done, lost := s.pending, pending := [])
  }

  predicate Runs(s: State, es: seq<Event>)
    decreases |es|, 0
  {
    es == [] || (Runs(s, es[..|es| - 1]) && Enabled(After(s, es[..|es| - 1]), es[|es| - 1]))
  }

  function After(s: State, es: seq<Event>): (r: State)
    requires Runs(s, es)
    decreases |es|, 1
  {
    if es == [] then s else Apply(After(s, es[..|es| - 1]), es[|es| - 1])
  }

  // ------------------------------------------------------------------
  // Every task is in one place
  // ------------------------------------------------------------------

  /** The tasks that workers hold. */
  function Held(ws: seq<Worker>): (r: multiset<nat>) {
    if ws == [] then multiset{}
    else Held(ws[..|ws| - 1]) + Load(ws[|ws| - 1])
  }

  function Load(w: Worker): (r: multiset<nat>) {
    if w.Running? then multiset{w.task} else multiset{}
  }

  lemma Exchange(a: multiset<nat>, b: multiset<nat>, c: multiset<nat>, d: multiset<nat>)
    requires b <= a
    ensures (a - b + c) + d == (a + d) - b + c && b <= a + d
  {}

  lemma ExchangeLast(a: multiset<nat>, b: multiset<nat>, c: multiset<nat>)
    ensures a + c == (a + b) - b + c && b <= a + b
  {}

  lemma {:induction false} HeldUpdate(ws: seq<Worker>, i: nat, w: Worker)
    requires i < |ws|
    ensures Load(ws[i]) <= Held(ws)
    ensures Held(ws[i := w]) == Held(ws) - Load(ws[i]) + Load(w)
  {
    hide Load;
    var n := |ws| - 1;
    if i < n {
      HeldUpdate(ws[..n], i, w);
      assert ws[i := w][..n] == ws[..n][i := w];
      Exchange(Held(ws[..n]), Load(ws[i]), Load(w), Load(ws[n]));
    } else {
      assert ws[i := w][..n] == ws[..n];
      ExchangeLast(Held(ws[..n]), Load(ws[n]), Load(w));
    }
  }

  /** The tasks a up to b, in order. */
  function Range(a: nat, b: nat): (r: seq<nat>)
    requires a <= b
    ensures |r| == b - a && forall i | 0 <= i < |r| :: r[i] == a + i
  {
    seq(b - a, i requires 0 <= i => a + i)
  }

  /** How many tasks have been taken out of the queue by workers. */
  function Taken(s: State): (r: int) {
    s.added - |s.pending| - |s.lost|
  }

  /** The tasks not yet taken are the last ones, in order. */
  predicate Queued(s: State) {
    && 0 <= Taken(s)
    && (s.phase != Done ==> s.lost == [])
    && s.lost + s.pending == Range(Taken(s), s.added)
  }

  /** The tasks taken are held or executed, each once. */
  predicate Worked(ws: seq<Worker>, executed: seq<nat>, taken: nat) {
    Held(ws) + multiset(executed) == multiset(Range(0, taken))
  }

  predicate InPlace(s: State) {
    Queued(s) && Worked(s.workers, s.executed, Taken(s))
  }

  lemma RangeEnds(a: nat, b: nat)
    requires a < b
    ensures Range(a, b) == [a] + Range(a + 1, b) == Range(a, b - 1) + [b - 1]
  {}

  lemma RangeRest(p: seq<nat>, a: nat, b: nat)
    requires a <= b && p == Range(a, b) && p != []
    ensures p[0] == a < b && p[1..] == Range(a + 1, b)
  {}

  lemma TakeFirst(s: State)
    requires Queued(s) && s.pending != [] && s.phase != Done
    ensures s.pending[0] == Taken(s) && Queued(s.(pending := s.pending[1..]))
  {
    assert s.lost == [];
    assert s.lost + s.pending == s.pending;
    RangeRest(s.pending, Taken(s), s.added);
    assert s.lost + s.pending[1..] == s.pending[1..];
  }

  /** A worker that has no task takes task t. */
  lemma TakeWorked(ws: seq<Worker>, executed: seq<nat>, t: nat, i: nat)
    requires Worked(ws, executed, t) && i < |ws| && !ws[i].Running?
    ensures Worked(ws[i := Running(t)], executed, t + 1)
  {
    hide Held;
    HeldUpdate(ws, i, Running(t));
    RangeEnds(0, t + 1);
  }

  /** A worker changes its place without taking or finishing a task. */
  lemma MoveWorked(ws: seq<Worker>, executed: seq<nat>, t: nat, i: nat, w: Worker)
    requires Worked(ws, executed, t) && i < |ws| && !ws[i].Running? && !w.Running?
    ensures Worked(ws[i := w], executed, t)
  {
    hide Held;
    HeldUpdate(ws, i, w);
  }

  /** A worker is done with its task. */
  lemma FinishWorked(ws: seq<Worker>, executed: seq<nat>, t: nat, i: nat)
    requires Worked(ws, executed, t) && i < |ws| && ws[i].Running?
    ensures Worked(ws[i := Checking], executed + [ws[i].task], t)
  {
    hide Held;
    HeldUpdate(ws, i, Checking);
  }

  lemma AddQueued(s: State)
    requires Queued(s)
    ensures Queued(Apply(s, Add)) && Taken(Apply(s, Add)) == Taken(s)
  {
    RangeEnds(Taken(s), s.added + 1);
    assert s.lost + (s.pending + [s.added]) == (s.lost + s.pending) + [s.added];
  }

  /** Once Terminate is done, every worker has exited. */
  predicate Ended(s: State) {
    && s.told <= |s.workers|
    && (s.phase.Before? ==> s.told == s.flagged == 0)
    && (s.phase.Telling? ==> s.phase.k == s.told == s.flagged)
    && (s.phase.Setting? ==> s.phase.k + 1 == s.told && s.phase.k == s.flagged)
    && (s.phase.Joining? ==> s.phase.k <= |s.workers| && forall i | 0 <= i < s.phase.k :: s.workers[i].Exited?)
    && (s.phase.Done? ==> AllExited(s.workers))
  }

  lemma StepEnded(s: State, e: Event)
    requires Ended(s) && Enabled(s, e)
    ensures Ended(Apply(s, e))
  {}

  lemma StepInPlace(s: State, e: Event)
    requires InPlace(s) && Ended(s) && Enabled(s, e)
    ensures InPlace(Apply(s, e))
  {
    hide Worked, Range;
    match e
    case Add => AddQueued(s);
    case Check(i) => MoveWorked(s.workers, s.executed, Taken(s), i, if Leaves(s, i) then Exited else Popping);
    case Pop(i) =>
      if s.pending == [] {
        MoveWorked(s.workers, s.executed, Taken(s), i, Checking);
      } else {
        TakeFirst(s);
        TakeWorked(s.workers, s.executed, Taken(s), i);
      }
    case Finish(i) => FinishWorked(s.workers, s.executed, Taken(s), i);
    case Terminate(_) =>
    case TellNext =>
    case SetNext =>
    case JoinNext => assert s.lost + s.pending == s.pending == s.pending + [];
  }

  // ------------------------------------------------------------------
  // Terminate(true) leaves no task behind but the late ones
  // ------------------------------------------------------------------

  /** Workers exit only after Terminate has begun; a pool that waits and whose workers have all
      exited has only late tasks left. */
  predicate Drained(s: State) {
    && (s.phase.Before? ==> forall i | 0 <= i < |s.workers| :: !s.workers[i].Exited?)
    && (!AllExited(s.workers) ==> s.late == 0)
    && (s.waiting && AllExited(s.workers) ==> |s.lost| + |s.pending| == s.late)
  }

  lemma StepDrained(s: State, e: Event)
    requires s.workers != [] && Ended(s) && Drained(s) && (s.phase != Done ==> s.lost == []) && Enabled(s, e)
    ensures Drained(Apply(s, e))
  {
    var r := Apply(s, e);
    if e.Check? || e.Pop? || e.Finish? {
      assert !s.workers[e.i].Exited? && !AllExited(s.workers);
      if AllExited(r.workers) {
        assert r.workers[e.i].Exited?;
      }
    } else {
      assert r.workers == s.workers;
      assert s.phase.Before? ==> !s.workers[0].Exited?;
    }
  }

  predicate Inv(s: State) {
    s.workers != [] && InPlace(s) && Ended(s) && Drained(s)
  }

  lemma StepKeeps(s: State, e: Event)
    requires Inv(s) && Enabled(s, e)
    ensures Inv(Apply(s, e))
  {
    hide Worked, Drained, Ended, Range;
    StepInPlace(s, e);
    StepEnded(s, e);
    StepDrained(s, e);
  }

  lemma {:induction false} RunKeeps(n: nat, es: seq<Event>)
    requires n > 0 && Runs(Init(n), es)
    ensures Inv(After(Init(n), es))
  {
    hide Inv;
    if es == [] {
      StartHolds(n);
    } else {
      RunKeeps(n, es[..|es| - 1]);
      StepKeeps(After(Init(n), es[..|es| - 1]), es[|es| - 1]);
    }
  }

  lemma StartHolds(n: nat)
    requires n > 0
    ensures Inv(Init(n))
  {
    var s := Init(n);
    NoneHeld(s.workers);
    assert Range(0, 0) == [] && s.lost + s.pending == [];
    assert !s.workers[0].Exited?;
  }

  lemma {:induction false} NoneHeld(ws: seq<Worker>)
    requires forall i | 0 <= i < |ws| :: !ws[i].Running?
    ensures Held(ws) == multiset{}
  {
    if ws != [] {
      NoneHeld(ws[..|ws| - 1]);
    }
  }

  /** In every run, every task ever added is in exactly one place, once. */
  lemma OnePlace(n: nat, es: seq<Event>)
    requires n > 0 && Runs(Init(n), es)
    ensures var s := After(Init(n), es);
            Held(s.workers) + multiset(s.executed) + multiset(s.lost + s.pending) == multiset(Range(0, s.added))
  {
    hide Held, Runs, After;
    var s := After(Init(n), es);
    RunKeeps(n, es);
    assert Range(0, s.added) == Range(0, Taken(s)) + Range(Taken(s), s.added);
  }

  /** When Terminate(true) returns, the tasks executed are all but the late ones, each once,
      and the late ones have not been executed. */
  lemma TerminateDrains(n: nat, es: seq<Event>)
    requires n > 0 && Runs(Init(n), es)
    requires After(Init(n), es).phase.Done? && After(Init(n), es).waiting
    ensures var s := After(Init(n), es);
            && s.late <= s.added
            && multiset(s.executed) == multiset(Range(0, s.added - s.late))
            && s.lost + s.pending == Range(s.added - s.late, s.added)
  {
    hide Held, Runs, After;
    var s := After(Init(n), es);
    RunKeeps(n, es);
    NoneHeld(s.workers);
  }

  /** Exactly if no task was late has every task been executed. */
  lemma AllExecuted(n: nat, es: seq<Event>)
    requires n > 0 && Runs(Init(n), es)
    requires After(Init(n), es).phase.Done? && After(Init(n), es).waiting
    ensures var s := After(Init(n), es);
            multiset(s.executed) == multiset(Range(0, s.added)) <==> s.late == 0
  {
    hide Runs, After;
    var s := After(Init(n), es);
    TerminateDrains(n, es);
    assert |multiset(Range(0, s.added))| == s.added;
    assert |multiset(Range(0, s.added - s.late))| == s.added - s.late;
  }

  /** Without an AddTask after Terminate has begun, no task is late. */
  lemma {:induction false} NoneLate(n: nat, es: seq<Event>, k: nat)
    requires n > 0 && Runs(Init(n), es) && k < |es| && es[k].Terminate?
    requires forall j | k < j < |es| :: es[j] != Add
    ensures After(Init(n), es).late == 0
  {
    hide Inv;
    var front := es[..|es| - 1];
    if k < |es| - 1 {
      NoneLate(n, front, k);
    } else {
      RunKeeps(n, front);
      BeforeNotLate(After(Init(n), front));
    }
  }

  lemma BeforeNotLate(s: State)
    requires Inv(s) && s.phase.Before?
    ensures s.late == 0
  {}

  lemma Extend(s: State, es: seq<Event>, e: Event) returns (r: seq<Event>)
    requires Runs(s, es) && Enabled(After(s, es), e)
    ensures r == es + [e] && Runs(s, r) && After(s, r) == Apply(After(s, es), e)
  {
    r := es + [e];
    assert r[..|es|] == es;
  }

  lemma Nothing(s: State)
    ensures Runs(s, []) && After(s, []) == s
  {}

  /** The only worker of a pool exits before Terminate has waited for it. */
  lemma OnlyWorkerExits() returns (es: seq<Event>)
    ensures es == [Terminate(true), TellNext, SetNext, TellNext, Check(0)] && Runs(Init(1), es)
    ensures After(Init(1), es) == State([Exited], 1, 1, true, Joining(0), [], [], [], 0, 0)
  {
    hide Runs, After;
    var s := Init(1);
    Nothing(s);
    es := Extend(s, [], Terminate(true));
    es := Extend(s, es, TellNext);
    es := Extend(s, es, SetNext);
    es := Extend(s, es, TellNext);
    es := Extend(s, es, Check(0));
  }

  /** An AddTask that comes between the last exit and the end of Terminate is lost. */
  lemma LateTaskLost() returns (es: seq<Event>)
    ensures es == [Terminate(true), TellNext, SetNext, TellNext, Check(0), Add, JoinNext, JoinNext]
    ensures Runs(Init(1), es)
    ensures var s := After(Init(1), es); s.phase.Done? && s.lost == [0] && s.executed == []
  {
    hide Runs, After;
    es := OnlyWorkerExits();
    es := Extend(Init(1), es, Add);
    es := Extend(Init(1), es, JoinNext);
    es := Extend(Init(1), es, JoinNext);
  }

  // ------------------------------------------------------------------
  // Terminate(true) comes to an end
  // ------------------------------------------------------------------

  /** What a worker still has to do besides tasks, if the queue is empty or not. */
  function Rank(w: Worker, empty: bool): (r: nat) {
    match w
    case Checking => if empty then 1 else 2
    case Popping => if empty then 2 else 1
    case _ => 0
  }

  function Ranks(ws: seq<Worker>, empty: bool): (r: nat) {
    if ws == [] then 0 else Ranks(ws[..|ws| - 1], empty) + Rank(ws[|ws| - 1], empty)
  }

  function Busy(ws: seq<Worker>): (r: nat) {
    if ws == [] then 0 else Busy(ws[..|ws| - 1]) + if ws[|ws| - 1].Running? then 1 else 0
  }

  /** Pending tasks count twice, held ones once, and before all ranks. */
  function Measure(s: State): (r: nat) {
    (|s.workers| + 3) * (2 * |s.pending| + Busy(s.workers)) + Ranks(s.workers, s.pending == [])
  }

  lemma {:induction false} RanksUpdate(ws: seq<Worker>, i: nat, w: Worker, empty: bool)
    requires i < |ws|
    ensures Ranks(ws[i := w], empty) == Ranks(ws, empty) - Rank(ws[i], empty) + Rank(w, empty)
    ensures Busy(ws[i := w]) == Busy(ws) - (if ws[i].Running? then 1 else 0) + (if w.Running? then 1 else 0)
  {
    var n := |ws| - 1;
    if i < n {
      RanksUpdate(ws[..n], i, w, empty);
      assert ws[i := w][..n] == ws[..n][i := w];
    } else {
      assert ws[i := w][..n] == ws[..n];
    }
  }

  lemma {:induction false} RanksFlip(ws: seq<Worker>)
    ensures Ranks(ws, true) <= Ranks(ws, false) + |ws|
  {
    if ws != [] {
      RanksFlip(ws[..|ws| - 1]);
    }
  }

  lemma TimesLess(k: nat, a: nat, b: nat)
    requires a < b
    ensures k * a + k <= k * b
  {
    assert k * (a + 1) <= k * b;
  }

  predicate OfWorker(e: Event) {
    e.Check? || e.Pop? || e.Finish?
  }

  /** Once every worker has been told to exit, each step of a worker brings the end nearer. */
  lemma StepsCount(s: State, e: Event)
    requires s.waiting && s.told >= |s.workers| && Enabled(s, e) && OfWorker(e)
    ensures Measure(Apply(s, e)) < Measure(s)
  {
    hide Ranks, Busy;
    var i, r, empty := e.i, Apply(s, e), s.pending == [];
    RanksUpdate(s.workers, i, r.workers[i], empty);
    var k := |s.workers| + 3;
    var a, b := 2 * |r.pending| + Busy(r.workers), 2 * |s.pending| + Busy(s.workers);
    if e.Finish? || (e.Pop? && !empty) {
      TimesLess(k, a, b);
      RanksFlip(r.workers);
    } else {
      assert a == b;
    }
  }

  /** Until all have exited, some worker has a step. */
  lemma SomeStep(s: State)
    requires !AllExited(s.workers)
    ensures exists e: Event :: OfWorker(e) && Enabled(s, e)
  {
    var i :| 0 <= i < |s.workers| && !s.workers[i].Exited?;
    assert OfWorker(Check(i)) && OfWorker(Pop(i)) && OfWorker(Finish(i));
    assert Enabled(s, Check(i)) || Enabled(s, Pop(i)) || Enabled(s, Finish(i));
  }

  /** Once every worker has been told to exit, any run of worker steps is bounded by the
      measure, and one that cannot go on has led all workers to their exit: Terminate(true)
      comes to an end whatever the schedule. */
  lemma {:induction false} WorkersFinish(s: State, es: seq<Event>)
    requires s.waiting && s.told >= |s.workers| && Runs(s, es)
    requires forall e | e in es :: OfWorker(e)
    ensures var r := After(s, es);
            && r.waiting && r.told == s.told && |r.workers| == |s.workers|
            && |es| + Measure(r) <= Measure(s)
            && ((forall e | OfWorker(e) :: !Enabled(r, e)) ==> AllExited(r.workers))
    decreases |es|
  {
    hide Measure;
    if es != [] {
      var front := es[..|es| - 1];
      WorkersFinish(s, front);
      assert OfWorker(es[|es| - 1]);
      StepsCount(After(s, front), es[|es| - 1]);
    }
    var r := After(s, es);
    if !AllExited(r.workers) {
      SomeStep(r);
    }
  }

  // ------------------------------------------------------------------
  // Terminate(false) comes to an end at once
  // ------------------------------------------------------------------

  /** A worker that has been told to exit and not to wait exits at its next check, whatever is
      pending; one that has not been told does not exit. */
  lemma FlaggedExits(s: State, i: nat)
    requires Enabled(s, Check(i))
    ensures !s.waiting && i < s.told && i < s.flagged ==> Apply(s, Check(i)).workers[i].Exited?
    ensures i < s.told && s.pending == [] ==> Apply(s, Check(i)).workers[i].Exited?
    ensures i >= s.told ==> Apply(s, Check(i)).workers[i].Popping?
    ensures s.pending != [] && (s.waiting || i >= s.flagged) ==> Apply(s, Check(i)).workers[i].Popping?
    ensures Apply(s, Check(i)).pending == s.pending
  {}

  /** The workers wait for the queue to be empty, unless Terminate says otherwise: what the one
      call of it in a run says holds from then on. */
  lemma {:induction false} TerminateSays(n: nat, es: seq<Event>, k: nat)
    requires Runs(Init(n), es)
    ensures (forall i | 0 <= i < |es| :: !es[i].Terminate?) ==>
              After(Init(n), es).waiting && After(Init(n), es).phase.Before?
    ensures k < |es| && es[k].Terminate? ==>
              After(Init(n), es).waiting == es[k].waiting && !After(Init(n), es).phase.Before?
    decreases |es|
  {
    hide Apply, Enabled;
    if es == [] {
      StartWaits(n);
    } else {
      TerminateSays(n, es[..|es| - 1], k);
      SaysStep(After(Init(n), es[..|es| - 1]), es[|es| - 1]);
    }
  }

  lemma StartWaits(n: nat)
    ensures Init(n).waiting && Init(n).phase.Before?
  {}

  lemma SaysStep(s: State, e: Event)
    requires Enabled(s, e)
    ensures var r := Apply(s, e);
            if e.Terminate? then s.phase.Before? && r.waiting == e.waiting && !r.phase.Before?
            else r.waiting == s.waiting && r.phase.Before? == s.phase.Before?
  {}

  /** The steps that a worker still takes: at most one task, and the check. */
  function Left(w: Worker): (r: nat) {
    match w
    case Checking => 1
    case Running(_) => 2
    case Popping => 3
    case Exited => 0
  }

  function AllLeft(ws: seq<Worker>): (r: nat)
    ensures r <= 3 * |ws|
  {
    if ws == [] then 0 else AllLeft(ws[..|ws| - 1]) + Left(ws[|ws| - 1])
  }

  lemma {:induction false} LeftUpdate(ws: seq<Worker>, i: nat, w: Worker)
    requires i < |ws|
    ensures AllLeft(ws[i := w]) == AllLeft(ws) - Left(ws[i]) + Left(w)
  {
    var n := |ws| - 1;
    if i < n {
      LeftUpdate(ws[..n], i, w);
      assert ws[i := w][..n] == ws[..n][i := w];
    } else {
      assert ws[i := w][..n] == ws[..n];
    }
  }

  /** Once every worker has been told to exit and not to wait, any run of worker steps takes at
      most three steps for each, and one that cannot go on has led all workers to their exit,
      whatever is pending. */
  lemma {:induction false} WorkersQuit(s: State, es: seq<Event>)
    requires !s.waiting && s.told >= |s.workers| && s.flagged >= |s.workers| && Runs(s, es)
    requires forall e | e in es :: OfWorker(e)
    ensures var r := After(s, es);
            && !r.waiting && r.told == s.told && r.flagged == s.flagged && |r.workers| == |s.workers|
            && |es| + AllLeft(r.workers) <= AllLeft(s.workers) <= 3 * |s.workers|
            && ((forall e | OfWorker(e) :: !Enabled(r, e)) ==> AllExited(r.workers))
    decreases |es|
  {
    hide AllLeft;
    if es != [] {
      var front, e := es[..|es| - 1], es[|es| - 1];
      WorkersQuit(s, front);
      assert OfWorker(e);
      var a := After(s, front);
      LeftUpdate(a.workers, e.i, Apply(a, e).workers[e.i]);
    }
    var r := After(s, es);
    if !AllExited(r.workers) {
      SomeStep(r);
    }
  }
}
