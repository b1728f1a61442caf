/** The bounded blocking queue as a monitor: threads, a mutex and two condition variables.

    A step is what a thread does while it holds the mutex, or one notification.  Waiting
    releases the mutex and starts to wait at once.  A notification sent after the mutex is
    released is a step of its own, so that any other steps may come in between. */
module BlockingQueue {

  datatype Mode = Block | Try | Timed

  datatype Op<T> =
    | Push(value: T, front: bool, mode: Mode)
    | Pop(front: bool, mode: Mode)
    | PopAll(mode: Mode)
    | Clear

  /** What a thread still has to tell: m_cond_not_empty.Signal, m_cond_not_full.Signal or
      m_cond_not_full.Broadcast. */
  datatype Note = NotEmpty | NotFull | AllNotFull

  datatype Thread<T> =
    | Idle
    | Waiting(op: Op<T>)
    | Woken(op: Op<T>)
    | Telling(note: Note)

  /** entered and left are the values that ever entered and left the queue, in that order. */
  datatype State<T> = State(
    max: nat, queue: seq<T>, threads: seq<Thread<T>>, entered: seq<T>, left: seq<T>)

  datatype Event<T> =
    | Call(i: nat, op: Op<T>)
    | Resume(i: nat)             // a woken thread gets the mutex again
    | Tell(i: nat, w: nat)       // a notification; a signal wakes thread w if it waits for it
    | Wake(i: nat)               // a timeout or a spurious wakeup

  // ------------------------------------------------------------------
  // Counting threads
  // ------------------------------------------------------------------

  datatype Kind = WaitingConsumer | WokenConsumer | TellingNotEmpty
                | WaitingProducer | WokenProducer | TellingNotFull | TellingAll

  predicate Is<T>(t: Thread<T>, k: Kind) {
    match k
    case WaitingConsumer => t.Waiting? && !t.op.Push?
    case WokenConsumer => t.Woken? && !t.op.Push?
    case TellingNotEmpty => t.Telling? && t.note.NotEmpty?
    case WaitingProducer => t.Waiting? && t.op.Push?
    case WokenProducer => t.Woken? && t.op.Push?
    case TellingNotFull => t.Telling? && t.note.NotFull?
    case TellingAll => t.Telling? && t.note.AllNotFull?
  }

  function One<T>(t: Thread<T>, k: Kind): (r: nat) {
    if Is(t, k) then 1 else 0
  }

  function Count<T>(ts: seq<Thread<T>>, k: Kind): (r: nat) {
    if ts == [] then 0 else Count(ts[..|ts| - 1], k) + One(ts[|ts| - 1], k)
  }

  lemma {:induction false} CountUpdate<T>(ts: seq<Thread<T>>, i: nat, t: Thread<T>, k: Kind)
    requires i < |ts|
    ensures Count(ts[i := t], k) == Count(ts, k) - One(ts[i], k) + One(t, k)
  {
    var n := |ts| - 1;
    if i < n {
      CountUpdate(ts[..n], i, t, k);
      assert ts[i := t][..n] == ts[..n][i := t];
    } else {
      assert ts[i := t][..n] == ts[..n];
    }
  }

  lemma {:induction false} CountSome<T>(ts: seq<Thread<T>>, i: nat, k: Kind)
    requires i < |ts| && Is(ts[i], k)
    ensures Count(ts, k) > 0
  {
    if i < |ts| - 1 {
      CountSome(ts[..|ts| - 1], i, k);
    }
  }

  /** A broadcast of m_cond_not_full. */
  function WakeProducers<T>(ts: seq<Thread<T>>): (r: seq<Thread<T>>)
    ensures |r| == |ts|
    ensures forall i | 0 <= i < |ts| :: r[i] == if Is(ts[i], WaitingProducer) then Woken(ts[i].op) else ts[i]
  {
    seq(|ts|, i requires 0 <= i < |ts| => if Is(ts[i], WaitingProducer) then Woken(ts[i].op) else ts[i])
  }

  lemma {:induction false} CountWoken<T>(ts: seq<Thread<T>>, k: Kind)
    ensures k != WaitingProducer && k != WokenProducer ==> Count(WakeProducers(ts), k) == Count(ts, k)
    ensures k == WaitingProducer ==> Count(WakeProducers(ts), k) == 0
  {
    if ts != [] {
      var n := |ts| - 1;
      CountWoken(ts[..n], k);
      assert WakeProducers(ts)[..n] == WakeProducers(ts[..n]);
    }
  }

  // ------------------------------------------------------------------
  // Steps
  // ------------------------------------------------------------------

  function Set<T>(s: State<T>, i: nat, t: Thread<T>): (r: State<T>)
    requires i < |s.threads|
  {
    s.(threads := s.threads[i := t])
  }

  /** A thread that cannot go on waits, or gives up: at once if it only tries, after one wait
      if it is timed. */
  function Held<T>(op: Op<T>, first: bool): (r: Thread<T>)
    requires !op.Clear?
  {
    if op.mode == Block || (op.mode == Timed && first) then Waiting(op) else Idle
  }

  /** What thread i does when it has the mutex, for the first time in this call or again. */
  function Enter<T>(s: State<T>, i: nat, op: Op<T>, first: bool): (r: State<T>)
    requires i < |s.threads|
  {
    match op
    case Push(v, front, _) =>
      if |s.queue| >= s.max then Set(s, i, Held(op, first))
      else Set(s, i, Telling(NotEmpty)).(queue := if front then [v] + s.queue else s.queue + [v],
                                         entered := s.entered + [v])
    case Pop(front, _) =>
      if s.queue == [] then Set(s, i, Held(op, first))
      else
        var n := |s.queue| - 1;
        var v := if front then s.queue[0] else s.queue[n];
        Set(s, i, Telling(NotFull)).(queue := if front then s.queue[1..] else s.queue[..n],
                                     left := s.left + [v])
    case PopAll(mode) =>
      if s.queue == [] then Set(s, i, Held(op, first))
      else
        var r := s.(queue := [], left := s.left + s.queue);
        if mode == Timed then
          // the broadcast comes before the mutex is released, and a signal after
          Set(r.(threads := WakeProducers(r.threads)), i, Telling(NotFull))
        else Set(r, i, Telling(AllNotFull))
    case Clear =>
      s.(queue := [], left := s.left + s.queue, threads := WakeProducers(s.threads))
  }

  predicate Waits<T>(t: Thread<T>, note: Note) {
    Is(t, if note == NotEmpty then WaitingConsumer else WaitingProducer)
  }

  /** A signal wakes one thread that waits for it, if there is one. */
  predicate Enabled<T>(s: State<T>, e: Event<T>) {
    && e.i < |s.threads|
    && var t := s.threads[e.i];
       match e
       case Call(_, _) => t.Idle?
       case Resume(_) => t.Woken?
       case Tell(_, w) =>
         && t.Telling?
         && (t.note != AllNotFull && (exists j :: 0 <= j < |s.threads| && Waits(s.threads[j], t.note)) ==>
               w < |s.threads| && Waits(s.threads[w], t.note))
       case Wake(_) => t.Waiting?
  }

  function Apply<T>(s: State<T>, e: Event<T>): (r: State<T>)
    requires Enabled(s, e)
  {
    match e
    case Call(i, op) => Enter(s, i, op, true)
    case Resume(i) => Enter(s, i, s.threads[i].op, false)
    case Wake(i) => Set(s, i, Woken(s.threads[i].op))
    case Tell(i, w) =>
      var note := s.threads[i].note;
      var r := Set(s, i, Idle);
      if note == AllNotFull then r.(threads := WakeProducers(r.threads))
      else if w < |s.threads| && Waits(s.threads[w], note) then Set(r, w, Woken(s.threads[w].op))
      else r
  }

  // ------------------------------------------------------------------
  // No lost wakeup
  // ------------------------------------------------------------------

  /** While a consumer waits, every value in the queue has a signal on its way or a woken
      consumer. */
  predicate ConsumersServed<T>(s: State<T>) {
    Count(s.threads, WaitingConsumer) > 0 ==>
      Count(s.threads, TellingNotEmpty) + Count(s.threads, WokenConsumer) >= |s.queue|
  }

  /** While a producer waits, every free place has a signal on its way or a woken producer,
      unless a broadcast is on its way. */
  predicate ProducersServed<T>(s: State<T>) {
    Count(s.threads, WaitingProducer) > 0 ==>
      || Count(s.threads, TellingAll) > 0
      || Count(s.threads, TellingNotFull) + Count(s.threads, WokenProducer) >= s.max - |s.queue|
  }

  /** Every value that entered is in the queue or has left it, as often as it entered. */
  ghost predicate Conserved<T>(s: State<T>) {
    multiset(s.entered) == multiset(s.queue) + multiset(s.left)
  }

  predicate Served<T>(s: State<T>) {
    && s.max > 0 && |s.queue| <= s.max
    && (forall i | 0 <= i < |s.threads| && (s.threads[i].Waiting? || s.threads[i].Woken?) :: !s.threads[i].op.Clear?)
    && ConsumersServed(s) && ProducersServed(s)
  }

  ghost predicate Inv<T>(s: State<T>) {
    Conserved(s) && Served(s)
  }

  /** How the counts change when one thread changes. */
  lemma SetCounts<T>(ts: seq<Thread<T>>, i: nat, t: Thread<T>)
    requires i < |ts|
    ensures forall k: Kind :: Count(ts[i := t], k) == Count(ts, k) - One(ts[i], k) + One(t, k)
    ensures forall k: Kind :: Count(ts, k) >= One(ts[i], k)
  {}

  lemma WakeCounts<T>(ts: seq<Thread<T>>)
    ensures forall k: Kind | k != WaitingProducer && k != WokenProducer :: Count(WakeProducers(ts), k) == Count(ts, k)
    ensures Count(WakeProducers(ts), WaitingProducer) == 0
  {
    forall k: Kind | k != WaitingProducer && k != WokenProducer
      ensures Count(WakeProducers(ts), k) == Count(ts, k)
    {
      CountWoken(ts, k);
    }
    CountWoken(ts, WaitingProducer);
  }

  lemma PushServes<T>(s: State<T>, i: nat, op: Op<T>, first: bool)
    requires Served(s) && i < |s.threads| && op.Push?
    requires s.threads[i] == if first then Idle else Woken(op)
    ensures Served(Enter(s, i, op, first))
  {
    hide Count;
    SetCounts(s.threads, i, if |s.queue| >= s.max then Held(op, first) else Telling(NotEmpty));
  }

  /** A queue is its first value and the rest, and its last value and the rest. */
  lemma Ends<T>(q: seq<T>)
    requires q != []
    ensures multiset(q) == multiset(q[1..]) + multiset{q[0]}
    ensures multiset(q) == multiset(q[..|q| - 1]) + multiset{q[|q| - 1]}
  {
    assert q == [q[0]] + q[1..];
    assert q == q[..|q| - 1] + [q[|q| - 1]];
  }

  lemma PopServes<T>(s: State<T>, i: nat, op: Op<T>, first: bool)
    requires Served(s) && i < |s.threads| && op.Pop?
    requires s.threads[i] == if first then Idle else Woken(op)
    ensures Served(Enter(s, i, op, first))
  {
    hide Count;
    SetCounts(s.threads, i, if s.queue == [] then Held(op, first) else Telling(NotFull));
  }

  lemma PopConserves<T>(s: State<T>, i: nat, op: Op<T>, first: bool)
    requires Conserved(s) && i < |s.threads| && op.Pop?
    ensures Conserved(Enter(s, i, op, first))
  {
    if s.queue != [] {
      Ends(s.queue);
    }
  }

  lemma EnterConserves<T>(s: State<T>, i: nat, op: Op<T>, first: bool)
    requires Conserved(s) && i < |s.threads|
    ensures Conserved(Enter(s, i, op, first))
  {
    if op.Pop? {
      PopConserves(s, i, op, first);
    }
  }

  lemma PopAllServes<T>(s: State<T>, i: nat, op: Op<T>, first: bool)
    requires Served(s) && i < |s.threads| && op.PopAll?
    requires s.threads[i] == if first then Idle else Woken(op)
    ensures Served(Enter(s, i, op, first))
  {
    hide Count;
    if s.queue == [] {
      SetCounts(s.threads, i, Held(op, first));
    } else if op.mode == Timed {
      WakeCounts(s.threads);
      SetCounts(WakeProducers(s.threads), i, Telling(NotFull));
      assert Enter(s, i, op, first).threads == WakeProducers(s.threads)[i := Telling(NotFull)];
      assert Count(Enter(s, i, op, first).threads, WaitingProducer) == 0;
    } else {
      SetCounts(s.threads, i, Telling(AllNotFull));
    }
  }

  lemma ClearServes<T>(s: State<T>, i: nat)
    requires Served(s) && i < |s.threads|
    ensures Served(Enter(s, i, Clear, true))
  {
    WakeCounts(s.threads);
  }

  lemma EnterKeeps<T>(s: State<T>, i: nat, op: Op<T>, first: bool)
    requires Inv(s) && i < |s.threads|
    requires s.threads[i] == if first then Idle else Woken(op)
    ensures Inv(Enter(s, i, op, first))
  {
    EnterConserves(s, i, op, first);
    match op
    case Push(_, _, _) => PushServes(s, i, op, first);
    case Pop(_, _) => PopServes(s, i, op, first);
    case PopAll(_) => PopAllServes(s, i, op, first);
    case Clear => ClearServes(s, i);
  }

  /** A signal that wakes thread w. */
  lemma SignalServes<T>(s: State<T>, i: nat, w: nat)
    requires Served(s) && i < |s.threads| && w < |s.threads|
    requires s.threads[i].Telling? && s.threads[i].note != AllNotFull && Waits(s.threads[w], s.threads[i].note)
    ensures Served(Set(Set(s, i, Idle), w, Woken(s.threads[w].op)))
  {
    hide Count;
    SetCounts(s.threads, i, Idle);
    SetCounts(s.threads[i := Idle], w, Woken(s.threads[w].op));
  }

  lemma TellKeeps<T>(s: State<T>, i: nat, w: nat)
    requires Inv(s) && Enabled(s, Tell(i, w))
    ensures Inv(Apply(s, Tell(i, w)))
  {
    hide Count;
    var note := s.threads[i].note;
    if note != AllNotFull && w < |s.threads| && Waits(s.threads[w], note) {
      SignalServes(s, i, w);
    } else {
      SetCounts(s.threads, i, Idle);
      if note == AllNotFull {
        WakeCounts(s.threads[i := Idle]);
      } else {
        NobodyWaits(s.threads, if note == NotEmpty then WaitingConsumer else WaitingProducer);
      }
    }
  }

  lemma {:induction false} NobodyWaits<T>(ts: seq<Thread<T>>, k: Kind)
    requires forall j | 0 <= j < |ts| :: !Is(ts[j], k)
    ensures Count(ts, k) == 0
  {
    if ts != [] {
      NobodyWaits(ts[..|ts| - 1], k);
    }
  }

  lemma StepKeeps<T>(s: State<T>, e: Event<T>)
    requires Inv(s) && Enabled(s, e)
    ensures Inv(Apply(s, e))
  {
    match e
    case Call(i, op) => EnterKeeps(s, i, op, true);
    case Resume(i) => EnterKeeps(s, i, s.threads[i].op, false);
    case Wake(i) => SetCounts(s.threads, i, Woken(s.threads[i].op));
    case Tell(i, w) => TellKeeps(s, i, w);
  }

  // ------------------------------------------------------------------
  // Runs
  // ------------------------------------------------------------------

  function Init<T>(max: nat, threads: nat): (r: State<T>) {
    State(max, [], seq(threads, _ => Idle), [], [])
  }

  predicate Runs<T>(s: State<T>, es: seq<Event<T>>)
    decreases |es|, 0
  {
    es == [] || (Runs(s, es[..|es| - 1]) && Enabled(After(s, es[..|es| - 1]), es[|es| - 1]))
  }

  function After<T>(s: State<T>, es: seq<Event<T>>): (r: State<T>)
    requires Runs(s, es)
    decreases |es|, 1
  {
    if es == [] then s else Apply(After(s, es[..|es| - 1]), es[|es| - 1])
  }

  lemma {:induction false} RunKeeps<T>(max: nat, threads: nat, es: seq<Event<T>>)
    requires max > 0 && Runs(Init(max, threads), es)
    ensures Inv(After(Init(max, threads), es))
  {
    if es == [] {
      NobodyWaits(Init<T>(max, threads).threads, WaitingConsumer);
      NobodyWaits(Init<T>(max, threads).threads, WaitingProducer);
    } else {
      RunKeeps(max, threads, es[..|es| - 1]);
      StepKeeps(After(Init(max, threads), es[..|es| - 1]), es[|es| - 1]);
    }
  }

  /** Nothing is on its way: only threads that wait or do nothing. */
  predicate Quiet<T>(s: State<T>) {
    forall i | 0 <= i < |s.threads| :: s.threads[i].Idle? || s.threads[i].Waiting?
  }

  /** When nothing is on its way, consumers wait only at an empty queue and producers only
      at a full one; so they never wait together. */
  lemma NoLostWakeup<T>(max: nat, threads: nat, es: seq<Event<T>>, i: nat)
    requires max > 0 && Runs(Init(max, threads), es)
    requires var s := After(Init(max, threads), es); Quiet(s) && i < |s.threads|
    ensures var s := After(Init(max, threads), es);
            && (Is(s.threads[i], WaitingConsumer) ==> s.queue == [])
            && (Is(s.threads[i], WaitingProducer) ==> |s.queue| == s.max > 0)
  {
    hide Inv, Runs, After;
    var s := After(Init(max, threads), es);
    RunKeeps(max, threads, es);
    QuietState(s, i);
  }

  lemma QuietState<T>(s: State<T>, i: nat)
    requires Inv(s) && Quiet(s) && i < |s.threads|
    ensures Is(s.threads[i], WaitingConsumer) ==> s.queue == []
    ensures Is(s.threads[i], WaitingProducer) ==> |s.queue| == s.max > 0
  {
    hide Count;
    NobodyWaits(s.threads, TellingNotEmpty);
    NobodyWaits(s.threads, WokenConsumer);
    NobodyWaits(s.threads, TellingNotFull);
    NobodyWaits(s.threads, TellingAll);
    NobodyWaits(s.threads, WokenProducer);
    if Is(s.threads[i], WaitingConsumer) {
      CountSome(s.threads, i, WaitingConsumer);
    }
    if Is(s.threads[i], WaitingProducer) {
      CountSome(s.threads, i, WaitingProducer);
    }
  }

  /** Consumers and producers are never blocked together. */
  lemma NeverBothBlocked<T>(max: nat, threads: nat, es: seq<Event<T>>, i: nat, j: nat)
    requires max > 0 && Runs(Init(max, threads), es)
    requires var s := After(Init(max, threads), es); Quiet(s) && i < |s.threads| && j < |s.threads|
    ensures var s := After(Init(max, threads), es);
            !(Is(s.threads[i], WaitingConsumer) && Is(s.threads[j], WaitingProducer))
  {
    hide Runs, After;
    NoLostWakeup(max, threads, es, i);
    NoLostWakeup(max, threads, es, j);
  }

  // ------------------------------------------------------------------
  // First in, first out
  // ------------------------------------------------------------------

  /** Values are pushed at the back and popped from the front only. */
  predicate Straight<T>(op: Op<T>) {
    (op.Push? ==> !op.front) && (op.Pop? ==> op.front)
  }

  predicate AllStraight<T>(s: State<T>) {
    forall i | 0 <= i < |s.threads| && (s.threads[i].Waiting? || s.threads[i].Woken?) :: Straight(s.threads[i].op)
  }

  /** With pushes at the back and pops from the front, values leave in the order in which they
      entered. */
  lemma {:induction false} FirstInFirstOut<T>(max: nat, threads: nat, es: seq<Event<T>>)
    requires Runs(Init(max, threads), es)
    requires forall e | e in es && e.Call? :: Straight(e.op)
    ensures var s := After(Init(max, threads), es); AllStraight(s) && s.entered == s.left + s.queue
  {
    if es != [] {
      var front, e := es[..|es| - 1], es[|es| - 1];
      FirstInFirstOut(max, threads, front);
      StraightStep(After(Init(max, threads), front), e);
    }
  }

  lemma StraightStep<T>(s: State<T>, e: Event<T>)
    requires Enabled(s, e) && AllStraight(s) && s.entered == s.left + s.queue
    requires e.Call? ==> Straight(e.op)
    ensures var r := Apply(s, e); AllStraight(r) && r.entered == r.left + r.queue
  {
    if e.Call? {
      InOrder(s, e.i, e.op, true);
    } else if e.Resume? {
      InOrder(s, e.i, s.threads[e.i].op, false);
    }
  }

  lemma InOrder<T>(s: State<T>, i: nat, op: Op<T>, first: bool)
    requires i < |s.threads| && AllStraight(s) && Straight(op) && s.entered == s.left + s.queue
    ensures var r := Enter(s, i, op, first); AllStraight(r) && r.entered == r.left + r.queue
  {}

  /** A pop takes back what the last push at the same end put there. */
  lemma LastInFirstOut<T>(s: State<T>, i: nat, j: nat, v: T, front: bool, m: Mode, n: Mode)
    requires i < |s.threads| && j < |s.threads| && |s.queue| < s.max
    ensures var r := Enter(Enter(s, i, Push(v, front, m), true), j, Pop(front, n), true);
            r.queue == s.queue && r.left == s.left + [v]
  {
    assert ([v] + s.queue)[1..] == s.queue;
    assert (s.queue + [v])[..|s.queue|] == s.queue;
  }
}
