/** What becomes of the calls to a blocking queue. */
module QueueCalls {
  import opened BlockingQueue

  /** Events in which a call goes on: it is made, or its woken thread has the mutex again. */
  predicate OfCall<T>(e: Event<T>) {
    e.Call? || e.Resume?
  }

  function OpOf<T>(s: State<T>, e: Event<T>): (r: Op<T>)
    requires OfCall(e) && Enabled(s, e)
  {
    if e.Call? then e.op else s.threads[e.i].op
  }

  /** The call cannot do its work now: the queue is full, or empty. */
  predicate Stuck<T>(s: State<T>, op: Op<T>) {
    match op
    case Push(_, _, _) => |s.queue| >= s.max
    case Clear => false
    case _ => s.queue == []
  }

  /** What a call does to the queue when it does its work; got are the values it takes out. */
  ghost predicate Works<T>(op: Op<T>, queue: seq<T>, got: seq<T>, queue': seq<T>) {
    match op
    case Push(v, front, _) => got == [] && queue' == if front then [v] + queue else queue + [v]
    case Pop(front, _) => |got| == 1 && queue == if front then got + queue' else queue' + got
    case _ => got == queue && queue' == []
  }

  /** Only thread i, and threads that a broadcast wakes, change. */
  ghost predicate OthersStay<T>(s: State<T>, r: State<T>, i: nat) {
    && |r.threads| == |s.threads| && r.max == s.max
    && forall j | 0 <= j < |s.threads| && j != i ::
         r.threads[j] == s.threads[j] || (Is(s.threads[j], WaitingProducer) && r.threads[j] == Woken(s.threads[j].op))
  }

  /** No call to clear the queue ever waits. */
  predicate ClearNeverWaits<T>(s: State<T>) {
    forall i | 0 <= i < |s.threads| && (s.threads[i].Waiting? || s.threads[i].Woken?) :: !s.threads[i].op.Clear?
  }

  /** A step of a call of thread i.  If it is stuck nothing changes: a blocking call waits, a
      call that tries gives up, a timed call waits the first time and then gives up.  Otherwise
      it does its work, and is done. */
  ghost predicate Outcome<T>(s: State<T>, r: State<T>, i: nat, op: Op<T>, first: bool, got: seq<T>) {
    && i < |s.threads| && OthersStay(s, r, i) && r.left == s.left + got
    && if Stuck(s, op) then
         && got == [] && r.queue == s.queue && r.entered == s.entered && !op.Clear?
         && r.threads[i] == if op.mode == Block || (op.mode == Timed && first) then Waiting(op) else Idle
       else
         && Works(op, s.queue, got, r.queue) && (if op.Clear? then r.threads[i].Idle? else r.threads[i].Telling?)
         && r.entered == s.entered + if op.Push? then [op.value] else []
  }

  lemma OneStays<T>(s: State<T>, r: State<T>, i: nat, t: Thread<T>)
    requires i < |s.threads| && r.threads == s.threads[i := t] && r.max == s.max
    ensures OthersStay(s, r, i)
  {}

  lemma PushOutcome<T>(s: State<T>, i: nat, op: Op<T>, first: bool)
    requires i < |s.threads| && op.Push?
    ensures Outcome(s, Enter(s, i, op, first), i, op, first, [])
  {
    hide OthersStay;
    var r := Enter(s, i, op, first);
    OneStays(s, r, i, r.threads[i]);
    assert s.left + [] == s.left;
  }

  lemma PopWorks<T>(op: Op<T>, q: seq<T>, q': seq<T>, v: T)
    requires op.Pop? && q != []
    requires if op.front then v == q[0] && q' == q[1..] else v == q[|q| - 1] && q' == q[..|q| - 1]
    ensures Works(op, q, [v], q')
  {
    assert q == [q[0]] + q[1..] == q[..|q| - 1] + [q[|q| - 1]];
  }

  lemma PopOutcome<T>(s: State<T>, i: nat, op: Op<T>, first: bool) returns (got: seq<T>)
    requires i < |s.threads| && op.Pop?
    ensures Outcome(s, Enter(s, i, op, first), i, op, first, got)
  {
    hide OthersStay, Works;
    var r := Enter(s, i, op, first);
    OneStays(s, r, i, r.threads[i]);
    assert s.left + [] == s.left && s.entered + [] == s.entered;
    got := [];
    if s.queue != [] {
      var v := if op.front then s.queue[0] else s.queue[|s.queue| - 1];
      PopWorks(op, s.queue, r.queue, v);
      got := [v];
    }
  }

  lemma AllOutcome<T>(s: State<T>, i: nat, op: Op<T>, first: bool)
    requires i < |s.threads| && (op.PopAll? || op.Clear?) && (op.Clear? ==> s.threads[i].Idle?)
    ensures Outcome(s, Enter(s, i, op, first), i, op, first, s.queue)
  {
    assert s.entered + [] == s.entered && s.left + [] == s.left;
  }

  lemma CallStep<T>(s: State<T>, e: Event<T>) returns (got: seq<T>)
    requires OfCall(e) && Enabled(s, e) && ClearNeverWaits(s)
    ensures Outcome(s, Apply(s, e), e.i, OpOf(s, e), e.Call?, got)
  {
    hide Outcome, Enter;
    var op := OpOf(s, e);
    match op
    case Push(_, _, _) =>
      PushOutcome(s, e.i, op, e.Call?);
      got := [];
    case Pop(_, _) => got := PopOutcome(s, e.i, op, e.Call?);
    case _ =>
      AllOutcome(s, e.i, op, e.Call?);
      got := s.queue;
  }

  /** How a call ended: whether it did its work, and the values it took out. */
  datatype Ending<T> = Ending(op: Op<T>, done: bool, got: seq<T>)

  /** The operations called in a run, in order. */
  function Begun<T>(es: seq<Event<T>>): (r: seq<Op<T>>) {
    if es == [] then []
    else Begun(es[..|es| - 1]) + if es[|es| - 1].Call? then [es[|es| - 1].op] else []
  }

  /** The calls that ended in a run, in order: those whose thread does not wait after a step. */
  function Ended<T>(s: State<T>, es: seq<Event<T>>): (r: seq<Ending<T>>)
    requires Runs(s, es)
    decreases |es|
  {
    if es == [] then []
    else
      var n := |es| - 1;
      var a, b, e := After(s, es[..n]), After(s, es), es[n];
      Ended(s, es[..n]) + EndedBy(a, e, b)
  }

  /** The call, if any, that ended in the step from a to b. */
  function EndedBy<T>(a: State<T>, e: Event<T>, b: State<T>): (r: seq<Ending<T>>)
    requires Enabled(a, e)
  {
    if OfCall(e) && e.i < |b.threads| && !b.threads[e.i].Waiting? then
      var op := OpOf(a, e);
      [Ending(op, op.Clear? || b.threads[e.i].Telling?, if |a.left| <= |b.left| then b.left[|a.left|..] else [])]
    else []
  }

  function OpsOf<T>(xs: seq<Ending<T>>): (r: seq<Op<T>>)
    ensures |r| == |xs| && forall i | 0 <= i < |xs| :: r[i] == xs[i].op
  {
    seq(|xs|, i requires 0 <= i < |xs| => xs[i].op)
  }

  /** The values of the pushes that did their work, in order. */
  function Pushed<T>(xs: seq<Ending<T>>): (r: seq<T>) {
    if xs == [] then []
    else
      var x := xs[|xs| - 1];
      Pushed(xs[..|xs| - 1]) + if x.done && x.op.Push? then [x.op.value] else []
  }

  /** The values taken out, in order. */
  function Taken<T>(xs: seq<Ending<T>>): (r: seq<T>) {
    if xs == [] then [] else Taken(xs[..|xs| - 1]) + xs[|xs| - 1].got
  }

  /** The calls that wait or were woken. */
  ghost function Open<T>(ts: seq<Thread<T>>): (r: multiset<Op<T>>) {
    if ts == [] then multiset{} else Open(ts[..|ts| - 1]) + OpenOp(ts[|ts| - 1])
  }

  ghost function OpenOp<T>(t: Thread<T>): (r: multiset<Op<T>>) {
    if t.Waiting? || t.Woken? then multiset{t.op} else multiset{}
  }

  /** A blocking call never gives up; a call takes values out only if it did its work, a pop
      then one, and the others all there are. */
  predicate WellEnded<T>(x: Ending<T>) {
    && (x.op.Clear? || x.op.mode == Block ==> x.done)
    && (!x.done || x.op.Push? ==> x.got == [])
    && (x.done && x.op.Pop? ==> |x.got| == 1)
    && (x.done && x.op.PopAll? ==> x.got != [])
  }

  lemma {:induction false} OpenUpdate<T>(ts: seq<Thread<T>>, i: nat, t: Thread<T>)
    requires i < |ts|
    ensures OpenOp(ts[i]) <= Open(ts) && Open(ts[i := t]) == Open(ts) - OpenOp(ts[i]) + OpenOp(t)
  {
    hide OpenOp;
    var n := |ts| - 1;
    if i < n {
      OpenUpdate(ts[..n], i, t);
      assert ts[i := t][..n] == ts[..n][i := t];
      Exchange(Open(ts[..n]), OpenOp(ts[i]), OpenOp(t), OpenOp(ts[n]));
    } else {
      assert ts[i := t][..n] == ts[..n];
      ExchangeLast(Open(ts[..n]), OpenOp(ts[n]), OpenOp(t));
    }
  }

  lemma Exchange<X>(a: multiset<X>, b: multiset<X>, c: multiset<X>, d: multiset<X>)
    requires b <= a
    ensures (a - b + c) + d == (a + d) - b + c && b <= a + d
  {}

  lemma ExchangeLast<X>(a: multiset<X>, b: multiset<X>, c: multiset<X>)
    ensures a + c == (a + b) - b + c && b <= a + b
  {}

  /** Waking threads leaves their calls open. */
  lemma {:induction false} OpenWoken<T>(ts: seq<Thread<T>>, us: seq<Thread<T>>)
    requires |us| == |ts| && forall i | 0 <= i < |ts| :: OpenOp(us[i]) == OpenOp(ts[i])
    ensures Open(us) == Open(ts)
  {
    hide OpenOp;
    if ts != [] {
      OpenWoken(ts[..|ts| - 1], us[..|us| - 1]);
    }
  }

  /** One thread's call changes, all others stay open or not. */
  lemma OpenStep<T>(ts: seq<Thread<T>>, us: seq<Thread<T>>, i: nat)
    requires |us| == |ts| && i < |ts|
    requires forall j | 0 <= j < |ts| && j != i :: OpenOp(us[j]) == OpenOp(ts[j])
    ensures OpenOp(ts[i]) <= Open(ts) && Open(us) == Open(ts) - OpenOp(ts[i]) + OpenOp(us[i])
  {
    hide OpenOp;
    OpenUpdate(ts, i, us[i]);
    OpenWoken(ts[i := us[i]], us);
  }

  /** A step that belongs to no call leaves the open calls and the queue as they are. */
  lemma OtherStep<T>(s: State<T>, e: Event<T>)
    requires Enabled(s, e) && !OfCall(e) && ClearNeverWaits(s)
    ensures var r := Apply(s, e);
            && ClearNeverWaits(r) && |r.threads| == |s.threads| && Open(r.threads) == Open(s.threads)
            && r.queue == s.queue && r.entered == s.entered && r.left == s.left
  {
    hide Open, OpenOp, ClearNeverWaits, Steady, Enabled, Apply;
    OtherThreads(s, e);
    var r := Apply(s, e);
    forall j | 0 <= j < |s.threads|
      ensures OpenOp(r.threads[j]) == OpenOp(s.threads[j])
    {
      SteadyOpen(s.threads[j], r.threads[j]);
    }
    OpenWoken(s.threads, r.threads);
    KeepsNeverClear(s, r);
  }

  /** A thread stays as it is, is woken, or is done with telling. */
  ghost predicate Steady<T>(t: Thread<T>, u: Thread<T>) {
    u == t || (t.Waiting? && u == Woken(t.op)) || (t.Telling? && u.Idle?)
  }

  lemma SteadyOpen<T>(t: Thread<T>, u: Thread<T>)
    requires Steady(t, u)
    ensures OpenOp(u) == OpenOp(t)
  {}

  lemma OtherThreads<T>(s: State<T>, e: Event<T>)
    requires Enabled(s, e) && !OfCall(e)
    ensures var r := Apply(s, e);
            && |r.threads| == |s.threads| && r.queue == s.queue && r.entered == s.entered && r.left == s.left
            && forall j | 0 <= j < |s.threads| :: Steady(s.threads[j], r.threads[j])
  {
    if e.Tell? {
      hide Apply;
      TellWakes(s, e.i, e.w);
    }
  }

  lemma KeepsNeverClear<T>(s: State<T>, r: State<T>)
    requires ClearNeverWaits(s) && |r.threads| == |s.threads|
    requires forall j | 0 <= j < |s.threads| :: Steady(s.threads[j], r.threads[j])
    ensures ClearNeverWaits(r)
  {
    forall j | 0 <= j < |r.threads| && (r.threads[j].Waiting? || r.threads[j].Woken?)
      ensures !r.threads[j].op.Clear?
    {
      assert Steady(s.threads[j], r.threads[j]);
    }
  }

  /** A step of a call ends it or leaves it open. */
  lemma CallOpen<T>(s: State<T>, e: Event<T>)
    requires Enabled(s, e) && OfCall(e) && ClearNeverWaits(s)
    ensures var r, op := Apply(s, e), OpOf(s, e);
            && ClearNeverWaits(r) && e.i < |r.threads|
            && Open(s.threads) + (if e.Call? then multiset{op} else multiset{}) ==
               Open(r.threads) + (if r.threads[e.i].Waiting? then multiset{} else multiset{op})
            && (r.threads[e.i].Waiting? ==> r.threads[e.i].op == op && r.left == s.left && r.entered == s.entered)
  {
    hide Apply, Open, OpenOp, Works, ClearNeverWaits, OthersStay;
    var got := CallStep(s, e);
    var r, op := Apply(s, e), OpOf(s, e);
    OthersOpen(s, r, e.i);
    OthersNeverClear(s, r, e.i);
    OpenStep(s.threads, r.threads, e.i);
    OpenOps(s.threads[e.i]);
    OpenOps(r.threads[e.i]);
    Moved(Open(s.threads), Open(r.threads), op, e.Call?, r.threads[e.i].Waiting?);
    assert s.left + [] == s.left;
  }

  lemma OpenOps<T>(t: Thread<T>)
    ensures OpenOp(t) == if t.Waiting? || t.Woken? then multiset{t.op} else multiset{}
  {}

  lemma OthersOpen<T>(s: State<T>, r: State<T>, i: nat)
    requires OthersStay(s, r, i)
    ensures |r.threads| == |s.threads|
    ensures forall j | 0 <= j < |s.threads| && j != i :: OpenOp(r.threads[j]) == OpenOp(s.threads[j])
  {}

  lemma OthersNeverClear<T>(s: State<T>, r: State<T>, i: nat)
    requires OthersStay(s, r, i) && ClearNeverWaits(s) && i < |s.threads|
    requires r.threads[i].Waiting? || r.threads[i].Woken? ==> !r.threads[i].op.Clear?
    ensures ClearNeverWaits(r)
  {}

  lemma Moved<T>(a: multiset<Op<T>>, b: multiset<Op<T>>, op: Op<T>, isNew: bool, stays: bool)
    requires (if isNew then multiset{} else multiset{op}) <= a
    requires b == a - (if isNew then multiset{} else multiset{op}) + (if stays then multiset{op} else multiset{})
    ensures a + (if isNew then multiset{op} else multiset{}) == b + (if stays then multiset{} else multiset{op})
  {}

  lemma EndedWell<T>(s: State<T>, r: State<T>, i: nat, op: Op<T>, first: bool, got: seq<T>)
    requires Outcome(s, r, i, op, first, got) && !r.threads[i].Waiting?
    ensures |r.threads| == |s.threads|
    ensures WellEnded(Ending(op, op.Clear? || r.threads[i].Telling?, got))
    ensures op.Clear? || r.threads[i].Telling? <==> !Stuck(s, op)
  {}

  /** The ending of a call, as it stands in the ledger. */
  lemma CallEnds<T>(s: State<T>, e: Event<T>)
    requires Enabled(s, e) && OfCall(e) && ClearNeverWaits(s) && !Apply(s, e).threads[e.i].Waiting?
    ensures var r, op := Apply(s, e), OpOf(s, e);
            exists x: Ending<T> ::
              && EndedBy(s, e, r) == [x] && x.op == op && WellEnded(x)
              && (x.done <==> !Stuck(s, op))
              && r.entered == s.entered + (if x.done && op.Push? then [op.value] else [])
              && r.left == s.left + x.got
  {
    hide Apply, OthersStay, Works;
    var got := CallStep(s, e);
    EndedWell(s, Apply(s, e), e.i, OpOf(s, e), e.Call?, got);
    var r, op := Apply(s, e), OpOf(s, e);
    assert r.left[|s.left|..] == got;
    assert EndedBy(s, e, r) == [Ending(op, op.Clear? || r.threads[e.i].Telling?, got)];
  }

  /** The ledger of a run. */
  ghost predicate Accounted<T>(s: State<T>, begun: seq<Op<T>>, ended: seq<Ending<T>>) {
    && multiset(begun) == multiset(OpsOf(ended)) + Open(s.threads)
    && s.entered == Pushed(ended) && s.left == Taken(ended)
    && (forall x | x in ended :: WellEnded(x))
    && ClearNeverWaits(s)
  }

  lemma EndedMore<T>(xs: seq<Ending<T>>, x: Ending<T>)
    ensures Pushed(xs + [x]) == Pushed(xs) + if x.done && x.op.Push? then [x.op.value] else []
    ensures Taken(xs + [x]) == Taken(xs) + x.got
    ensures OpsOf(xs + [x]) == OpsOf(xs) + [x.op]
  {
    assert (xs + [x])[..|xs|] == xs;
  }

  /** The books of calls, when one is made or ends. */
  lemma OneMore<T>(begun: seq<Op<T>>, ended: seq<Op<T>>, op: Op<T>, isNew: bool, ends: bool,
                   a: multiset<Op<T>>, b: multiset<Op<T>>)
    requires multiset(begun) == multiset(ended) + a
    requires a + (if isNew then multiset{op} else multiset{}) == b + (if ends then multiset{op} else multiset{})
    ensures multiset(begun + if isNew then [op] else []) == multiset(ended + if ends then [op] else []) + b
  {
    var n, x := if isNew then multiset{op} else multiset{}, if ends then multiset{op} else multiset{};
    assert multiset(begun + if isNew then [op] else []) == multiset(begun) + n;
    assert multiset(ended + if ends then [op] else []) == multiset(ended) + x;
    Regroup(multiset(ended), a, n, b, x);
  }

  lemma Regroup<X>(e: multiset<X>, a: multiset<X>, n: multiset<X>, b: multiset<X>, x: multiset<X>)
    requires a + n == b + x
    ensures (e + a) + n == (e + x) + b
  {
    assert (e + a) + n == e + (a + n);
    assert e + (b + x) == (e + x) + b;
  }

  lemma StepAccounted<T>(s: State<T>, e: Event<T>, begun: seq<Op<T>>, ended: seq<Ending<T>>)
    requires Enabled(s, e) && Accounted(s, begun, ended)
    ensures Accounted(Apply(s, e), begun + (if e.Call? then [e.op] else []), ended + EndedBy(s, e, Apply(s, e)))
  {
    hide Apply, Enabled, Pushed, Taken, Open, WellEnded, ClearNeverWaits;
    var r := Apply(s, e);
    if OfCall(e) {
      CallOpen(s, e);
      if !r.threads[e.i].Waiting? {
        CallEnds(s, e);
        var x :| EndedBy(s, e, r) == [x] && WellEnded(x) && x.op == OpOf(s, e)
                 && r.entered == s.entered + (if x.done && x.op.Push? then [x.op.value] else [])
                 && r.left == s.left + x.got;
        EndedMore(ended, x);
        OneMore(begun, OpsOf(ended), x.op, e.Call?, true, Open(s.threads), Open(r.threads));
      } else {
        assert ended + [] == ended;
        OneMore(begun, OpsOf(ended), OpOf(s, e), e.Call?, false, Open(s.threads), Open(r.threads));
      }
    } else {
      OtherStep(s, e);
      assert begun + [] == begun && ended + [] == ended;
    }
  }

  /** In every run every call that was made has ended or is open, each once; a blocking call
      ends only by doing its work; the values that entered are those of the pushes that did
      their work, and those that left were taken by the calls that did theirs, in order. */
  lemma {:induction false} CallsAccounted<T>(max: nat, threads: nat, es: seq<Event<T>>)
    requires Runs(Init(max, threads), es)
    ensures Accounted(After(Init(max, threads), es), Begun(es), Ended(Init(max, threads), es))
  {
    hide Accounted, Apply, Enabled, EndedBy;
    if es == [] {
      NoneOpen<T>(max, threads);
    } else {
      var n := |es| - 1;
      CallsAccounted(max, threads, es[..n]);
      StepAccounted(After(Init(max, threads), es[..n]), es[n], Begun(es[..n]), Ended(Init(max, threads), es[..n]));
    }
  }

  lemma NoneOpen<T>(max: nat, threads: nat)
    ensures Accounted(Init<T>(max, threads), [], [])
  {
    AllIdle(Init<T>(max, threads).threads);
    assert OpsOf<T>([]) == [];
  }

  lemma {:induction false} AllIdle<T>(ts: seq<Thread<T>>)
    requires forall i | 0 <= i < |ts| :: ts[i].Idle?
    ensures Open(ts) == multiset{}
  {
    if ts != [] {
      AllIdle(ts[..|ts| - 1]);
    }
  }

  /** In every run a step of a call makes it give up exactly if the queue is full, or empty,
      at that step and the call only tries, or is timed and has waited. */
  lemma GivesUpExactly<T>(max: nat, threads: nat, es: seq<Event<T>>, e: Event<T>)
    requires Runs(Init(max, threads), es) && Enabled(After(Init(max, threads), es), e) && OfCall(e)
    ensures var s := After(Init(max, threads), es);
            var op := OpOf(s, e);
            (exists x :: x in EndedBy(s, e, Apply(s, e)) && !x.done) <==>
            Stuck(s, op) && (op.mode == Try || (op.mode == Timed && e.Resume?))
  {
    hide Runs, After, Accounted, Pushed, Taken, Open;
    var s := After(Init(max, threads), es);
    CallsAccounted(max, threads, es);
    NeverClear(s, Begun(es), Ended(Init(max, threads), es));
    var got := CallStep(s, e);
    if !Apply(s, e).threads[e.i].Waiting? {
      CallEnds(s, e);
      var x :| EndedBy(s, e, Apply(s, e)) == [x] && (x.done <==> !Stuck(s, OpOf(s, e)));
      assert x in EndedBy(s, e, Apply(s, e));
    }
  }

  lemma NeverClear<T>(s: State<T>, begun: seq<Op<T>>, ended: seq<Ending<T>>)
    requires Accounted(s, begun, ended)
    ensures ClearNeverWaits(s)
  {}

  /** A notification: its thread is done; a signal wakes one thread that waits for it if there
      is one, a broadcast all that wait, and nothing else changes. */
  lemma TellWakes<T>(s: State<T>, i: nat, w: nat)
    requires Enabled(s, Tell(i, w))
    ensures var r, note := Apply(s, Tell(i, w)), s.threads[i].note;
            && r == s.(threads := r.threads) && |r.threads| == |s.threads| && r.threads[i].Idle?
            && (forall j | 0 <= j < |s.threads| && j != i ::
                  r.threads[j] == if Waits(s.threads[j], note) && (note == AllNotFull || j == w)
                                  then Woken(s.threads[j].op) else s.threads[j])
            && (note != AllNotFull && (exists j :: 0 <= j < |s.threads| && Waits(s.threads[j], note)) ==>
                  w < |s.threads| && Waits(s.threads[w], note))
  {}

  /** A timed call that waits comes to an end: its timeout wakes it, it can have the mutex again,
      and then it is done or gives up. */
  lemma TimedEnds<T>(s: State<T>, i: nat)
    requires ClearNeverWaits(s) && i < |s.threads| && s.threads[i].Waiting? && s.threads[i].op.mode == Timed
    ensures Enabled(s, Wake(i))
    ensures var r := Apply(s, Wake(i));
            && r == s.(threads := s.threads[i := Woken(s.threads[i].op)])
            && Enabled(r, Resume(i)) && |EndedBy(r, Resume(i), Apply(r, Resume(i)))| == 1
  {
    var r := Apply(s, Wake(i));
    var got := CallStep(r, Resume(i));
  }

  /** A thread that is not waiting always has a step: it can call anything, have the mutex
      again, or tell what it has to tell. */
  lemma AlwaysAStep<T>(s: State<T>, i: nat, op: Op<T>)
    requires i < |s.threads| && !s.threads[i].Waiting?
    ensures s.threads[i].Idle? ==> Enabled(s, Call(i, op))
    ensures s.threads[i].Woken? ==> Enabled(s, Resume(i))
    ensures s.threads[i].Telling? ==> exists w: nat :: Enabled(s, Tell(i, w))
  {
    if s.threads[i].Telling? {
      var note, w := s.threads[i].note, 0;
      if exists j :: 0 <= j < |s.threads| && Waits(s.threads[j], note) {
        w :| 0 <= w < |s.threads| && Waits(s.threads[w], note);
      }
      assert Enabled(s, Tell(i, w));
    }
  }
}
