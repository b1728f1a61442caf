/** The synchronous call layer: callers wait on a promise that either a Return or the timeout
    thread fulfils.  Its steps are those of any number of callers, of threads that call Return,
    and of the timeout thread, over one session cache. */
module SyncComm {
  import opened Basics
  import opened SessionCache

  /** What became of a session: where it is, apart from its promise. */
  datatype Place =
    | Cached
    | Removed      // taken out of the cache by a Return or by the timeout thread
    | Orphaned     // dropped by AutoClearTimeout
    | Refused      // never entered: the key was taken

  /** What the thread that removed a session was told to answer. */
  datatype Given = Nothing | Response(id: string, value: string) | TimedOut

  /** One session: its key, the values that removers are about to set, its promise, and what
      its caller has received. */
  datatype Session = Session(
    id: string, place: Place, given: Given, flights: seq<string>, promise: Option<string>, got: Option<string>)

  /** The cache maps a key to the number of its session. */
  datatype State = State(now: int, timeout: int, maxSize: nat, cache: Dict<string, nat>, sessions: seq<Session>)

  datatype Event =
    | Tick(dt: nat)
    | Send(id: string)                   // SendAndRecv, up to its wait
    | Return(id: string, value: string)  // up to SetValue
    | ClearTimeout                       // the timeout thread, up to SetValue
    | SetValue(s: nat, j: nat)           // a remover sets the j-th value for session s
    | GetValue(s: nat)                   // the caller of session s wakes up

  function Init(now: int, timeout: int, maxSize: nat): (r: State) {
    State(now, timeout, maxSize, map[], [])
  }

  predicate Enabled(s: State, e: Event) {
    match e
    case SetValue(k, j) => k < |s.sessions| && j < |s.sessions[k].flights|
    case GetValue(k) => k < |s.sessions| && s.sessions[k].place != Refused
                        && s.sessions[k].promise.Some? && s.sessions[k].got.None?
    case _ => true
  }

  /** Session k is in the cache under its own key, and too old. */
  predicate Old(s: State, k: nat)
    requires k < |s.sessions|
  {
    var id := s.sessions[k].id;
    id in s.cache && s.cache[id].value == k && s.now - s.cache[id].timestamp >= s.timeout
  }

  /** What happens to an old session: AutoClearTimeout forgets it, the timeout thread is about
      to set the empty value. */
  datatype Fate = Forget | TimeOut

  function Fated(x: Session, fate: Fate): (r: Session) {
    match fate
    case Forget => x.(place := Orphaned)
    case TimeOut => x.(place := Removed, given := TimedOut, flights := x.flights + [""])
  }

  /** Takes the old sessions out of the cache. */
  function Drop(s: State, fate: Fate): (r: State)
    ensures |r.sessions| == |s.sessions|
    ensures forall k | 0 <= k < |s.sessions| ::
              r.sessions[k] == if Old(s, k) then Fated(s.sessions[k], fate) else s.sessions[k]
  {
    s.(cache := Fresh(s.cache, s.now, s.timeout),
       sessions := seq(|s.sessions|, k requires 0 <= k < |s.sessions| =>
                         if Old(s, k) then Fated(s.sessions[k], fate) else s.sessions[k]))
  }

  function Push(s: State, id: string): (r: State) {
    var k := |s.sessions|;
    if id in s.cache then
      s.(sessions := s.sessions + [Session(id, Refused, Nothing, [], None, None)])
    else
      s.(cache := s.cache[id := Entry(k, s.now)],
         sessions := s.sessions + [Session(id, Cached, Nothing, [], None, None)])
  }

  function Apply(s: State, e: Event): (r: State)
    requires Enabled(s, e)
  {
    match e
    case Tick(dt) => s.(now := s.now + dt)
    case Send(id) => Push(if |s.cache| > s.maxSize then Drop(s, Forget) else s, id)
    case Return(id, value) =>
      if id !in s.cache || s.cache[id].value >= |s.sessions| then s
      else
        var k := s.cache[id].value;
        var x := s.sessions[k];
        s.(cache := s.cache - {id},
           sessions := s.sessions[k := x.(place := Removed, given := Response(id, value),
                                          flights := x.flights + [value])])
    case ClearTimeout => Drop(s, TimeOut)
    case SetValue(k, j) =>
      var x := s.sessions[k];
      s.(sessions := s.sessions[k := x.(promise := Some(x.flights[j]), flights := x.flights[..j] + x.flights[j + 1..])])
    case GetValue(k) => s.(sessions := s.sessions[k := s.sessions[k].(got := s.sessions[k].promise)])
  }

  predicate Runs(s: State, es: seq<Event>)
    decreases |es|, 0
  {
    es == [] || (Runs(s, es[..|es| - 1]) && Enabled(After(s, es[..|es| - 1]), es[|es| - 1]))
  }

  function After(s: State, es: seq<Event>): (r: State)
    requires Runs(s, es)
    decreases |es|, 1
  {
    if es == [] then s else Apply(After(s, es[..|es| - 1]), es[|es| - 1])
  }

  // ------------------------------------------------------------------
  // One session
  // ------------------------------------------------------------------

  /** The value that the remover of a session was told to set. */
  function Told(g: Given): (r: string) {
    if g.Response? then g.value else ""
  }

  /** A session is either untouched, or removed with its one value on its way or set. */
  predicate Sound(x: Session) {
    && (x.place != Removed ==> x.given == Nothing && x.flights == [] && x.promise == None)
    && (x.place == Removed ==>
          && x.given != Nothing && (x.given.Response? ==> x.given.id == x.id)
          && ((x.flights == [Told(x.given)] && x.promise == None)
              || (x.flights == [] && x.promise == Some(Told(x.given)))))
    && (x.got.Some? ==> x.got == x.promise)
  }

  /** The cache holds exactly the sessions that are in place Cached, each under its key. */
  predicate Linked(s: State) {
    && (forall id | id in s.cache :: s.cache[id].value < |s.sessions| && s.sessions[s.cache[id].value].id == id
                                     && s.sessions[s.cache[id].value].place == Cached)
    && (forall k | 0 <= k < |s.sessions| && s.sessions[k].place == Cached ::
          s.sessions[k].id in s.cache && s.cache[s.sessions[k].id].value == k)
  }

  predicate Inv(s: State) {
    Linked(s) && forall k | 0 <= k < |s.sessions| :: Sound(s.sessions[k])
  }

  lemma DropKeeps(s: State, fate: Fate)
    requires Inv(s)
    ensures Inv(Drop(s, fate))
  {}

  lemma PushKeeps(s: State, id: string)
    requires Inv(s)
    ensures Inv(Push(s, id))
  {}

  lemma ReturnKeeps(s: State, id: string, value: string)
    requires Inv(s)
    ensures Inv(Apply(s, Return(id, value)))
  {}

  /** A step that changes one session in its promise, its flights or what its caller got. */
  lemma OneChanged(s: State, k: nat, x: Session)
    requires Inv(s) && k < |s.sessions| && Sound(x)
    requires x.id == s.sessions[k].id && x.place == s.sessions[k].place
    ensures Inv(s.(sessions := s.sessions[k := x]))
  {
    hide Sound;
  }

  lemma StepKeeps(s: State, e: Event)
    requires Inv(s) && Enabled(s, e)
    ensures Inv(Apply(s, e))
  {
    hide Linked;
    match e
    case Tick(_) => TickKeeps(s, e.dt);
    case Send(id) =>
      if |s.cache| > s.maxSize {
        DropKeeps(s, Forget);
        PushKeeps(Drop(s, Forget), id);
      } else {
        PushKeeps(s, id);
      }
    case Return(id, value) => ReturnKeeps(s, id, value);
    case ClearTimeout => DropKeeps(s, TimeOut);
    case SetValue(k, j) =>
      assert Sound(s.sessions[k]);
      OneChanged(s, k, Apply(s, e).sessions[k]);
    case GetValue(k) =>
      assert Sound(s.sessions[k]);
      OneChanged(s, k, Apply(s, e).sessions[k]);
  }

  lemma TickKeeps(s: State, dt: nat)
    requires Inv(s)
    ensures Inv(s.(now := s.now + dt))
  {}

  lemma {:induction false} RunKeeps(s: State, es: seq<Event>)
    requires Inv(s) && Runs(s, es)
    ensures Inv(After(s, es))
  {
    if es != [] {
      RunKeeps(s, es[..|es| - 1]);
      StepKeeps(After(s, es[..|es| - 1]), es[|es| - 1]);
    }
  }

  // ------------------------------------------------------------------
  // What callers get
  // ------------------------------------------------------------------

  /** Whoever sets a promise finds it not yet set, and nobody else is about to set it. */
  lemma FulfilledOnce(now: int, timeout: int, maxSize: nat, es: seq<Event>, k: nat, j: nat)
    requires Runs(Init(now, timeout, maxSize), es)
    requires Enabled(After(Init(now, timeout, maxSize), es), SetValue(k, j))
    ensures var x := After(Init(now, timeout, maxSize), es).sessions[k]; x.promise == None && |x.flights| == 1
  {
    hide Runs, After, Linked;
    RunKeeps(Init(now, timeout, maxSize), es);
    var s := After(Init(now, timeout, maxSize), es);
    assert Sound(s.sessions[k]);
  }

  lemma StepGiven(s: State, e: Event, k: nat)
    requires Enabled(s, e) && k < |Apply(s, e).sessions|
    ensures var g := Apply(s, e).sessions[k].given;
            g.Response? ==> e == Return(g.id, g.value) || (k < |s.sessions| && s.sessions[k].given == g)
  {}

  /** The answer that a remover was given was given to a Return for that key. */
  lemma {:induction false} GivenByReturn(s: State, es: seq<Event>, k: nat)
    requires s.sessions == [] && Runs(s, es) && k < |After(s, es).sessions|
    ensures var g := After(s, es).sessions[k].given; g.Response? ==> Return(g.id, g.value) in es
    decreases |es|
  {
    hide Apply;
    if es != [] {
      var front := es[..|es| - 1];
      StepGiven(After(s, front), es[|es| - 1], k);
      if k < |After(s, front).sessions| {
        GivenByReturn(s, front, k);
      }
    }
  }

  /** A caller receives what a Return for its own key was given, or the empty value of a
      timeout. */
  lemma OwnAnswer(now: int, timeout: int, maxSize: nat, es: seq<Event>, k: nat)
    requires Runs(Init(now, timeout, maxSize), es) && k < |After(Init(now, timeout, maxSize), es).sessions|
    requires After(Init(now, timeout, maxSize), es).sessions[k].got.Some?
    ensures var x := After(Init(now, timeout, maxSize), es).sessions[k];
            if x.given.TimedOut? then x.got == Some("")
            else x.given == Response(x.id, x.got.value) && Return(x.id, x.got.value) in es
  {
    hide Runs, After, Linked;
    RunKeeps(Init(now, timeout, maxSize), es);
    GivenByReturn(Init(now, timeout, maxSize), es, k);
    assert Sound(After(Init(now, timeout, maxSize), es).sessions[k]);
  }

  // ------------------------------------------------------------------
  // What each step brings about
  // ------------------------------------------------------------------

  /** A Return for a key in the cache takes exactly that key out, and puts exactly its value on
      its way to that session; for any other key it does nothing. */
  lemma ReturnTakes(s: State, id: string, value: string)
    requires Inv(s)
    ensures var r := Apply(s, Return(id, value));
            if id in s.cache then
              var k := s.cache[id].value;
              && k < |s.sessions| == |r.sessions| && r.cache == s.cache - {id}
              && r.now == s.now && r.timeout == s.timeout && r.maxSize == s.maxSize
              && (forall j | 0 <= j < |s.sessions| && j != k :: r.sessions[j] == s.sessions[j])
              && r.sessions[k].id == id && r.sessions[k].place == Removed && r.sessions[k].given == Response(id, value)
              && r.sessions[k].flights == [value] && r.sessions[k].promise == None
            else r == s
  {
    if id in s.cache {
      assert Sound(s.sessions[s.cache[id].value]);
    }
  }

  /** Session k is in the cache and as old as the timeout. */
  predicate TooOld(s: State, k: nat)
    requires Linked(s) && k < |s.sessions| && s.sessions[k].place == Cached
  {
    s.now - s.cache[s.sessions[k].id].timestamp >= s.timeout
  }

  /** The timeout thread takes out exactly the sessions that are too old, and puts the empty
      value on its way to each. */
  lemma TimeoutTakes(s: State)
    requires Inv(s)
    ensures var r := Apply(s, Event.ClearTimeout);
            && |r.sessions| == |s.sessions| && r.now == s.now && r.timeout == s.timeout
            && (forall id | id in r.cache :: id in s.cache && r.cache[id] == s.cache[id])
            && (forall id | id in s.cache :: id in r.cache <==> s.now - s.cache[id].timestamp < s.timeout)
            && (forall k | 0 <= k < |s.sessions| ::
                  if s.sessions[k].place == Cached && TooOld(s, k) then
                    && r.sessions[k].place == Removed && r.sessions[k].given == TimedOut
                    && r.sessions[k].flights == [""] && r.sessions[k].promise == None
                  else r.sessions[k] == s.sessions[k])
  {
    forall k | 0 <= k < |s.sessions|
      ensures Old(s, k) <==> s.sessions[k].place == Cached && TooOld(s, k)
      ensures Sound(s.sessions[k])
    {}
  }

  /** A Send enters its session exactly if its key is free, once a cache beyond its maximum
      size has dropped what is too old. */
  lemma SendEnters(s: State, id: string)
    requires Inv(s)
    ensures var r, k := Apply(s, Send(id)), |s.sessions|;
            var kept := id in s.cache && (|s.cache| > s.maxSize ==> s.now - s.cache[id].timestamp < s.timeout);
            && |r.sessions| == k + 1 && r.sessions[k].id == id
            && r.sessions[k].promise == None && r.sessions[k].got == None
            && (if kept then r.sessions[k].place == Refused
                else r.sessions[k].place == Cached && id in r.cache && r.cache[id] == Entry(k, s.now))
            && (forall key | key in s.cache && key != id ::
                  key in r.cache <==> |s.cache| > s.maxSize ==> s.now - s.cache[key].timestamp < s.timeout)
            && (forall key | key in r.cache && key != id :: key in s.cache && r.cache[key] == s.cache[key])
  {}

  /** Setting the value fulfils the promise of one session, which its caller then receives. */
  lemma ValueArrives(s: State, k: nat, j: nat)
    requires Inv(s) && Enabled(s, SetValue(k, j))
    ensures var r := Apply(s, SetValue(k, j));
            && j == 0 && s.sessions[k].flights == [Told(s.sessions[k].given)]
            && r == s.(sessions := r.sessions) && |r.sessions| == |s.sessions|
            && (forall i | 0 <= i < |s.sessions| && i != k :: r.sessions[i] == s.sessions[i])
            && r.sessions[k].promise == Some(Told(s.sessions[k].given)) && r.sessions[k].flights == []
            && r.sessions[k].given == s.sessions[k].given && r.sessions[k].place == s.sessions[k].place
            && r.sessions[k].got == s.sessions[k].got && r.sessions[k].id == s.sessions[k].id
  {
    assert Sound(s.sessions[k]);
  }

  lemma CallerReceives(s: State, k: nat)
    requires Inv(s) && Enabled(s, GetValue(k))
    ensures var r := Apply(s, GetValue(k));
            && r == s.(sessions := r.sessions) && |r.sessions| == |s.sessions|
            && (forall i | 0 <= i < |s.sessions| && i != k :: r.sessions[i] == s.sessions[i])
            && r.sessions[k] == s.sessions[k].(got := s.sessions[k].promise) && r.sessions[k].got.Some?
  {}

  /** What takes a waiting session out of the cache: a Return for its key, or, once it is too
      old, the timeout thread or a Send that finds the cache beyond its maximum size. */
  predicate TakenBy(s: State, e: Event, k: nat)
    requires Linked(s) && k < |s.sessions| && s.sessions[k].place == Cached
  {
    match e
    case Return(id, _) => id == s.sessions[k].id
    case ClearTimeout => TooOld(s, k)
    case Send(_) => |s.cache| > s.maxSize && TooOld(s, k)
    case _ => false
  }

  /** A waiting session leaves the cache exactly so, and is untouched till then. */
  lemma LeavesExactly(s: State, e: Event, k: nat)
    requires Inv(s) && Enabled(s, e) && k < |s.sessions| && s.sessions[k].place == Cached
    ensures var r := Apply(s, e);
            && |r.sessions| >= |s.sessions|
            && (TakenBy(s, e, k) ==> r.sessions[k].place != Cached)
            && (!TakenBy(s, e, k) ==> r.sessions[k] == s.sessions[k])
  {
    assert Sound(s.sessions[k]);
    assert Old(s, k) <==> TooOld(s, k);
  }

  /** What a session was answered is final. */
  lemma AnswerStays(s: State, e: Event, k: nat)
    requires Inv(s) && Enabled(s, e) && k < |s.sessions| && s.sessions[k].place == Removed
    ensures var x, y := s.sessions[k], Apply(s, e).sessions[k];
            && y.id == x.id && y.place == Removed && y.given == x.given
            && (x.promise.Some? ==> y.promise == x.promise) && (x.got.Some? ==> y.got == x.got)
  {
    assert Sound(s.sessions[k]);
    assert !Old(s, k);
  }

  // ------------------------------------------------------------------
  // A Return reaches its caller
  // ------------------------------------------------------------------

  lemma {:induction false} RunsFront(s: State, es: seq<Event>, i: nat)
    requires Runs(s, es) && i <= |es|
    ensures Runs(s, es[..i])
    decreases |es|
  {
    if i == |es| {
      assert es[..i] == es;
    } else {
      RunsFront(s, es[..|es| - 1], i);
      assert es[..|es| - 1][..i] == es[..i];
    }
  }

  /** The state before the i-th event of a run. */
  function At(s: State, es: seq<Event>, i: nat): (r: State)
    requires Runs(s, es) && i <= |es|
  {
    RunsFront(s, es, i);
    After(s, es[..i])
  }

  lemma AtNext(s: State, es: seq<Event>, i: nat)
    requires Runs(s, es) && i < |es|
    ensures Enabled(At(s, es, i), es[i]) && At(s, es, i + 1) == Apply(At(s, es, i), es[i])
  {
    RunsFront(s, es, i + 1);
    assert es[..i + 1][..i] == es[..i];
  }

  lemma AtInv(s: State, es: seq<Event>, i: nat)
    requires Inv(s) && Runs(s, es) && i <= |es|
    ensures Inv(At(s, es, i))
  {
    RunsFront(s, es, i);
    RunKeeps(s, es[..i]);
  }

  /** Session k waits in the cache before event i. */
  predicate WaitsAt(s: State, es: seq<Event>, i: nat, k: nat)
    requires Runs(s, es) && i <= |es|
  {
    k < |At(s, es, i).sessions| && At(s, es, i).sessions[k].place == Cached
  }

  /** Event i takes session k out of the cache. */
  ghost predicate TakenAt(s: State, es: seq<Event>, i: nat, k: nat)
    requires Inv(s) && Runs(s, es) && i < |es| && WaitsAt(s, es, i, k)
  {
    AtInv(s, es, i);
    TakenBy(At(s, es, i), es[i], k)
  }

  /** A session that nothing takes out waits on, untouched. */
  lemma {:induction false} WaitsOn(s: State, es: seq<Event>, a: nat, b: nat, k: nat)
    requires Inv(s) && Runs(s, es) && a <= b <= |es| && WaitsAt(s, es, a, k)
    requires forall i | a <= i < b :: WaitsAt(s, es, i, k) ==> !TakenAt(s, es, i, k)
    ensures WaitsAt(s, es, b, k) && At(s, es, b).sessions[k] == At(s, es, a).sessions[k]
    decreases b
  {
    hide Inv, At, TakenBy, Apply, Enabled, Runs;
    if a < b {
      WaitsOn(s, es, a, b - 1, k);
      AtNext(s, es, b - 1);
      AtInv(s, es, b - 1);
      assert !TakenAt(s, es, b - 1, k);
      LeavesExactly(At(s, es, b - 1), es[b - 1], k);
    }
  }

  /** What a session was answered stays so to the end of the run. */
  lemma {:induction false} AnswerLasts(s: State, es: seq<Event>, a: nat, b: nat, k: nat)
    requires Inv(s) && Runs(s, es) && a <= b <= |es|
    requires k < |At(s, es, a).sessions| && At(s, es, a).sessions[k].place == Removed
    ensures k < |At(s, es, b).sessions|
    ensures var x, y := At(s, es, a).sessions[k], At(s, es, b).sessions[k];
            && y.id == x.id && y.place == Removed && y.given == x.given
            && (x.promise.Some? ==> y.promise == x.promise) && (x.got.Some? ==> y.got == x.got)
    decreases b
  {
    hide Inv, At, Apply, Enabled, Runs;
    if a < b {
      AnswerLasts(s, es, a, b - 1, k);
      AtNext(s, es, b - 1);
      AtInv(s, es, b - 1);
      MoreSessions(At(s, es, b - 1), es[b - 1]);
      AnswerStays(At(s, es, b - 1), es[b - 1], k);
    }
  }

  lemma MoreSessions(s: State, e: Event)
    requires Enabled(s, e)
    ensures |Apply(s, e).sessions| >= |s.sessions|
  {}

  /** Event b of the run is a Return of value v for session k, which waits. */
  predicate ReturnedAt(s: State, es: seq<Event>, b: nat, k: nat, v: string)
    requires Runs(s, es) && b < |es|
  {
    WaitsAt(s, es, b, k) && es[b] == Return(At(s, es, b).sessions[k].id, v)
  }

  lemma ReturnedGives(s: State, es: seq<Event>, b: nat, k: nat, v: string)
    requires Inv(s) && Runs(s, es) && b < |es| && ReturnedAt(s, es, b, k, v)
    ensures k < |At(s, es, b + 1).sessions|
    ensures var x := At(s, es, b + 1).sessions[k];
            x.place == Removed && x.given == Response(x.id, v) && x.flights == [v] && x.promise == None
  {
    hide At, Apply, Enabled, Runs, Sound;
    AtInv(s, es, b);
    AtNext(s, es, b);
    ReturnTakes(At(s, es, b), es[b].id, v);
  }

  /** In every run, from a Return on its value is either on its way to the session that waited
      for it, or has been set, and then its caller has received it or can. */
  lemma StillDue(s: State, es: seq<Event>, b: nat, m: nat, k: nat, v: string)
    requires Inv(s) && Runs(s, es) && b < m <= |es| && ReturnedAt(s, es, b, k, v)
    ensures var r := At(s, es, m);
            && k < |r.sessions|
            && (if r.sessions[k].promise == None then r.sessions[k].flights == [v] && Enabled(r, SetValue(k, 0))
                else r.sessions[k].promise == Some(v) && (r.sessions[k].got == Some(v) || Enabled(r, GetValue(k))))
  {
    hide At, Apply, Runs, Linked;
    ReturnedGives(s, es, b, k, v);
    AnswerLasts(s, es, b + 1, m, k);
    AtInv(s, es, m);
    assert Sound(At(s, es, m).sessions[k]);
  }

  /** In every run: a Send that is not refused, a Return for its key before anything else takes
      the session, the setting of the value and the waking of the caller give that caller
      exactly the value returned, whatever other steps come between. */
  lemma ReturnReaches(s: State, es: seq<Event>, a: nat, b: nat, c: nat, d: nat, id: string, v: string, j: nat)
    requires Inv(s) && Runs(s, es) && a < b < c < d < |es|
    requires es[a] == Send(id) && WaitsAt(s, es, a + 1, |At(s, es, a).sessions|)
    requires var k := |At(s, es, a).sessions|;
             && (forall i | a < i < b :: WaitsAt(s, es, i, k) ==> !TakenAt(s, es, i, k))
             && es[b] == Return(id, v) && es[c] == SetValue(k, j) && es[d] == GetValue(k)
    ensures var k := |At(s, es, a).sessions|;
            k < |After(s, es).sessions| && After(s, es).sessions[k].got == Some(v)
  {
    hide Inv, At, Apply, Enabled, Runs, TakenBy;
    var k := |At(s, es, a).sessions|;
    AtInv(s, es, a);
    AtNext(s, es, a);
    SendEnters(At(s, es, a), id);
    WaitsOn(s, es, a + 1, b, k);
    ReturnedGives(s, es, b, k, v);
    AnswerLasts(s, es, b + 1, c, k);
    AtInv(s, es, c);
    AtNext(s, es, c);
    ValueArrives(At(s, es, c), k, j);
    AnswerLasts(s, es, c + 1, d, k);
    AtInv(s, es, d);
    AtNext(s, es, d);
    CallerReceives(At(s, es, d), k);
    AnswerLasts(s, es, d + 1, |es|, k);
    AtEnd(s, es);
  }

  lemma AtEnd(s: State, es: seq<Event>)
    requires Runs(s, es)
    ensures At(s, es, |es|) == After(s, es)
  {
    assert es[..|es|] == es;
  }

  // ------------------------------------------------------------------
  // Orphans
  // ------------------------------------------------------------------

  predicate SomeOrphan(s: State) {
    exists k :: 0 <= k < |s.sessions| && s.sessions[k].place == Orphaned
  }

  /** A Send would make AutoClearTimeout drop a session. */
  predicate Overfull(s: State) {
    |s.cache| > s.maxSize && exists id :: id in s.cache && s.now - s.cache[id].timestamp >= s.timeout
  }

  lemma StepOrphans(s: State, e: Event)
    requires Inv(s) && Enabled(s, e)
    ensures SomeOrphan(Apply(s, e)) <==> SomeOrphan(s) || (e.Send? && Overfull(s))
  {
    hide Sound;
    var r := Apply(s, e);
    if SomeOrphan(s) {
      var k :| 0 <= k < |s.sessions| && s.sessions[k].place == Orphaned;
      assert r.sessions[k].place == Orphaned;
    } else if e.Send? {
      NewOrphans(s, e.id);
    }
  }

  lemma NewOrphans(s: State, id: string)
    requires Inv(s) && !SomeOrphan(s)
    ensures SomeOrphan(Apply(s, Send(id))) <==> Overfull(s)
  {
    hide Sound;
    var r := Apply(s, Send(id));
    if Overfull(s) {
      var key :| key in s.cache && s.now - s.cache[key].timestamp >= s.timeout;
      assert r.sessions[s.cache[key].value].place == Orphaned;
    }
  }

  /** The i-th event is a Send that finds the cache overfull. */
  predicate Drops(s: State, es: seq<Event>, i: nat)
    requires i < |es|
  {
    es[i].Send? && Runs(s, es[..i]) && Overfull(After(s, es[..i]))
  }

  lemma DropsFront(s: State, es: seq<Event>, n: nat, i: nat)
    requires i < n <= |es|
    ensures Drops(s, es[..n], i) == Drops(s, es, i)
  {
    assert es[..n][..i] == es[..i];
  }

  /** In every run a session is lost to its caller, never to be answered, if and only if some
      Send found the cache beyond its maximum size with an expired session in it. */
  lemma {:induction false} OrphansExactly(s: State, es: seq<Event>)
    requires Inv(s) && !SomeOrphan(s) && Runs(s, es)
    ensures SomeOrphan(After(s, es)) <==> exists i :: 0 <= i < |es| && Drops(s, es, i)
    decreases |es|
  {
    hide Apply, Inv, Overfull, SomeOrphan;
    if es != [] {
      var n := |es| - 1;
      OrphansExactly(s, es[..n]);
      RunKeeps(s, es[..n]);
      StepOrphans(After(s, es[..n]), es[n]);
      forall i | 0 <= i < n
        ensures Drops(s, es[..n], i) == Drops(s, es, i)
      {
        DropsFront(s, es, n, i);
      }
      assert Drops(s, es, n) == (es[n].Send? && Overfull(After(s, es[..n])));
    }
  }

  /** In every run in which no push drops a session, every session that was not refused is in
      the cache, or has its answer, or a thread is about to set it. */
  lemma NoneForgotten(now: int, timeout: int, maxSize: nat, es: seq<Event>, k: nat)
    requires Runs(Init(now, timeout, maxSize), es) && k < |After(Init(now, timeout, maxSize), es).sessions|
    requires forall i | 0 <= i < |es| :: !Drops(Init(now, timeout, maxSize), es, i)
    requires After(Init(now, timeout, maxSize), es).sessions[k].place != Refused
    ensures var s := After(Init(now, timeout, maxSize), es);
            var x := s.sessions[k];
            (x.id in s.cache && s.cache[x.id].value == k) || x.promise.Some? || |x.flights| == 1
  {
    hide Runs, After, Drops;
    var s0 := Init(now, timeout, maxSize);
    RunKeeps(s0, es);
    OrphansExactly(s0, es);
    var s := After(s0, es);
    assert Sound(s.sessions[k]) && s.sessions[k].place != Orphaned;
  }

  // ------------------------------------------------------------------
  // A session that is dropped
  // ------------------------------------------------------------------

  /** The i-th of any number of different keys. */
  function Id(i: nat): (r: string)
    ensures |r| == i
  {
    seq(i, _ => 'k')
  }

  function Sends(n: nat): (r: seq<Event>)
    ensures |r| == n
  {
    seq(n, i requires 0 <= i => Send(Id(i)))
  }

  /** n sessions wait in the cache, all entered at time 0. */
  predicate Crowded(s: State, timeout: int, maxSize: nat, n: nat) {
    && s.now == 0 && s.timeout == timeout && s.maxSize == maxSize
    && |s.sessions| == n && |s.cache| == n
    && (forall id | id in s.cache :: |id| < n)
    && (forall i | 0 <= i < n :: s.sessions[i].id == Id(i) && s.sessions[i].place == Cached)
    && (forall i | 0 <= i < n :: Id(i) in s.cache && s.cache[Id(i)] == Entry(i, 0))
  }

  lemma CrowdGrows(s: State, timeout: int, maxSize: nat, n: nat)
    requires Crowded(s, timeout, maxSize, n) && n <= maxSize
    ensures Crowded(Apply(s, Send(Id(n))), timeout, maxSize, n + 1)
  {
    var r := Apply(s, Send(Id(n)));
    assert Id(n) !in s.cache;
    assert r.cache == s.cache[Id(n) := Entry(n, 0)];
    assert r.cache.Keys == s.cache.Keys + {Id(n)};
  }

  lemma {:induction false} Crowd(timeout: int, maxSize: nat, n: nat)
    requires n <= maxSize + 1
    ensures Runs(Init(0, timeout, maxSize), Sends(n))
    ensures Crowded(After(Init(0, timeout, maxSize), Sends(n)), timeout, maxSize, n)
  {
    hide Crowded, Apply;
    if n == 0 {
      NobodyThere(timeout, maxSize);
    } else {
      Crowd(timeout, maxSize, n - 1);
      assert Sends(n)[..n - 1] == Sends(n - 1);
      CrowdGrows(After(Init(0, timeout, maxSize), Sends(n - 1)), timeout, maxSize, n - 1);
    }
  }

  lemma NobodyThere(timeout: int, maxSize: nat)
    ensures Crowded(Init(0, timeout, maxSize), timeout, maxSize, 0)
  {}

  /** When one session more than the maximum is in the cache and all are old, the next push
      drops every one of them. */
  lemma AllDropped(s: State, timeout: nat, n: nat, k: nat)
    requires k < n && Crowded(s, timeout, n - 1, n)
    ensures var r := Apply(Apply(s, Tick(timeout)), Send(Id(n))); k < |r.sessions| && r.sessions[k].place == Orphaned
  {
    var t := Apply(s, Tick(timeout));
    assert Old(t, k);
  }

  lemma Extend(s: State, es: seq<Event>, e: Event)
    requires Runs(s, es) && Enabled(After(s, es), e)
    ensures Runs(s, es + [e]) && After(s, es + [e]) == Apply(After(s, es), e)
  {
    assert (es + [e])[..|es|] == es;
  }

  /** With the maximum size of the cache and any timeout it can have: 101 callers wait, the
      timeout passes before the timeout thread runs, and the next send drops all of them. */
  lemma OrphanWitness(timeout: nat, k: nat)
    requires timeout > 0 && k < 101
    ensures var s0, es := Init(0, timeout, 100), Sends(101) + [Tick(timeout)] + [Send(Id(101))];
            && Runs(s0, es) && k < |After(s0, es).sessions|
            && After(s0, es).sessions[k].place == Orphaned
  {
    hide Runs, After, Apply, Crowded;
    var s0 := Init(0, timeout, 100);
    Crowd(timeout, 100, 101);
    Extend(s0, Sends(101), Tick(timeout));
    Extend(s0, Sends(101) + [Tick(timeout)], Send(Id(101)));
    AllDropped(After(s0, Sends(101)), timeout, 101, k);
  }
}
