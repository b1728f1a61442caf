/** The expiring Redis lock as a protocol: any number of clients, one key, one clock.

    Each command is one atomic step of the server.  A command may also fail without effect,
    or take effect while its reply is lost; the connection then sends it again, at most once. */
module RedisLock {
  import opened Basics

  /** expire: the lock's m_maxexpire.  delay: no SETNX or GETSET takes effect more than this
      long after the stamp it writes was read.  delAge: every DEL takes effect when the
      holder's stamp is younger than this.  delResent: a DEL that took effect may lose its
      reply and be sent again. */
  datatype Params = Params(expire: int, delay: nat, delAge: int, delResent: bool)

  /** Where a client stands in Lock or UnLock.  t is the stamp it read, v the stamp it found;
      again: the command was already sent once. */
  datatype Local =
    | Idle
    | Stamped(t: nat, again: bool)         // about to send SETNX
    | Busy(t: nat)                         // the key exists: about to send GET
    | Saw(t: nat, v: nat)                  // about to look whether v is expired
    | Doomed(t: nat, v: nat, again: bool)  // v is expired: about to send GETSET
    | Held(t: nat)                         // m_bLocked
    | Leaving(t: nat)                      // in UnLock, about to send DEL
    | Gone(t: nat)                         // its DEL took effect: about to send DEL again

  datatype State = State(now: nat, key: Option<nat>, clients: seq<Local>)

  /** What becomes of a command.  Resent: it takes effect, its reply is lost, and it is sent
      again.  A command that is lost without effect and sent again is just sent later. */
  datatype Outcome = Done | Failed | ReplyLost | Resent

  datatype Event =
    | Tick(ms: nat)
    | Stamp(i: nat)
    | Setnx(i: nat, outcome: Outcome)
    | Get(i: nat, outcome: Outcome)
    | Check(i: nat)
    | Getset(i: nat, outcome: Outcome)
    | Unlock(i: nat)
    | Del(i: nat, outcome: Outcome)
    | Crash(i: nat)

  function Init(n: nat, now: nat, key: Option<nat>): (r: State) {
    State(now, key, seq(n, _ => Idle))
  }

  /** The client whose step an event is. */
  function Who(e: Event): (r: nat) {
    if e.Tick? then 0 else e.i
  }

  predicate Enabled(p: Params, s: State, e: Event) {
    e.Tick? ||
    (Who(e) < |s.clients| &&
     var c := s.clients[Who(e)];
     match e
     case Tick(_) => true
     case Stamp(_) => c.Idle?
     case Setnx(_, o) => c.Stamped? && (o == Resent ==> !c.again)
                         && (o != Failed && s.key.None? ==> s.now - c.t <= p.delay)
     case Get(_, o) => c.Busy? && o != Resent
     case Check(_) => c.Saw?
     case Getset(_, o) => c.Doomed? && (o == Resent ==> !c.again) && (o != Failed ==> s.now - c.t <= p.delay)
     case Unlock(_) => c.Held?
     case Del(_, o) => (c.Leaving? || c.Gone?) && (o == Resent ==> c.Leaving? && p.delResent)
                       && (o != Failed ==> s.now - c.t < p.delAge)
     case Crash(_) => true)
  }

  /** The client after its step: a lock attempt that does not succeed starts over. */
  function NextLocal(p: Params, s: State, e: Event): (r: Local)
    requires !e.Tick? && Enabled(p, s, e)
  {
    var c := s.clients[Who(e)];
    match e
    case Stamp(_) => Stamped(s.now, false)
    case Setnx(_, o) =>
      if o == Resent then Stamped(c.t, true)
      else if o != Done then Idle
      else if s.key.None? then Held(c.t) else Busy(c.t)
    case Get(_, o) => if o != Done || s.key.None? then Idle else Saw(c.t, s.key.value)
    case Check(_) => if s.now - c.v >= p.expire then Doomed(c.t, c.v, false) else Idle
    case Getset(_, o) =>
      // the reply, if any, replaces the client's own value before the comparison
      if o == Resent then Doomed(c.t, c.v, true)
      else if (if o == Done then s.key == Some(c.v) else c.t == c.v) then Held(c.t) else Idle
    case Unlock(_) => if s.now - c.t < p.expire then Leaving(c.t) else Idle
    case Del(_, o) => if o == Resent then Gone(c.t) else Idle
    case Crash(_) => Idle
  }

  function NextKey(p: Params, s: State, e: Event): (r: Option<nat>)
    requires !e.Tick? && Enabled(p, s, e)
  {
    var c := s.clients[Who(e)];
    match e
    case Setnx(_, o) => if o != Failed && s.key.None? then Some(c.t) else s.key
    case Getset(_, o) => if o != Failed then Some(c.t) else s.key
    case Del(_, o) => if o != Failed then None else s.key
    case _ => s.key
  }

  function Apply(p: Params, s: State, e: Event): (r: State)
    requires Enabled(p, s, e)
    ensures |r.clients| == |s.clients|
  {
    if e.Tick? then s.(now := s.now + e.ms)
    else State(s.now, NextKey(p, s, e), s.clients[Who(e) := NextLocal(p, s, e)])
  }

  predicate Runs(p: Params, s: State, es: seq<Event>)
    decreases |es|, 0
  {
    es == [] || (Runs(p, s, es[..|es| - 1]) && Enabled(p, After(p, s, es[..|es| - 1]), es[|es| - 1]))
  }

  function After(p: Params, s: State, es: seq<Event>): (r: State)
    requires Runs(p, s, es)
    decreases |es|, 1
  {
    if es == [] then s else Apply(p, After(p, s, es[..|es| - 1]), es[|es| - 1])
  }

  // ------------------------------------------------------------------
  // What each command brings about
  // ------------------------------------------------------------------

  /** A command takes effect on the key exactly if it is not lost on its way, whether or not
      its reply arrives: SETNX writes its stamp only where there is none, GETSET always, DEL
      removes what is there; no other step touches the key. */
  lemma KeyExactly(p: Params, s: State, e: Event)
    requires !e.Tick? && Enabled(p, s, e)
    ensures var c, key := s.clients[Who(e)], Apply(p, s, e).key;
            if e.Setnx? && e.outcome in {Done, ReplyLost, Resent} && s.key == None then key == Some(c.t)
            else if e.Getset? && e.outcome in {Done, ReplyLost, Resent} then key == Some(c.t)
            else if e.Del? && e.outcome in {Done, ReplyLost, Resent} then key == None
            else key == s.key
  {}

  /** A client takes the lock with its own stamp exactly if it is told that its SETNX found no
      key, or its GETSET tells it the stamp it had found, or tells it nothing where that stamp
      is its own. */
  lemma HoldsExactly(p: Params, s: State, e: Event)
    requires !e.Tick? && Enabled(p, s, e) && !s.clients[Who(e)].Held?
    ensures var c, d := s.clients[Who(e)], Apply(p, s, e).clients[Who(e)];
            && (d.Held? ==> d.t == c.t)
            && (d.Held? <==>
                || (e.Setnx? && e.outcome == Done && s.key == None)
                || (e.Getset? && e.outcome == Done && s.key == Some(c.v))
                || (e.Getset? && e.outcome in {Failed, ReplyLost} && c.t == c.v))
  {}

  /** A command whose reply is lost and that is sent again is sent with the same stamp, once. */
  lemma ResendsSame(p: Params, s: State, e: Event)
    requires !e.Tick? && Enabled(p, s, e)
    requires (e.Setnx? || e.Getset? || e.Del?) && e.outcome == Resent
    ensures var c, r := s.clients[Who(e)], Apply(p, s, e);
            var d := r.clients[Who(e)];
            && d.t == c.t && !Enabled(p, r, e)
            && (e.Setnx? ==> d.Stamped?) && (e.Getset? ==> d.Doomed? && d.v == c.v) && (e.Del? ==> d.Gone?)
  {}

  /** A lock attempt goes on to look at the stamp only where the key is told to exist, to take
      it over only where the stamp found is expired, and starts over in every other case;
      UnLock sends a DEL exactly within the expiry, and lets go with it, whatever its fate. */
  lemma GoesOnExactly(p: Params, s: State, e: Event)
    requires !e.Tick? && Enabled(p, s, e)
    ensures var c, d := s.clients[Who(e)], Apply(p, s, e).clients[Who(e)];
            match e
            case Stamp(_) => d == Stamped(s.now, false)
            case Setnx(_, o) => (d == Busy(c.t) <==> o == Done && s.key != None)
                                && (o == Failed || o == ReplyLost ==> d == Idle)
            case Get(_, o) => if o == Done && s.key != None then d == Saw(c.t, s.key.value) else d == Idle
            case Check(_) => (d == Doomed(c.t, c.v, false) <==> c.v + p.expire <= s.now) && (!d.Doomed? ==> d == Idle)
            case Getset(_, _) => d.Held? || d.Doomed? || d == Idle
            case Unlock(_) => (d == Leaving(c.t) <==> s.now < c.t + p.expire) && (!d.Leaving? ==> d == Idle)
            case Del(_, o) => o != Resent ==> d == Idle
            case Crash(_) => d == Idle
    ensures forall j | 0 <= j < |s.clients| && j != Who(e) :: Apply(p, s, e).clients[j] == s.clients[j]
    ensures Apply(p, s, e).now == s.now
  {}

  // ------------------------------------------------------------------
  // Exclusion
  // ------------------------------------------------------------------

  predicate Holder(c: Local) {
    c.Held? || c.Leaving?
  }

  /** Client i holds the lock and its stamp is younger than w. */
  predicate HoldsWithin(s: State, i: nat, w: int)
    requires i < |s.clients|
  {
    Holder(s.clients[i]) && s.now - s.clients[i].t < w
  }

  /** No two clients hold the lock within w of their stamps. */
  predicate Exclusive(s: State, w: int) {
    forall i, j | 0 <= i < j < |s.clients| :: !(HoldsWithin(s, i, w) && HoldsWithin(s, j, w))
  }

  /** The time for which a holder is safe from the others. */
  function Window(p: Params): (r: int) {
    p.expire - p.delay
  }

  /** Stamps are in the past; a stamp found expired stays so. */
  predicate Timely(p: Params, s: State) {
    forall i | 0 <= i < |s.clients| ::
      && (!s.clients[i].Idle? ==> s.clients[i].t <= s.now)
      && (s.clients[i].Doomed? ==> s.now - s.clients[i].v >= p.expire)
  }

  /** The stored stamp is at least a live holder's own stamp, less the delay. */
  predicate Guarded(p: Params, s: State) {
    forall i | 0 <= i < |s.clients| && HoldsWithin(s, i, Window(p)) ::
      s.key.Some? && s.key.value >= s.clients[i].t - p.delay
  }

  /** Nobody is about to send a DEL that already took effect. */
  predicate NoneGone(s: State) {
    forall i | 0 <= i < |s.clients| :: !s.clients[i].Gone?
  }

  predicate Inv(p: Params, s: State) {
    Timely(p, s) && Guarded(p, s) && NoneGone(s) && Exclusive(s, Window(p))
  }

  /** Every DEL takes effect within the window, and none takes effect twice. */
  predicate CleanDel(p: Params) {
    p.delAge <= Window(p) && (p.delResent ==> p.delAge <= 0)
  }

  lemma StepTimely(p: Params, s: State, e: Event)
    requires Timely(p, s) && Enabled(p, s, e)
    ensures Timely(p, Apply(p, s, e))
  {}

  lemma StepNoneGone(p: Params, s: State, e: Event)
    requires Timely(p, s) && NoneGone(s) && CleanDel(p) && Enabled(p, s, e)
    ensures NoneGone(Apply(p, s, e))
  {}

  /** A client that wins the lock finds no live holder. */
  lemma WinnerAlone(p: Params, s: State, e: Event, j: nat)
    requires Inv(p, s) && !e.Tick? && Enabled(p, s, e) && j < |s.clients| && j != Who(e)
    requires !Holder(s.clients[Who(e)]) && HoldsWithin(Apply(p, s, e), Who(e), Window(p))
    ensures !HoldsWithin(s, j, Window(p))
  {}

  /** A live holder was one before the step, or has just won. */
  lemma StillHolds(p: Params, s: State, e: Event, i: nat)
    requires Enabled(p, s, e) && i < |s.clients| && HoldsWithin(Apply(p, s, e), i, Window(p))
    ensures HoldsWithin(s, i, Window(p)) || (!e.Tick? && i == Who(e) && !Holder(s.clients[i]))
    ensures !e.Tick? && i != Who(e) ==> s.clients[i] == Apply(p, s, e).clients[i]
  {}

  /** A step of another client leaves a live holder its guard. */
  lemma OthersGuard(p: Params, s: State, e: Event, i: nat)
    requires Inv(p, s) && CleanDel(p) && !e.Tick? && Enabled(p, s, e)
    requires i < |s.clients| && i != Who(e) && HoldsWithin(s, i, Window(p))
    ensures NextKey(p, s, e).Some? && NextKey(p, s, e).value >= s.clients[i].t - p.delay
  {
    if e.Del? && e.outcome != Failed {
      // the client that sends it would be a second live holder
      assert HoldsWithin(s, Who(e), Window(p));
    }
  }

  lemma StepGuarded(p: Params, s: State, e: Event)
    requires Inv(p, s) && CleanDel(p) && Enabled(p, s, e)
    ensures Guarded(p, Apply(p, s, e))
  {
    hide Exclusive, CleanDel;
    var r := Apply(p, s, e);
    forall i | 0 <= i < |r.clients| && HoldsWithin(r, i, Window(p))
      ensures r.key.Some? && r.key.value >= r.clients[i].t - p.delay
    {
      StillHolds(p, s, e, i);
      if !e.Tick? && i != Who(e) {
        OthersGuard(p, s, e, i);
      }
    }
  }

  lemma StepExclusive(p: Params, s: State, e: Event)
    requires Inv(p, s) && Enabled(p, s, e)
    ensures Exclusive(Apply(p, s, e), Window(p))
  {
    hide Apply, Enabled, Timely, Guarded;
    var r := Apply(p, s, e);
    forall i, j | 0 <= i < j < |r.clients| && HoldsWithin(r, i, Window(p))
      ensures !HoldsWithin(r, j, Window(p))
    {
      StillHolds(p, s, e, i);
      if HoldsWithin(r, j, Window(p)) {
        StillHolds(p, s, e, j);
        if !HoldsWithin(s, i, Window(p)) {
          WinnerAlone(p, s, e, j);
        } else if !HoldsWithin(s, j, Window(p)) {
          WinnerAlone(p, s, e, i);
        }
      }
    }
  }

  lemma StepKeeps(p: Params, s: State, e: Event)
    requires Inv(p, s) && Enabled(p, s, e) && CleanDel(p)
    ensures Inv(p, Apply(p, s, e))
  {
    hide Timely, Guarded, NoneGone, Exclusive, Apply, Enabled;
    StepTimely(p, s, e);
    StepGuarded(p, s, e);
    StepNoneGone(p, s, e);
    StepExclusive(p, s, e);
  }

  lemma {:induction false} RunKeeps(p: Params, s: State, es: seq<Event>)
    requires Inv(p, s) && Runs(p, s, es) && CleanDel(p)
    ensures Inv(p, After(p, s, es))
  {
    hide Inv, CleanDel, Enabled, Apply;
    if es != [] {
      RunKeeps(p, s, es[..|es| - 1]);
      StepKeeps(p, After(p, s, es[..|es| - 1]), es[|es| - 1]);
    }
  }

  // ------------------------------------------------------------------
  // The exact bound
  // ------------------------------------------------------------------

  /** In every run of any number of clients, from any clock and any key left behind, no two
      clients hold the lock within w of their stamps. */
  ghost predicate Safe(p: Params, w: int) {
    forall n, now, key, es | Runs(p, Init(n, now, key), es) :: Exclusive(After(p, Init(n, now, key), es), w)
  }

  /** s is the state after some run of five clients from an empty key. */
  ghost predicate Reached(p: Params, s: State) {
    exists es :: Runs(p, Init(5, 0, None), es) && After(p, Init(5, 0, None), es) == s
  }

  lemma ReachStep(p: Params, s: State, e: Event) returns (r: State)
    requires Reached(p, s) && Enabled(p, s, e)
    ensures r == Apply(p, s, e) && Reached(p, r)
  {
    var s0 := Init(5, 0, None);
    var es :| Runs(p, s0, es) && After(p, s0, es) == s;
    assert (es + [e])[..|es|] == es;
    assert Runs(p, s0, es + [e]);
    r := Apply(p, s, e);
    assert After(p, s0, es + [e]) == r;
  }

  /** A client finds the key expired. */
  lemma Doom(p: Params, s: State, i: nat) returns (r: State)
    requires Reached(p, s) && i < |s.clients| && s.clients[i].Idle?
    requires s.key.Some? && s.now - s.key.value >= p.expire
    ensures Reached(p, r) && r == s.(clients := s.clients[i := Doomed(s.now, s.key.value, false)])
  {
    r := ReachStep(p, s, Stamp(i));
    r := ReachStep(p, r, Setnx(i, Done));
    r := ReachStep(p, r, Get(i, Done));
    r := ReachStep(p, r, Check(i));
  }

  /** A client finds the key expired and takes it over. */
  lemma Takeover(p: Params, s: State, i: nat) returns (r: State)
    requires Reached(p, s) && i < |s.clients| && s.clients[i].Idle?
    requires s.key.Some? && s.now - s.key.value >= p.expire
    ensures Reached(p, r) && r == State(s.now, Some(s.now), s.clients[i := Held(s.now)])
  {
    r := Doom(p, s, i);
    r := ReachStep(p, r, Getset(i, Done));
  }

  lemma Acquire(p: Params, s: State, i: nat) returns (r: State)
    requires Reached(p, s) && i < |s.clients| && s.clients[i].Idle? && s.key.None?
    ensures Reached(p, r) && r == State(s.now, Some(s.now), s.clients[i := Held(s.now)])
  {
    r := ReachStep(p, s, Stamp(i));
    r := ReachStep(p, r, Setnx(i, Done));
  }

  lemma Start(p: Params)
    ensures Reached(p, State(0, None, [Idle, Idle, Idle, Idle, Idle]))
  {
    assert Init(5, 0, None) == State(0, None, [Idle, Idle, Idle, Idle, Idle]);
    assert Runs(p, Init(5, 0, None), []);
  }

  /** A losing GETSET leaves a stamp that is older than the holder's by the whole delay. */
  lemma LosingGetset(p: Params) returns (s: State)
    requires p.expire > 0
    ensures Reached(p, s)
    ensures s == State(p.expire + p.delay, Some(p.expire), [Held(0), Idle, Held(p.expire + p.delay), Idle, Idle])
  {
    Start(p);
    s := Acquire(p, State(0, None, [Idle, Idle, Idle, Idle, Idle]), 0);
    s := ReachStep(p, s, Tick(p.expire));
    s := Doom(p, s, 1);
    s := ReachStep(p, s, Tick(p.delay));
    s := Takeover(p, s, 2);
    s := ReachStep(p, s, Getset(1, Done));
  }

  /** Past the window another client takes over while the holder still holds. */
  lemma WindowIsTight(p: Params, w: int)
    requires p.expire > 0 && w > 0 && w > Window(p)
    ensures exists s :: Reached(p, s) && !Exclusive(s, w)
  {
    var s := LosingGetset(p);
    if p.expire > p.delay {
      s := ReachStep(p, s, Tick(p.expire - p.delay));
    }
    s := Takeover(p, s, 3);
    assert HoldsWithin(s, 2, w) && HoldsWithin(s, 3, w);
  }

  /** A DEL past the window removes the key of the next holder. */
  lemma DelIsTight(p: Params, w: int)
    requires p.expire > 0 && w > 0 && Window(p) > 0 && p.delAge > Window(p)
    ensures exists s :: Reached(p, s) && !Exclusive(s, w)
  {
    var s := LosingGetset(p);
    s := ReachStep(p, s, Unlock(2));
    s := ReachStep(p, s, Tick(p.expire - p.delay));
    s := Takeover(p, s, 3);
    s := ReachStep(p, s, Del(2, Done));
    s := Acquire(p, s, 4);
    assert HoldsWithin(s, 3, w) && HoldsWithin(s, 4, w);
  }

  /** A DEL that took effect and is sent again removes the key of the next holder, whatever
      its age. */
  lemma ResentDel(p: Params, w: int)
    requires p.expire > 0 && w > 0 && p.delResent && p.delAge > 0
    ensures exists s :: Reached(p, s) && !Exclusive(s, w)
  {
    Start(p);
    var s := Acquire(p, State(0, None, [Idle, Idle, Idle, Idle, Idle]), 0);
    s := ReachStep(p, s, Unlock(0));
    s := ReachStep(p, s, Del(0, Resent));
    s := Acquire(p, s, 1);
    s := ReachStep(p, s, Del(0, Done));
    s := Acquire(p, s, 2);
    assert HoldsWithin(s, 1, w) && HoldsWithin(s, 2, w);
  }

  /** A lock that expires at once excludes nobody. */
  lemma ExpiredAtOnce(p: Params, w: int)
    requires p.expire <= 0 && w > 0
    ensures exists s :: Reached(p, s) && !Exclusive(s, w)
  {
    Start(p);
    var s := Acquire(p, State(0, None, [Idle, Idle, Idle, Idle, Idle]), 0);
    s := Takeover(p, s, 1);
    assert HoldsWithin(s, 0, w) && HoldsWithin(s, 1, w);
  }

  /** The lock excludes within w of the stamps exactly if w and the age of every DEL stay
      within maxexpire less the delay, and no DEL that took effect is sent again. */
  lemma ExactWindow(p: Params, w: int)
    ensures Safe(p, w) <==>
            w <= 0 || (w <= Window(p) && p.delAge <= Window(p) && (p.delResent ==> p.delAge <= 0))
  {
    if w <= 0 {
      forall n, now, key, es | Runs(p, Init(n, now, key), es)
        ensures Exclusive(After(p, Init(n, now, key), es), w)
      {
        TimelyRun(p, Init(n, now, key), es);
      }
    } else if w <= Window(p) && CleanDel(p) {
      forall n, now, key, es | Runs(p, Init(n, now, key), es)
        ensures Exclusive(After(p, Init(n, now, key), es), w)
      {
        var s := After(p, Init(n, now, key), es);
        RunKeeps(p, Init(n, now, key), es);
        assert forall i | 0 <= i < |s.clients| :: HoldsWithin(s, i, w) ==> HoldsWithin(s, i, Window(p));
      }
    } else {
      if p.expire <= 0 {
        ExpiredAtOnce(p, w);
      } else if w > Window(p) {
        WindowIsTight(p, w);
      } else if p.delAge > Window(p) {
        DelIsTight(p, w);
      } else {
        ResentDel(p, w);
      }
      var s :| Reached(p, s) && !Exclusive(s, w);
      var es :| Runs(p, Init(5, 0, None), es) && After(p, Init(5, 0, None), es) == s;
      assert !Safe(p, w);
    }
  }

  /** In the run no time passes between the check of UnLock and its DEL. */
  predicate Prompt(p: Params, s: State, es: seq<Event>)
    requires Runs(p, s, es)
    decreases |es|
  {
    es == [] ||
    (var n := |es| - 1;
     && Prompt(p, s, es[..n])
     && (es[n].Tick? && es[n].ms > 0 ==> forall c | c in After(p, s, es[..n]).clients :: !c.Leaving?))
  }

  /** Whoever is about to send DEL has a stamp younger than the expiry. */
  predicate Checked(p: Params, s: State) {
    forall i | 0 <= i < |s.clients| && s.clients[i].Leaving? :: s.now - s.clients[i].t < p.expire
  }

  lemma CheckedStep(p: Params, s: State, e: Event)
    requires Checked(p, s) && NoneGone(s) && !p.delResent && Enabled(p, s, e)
    requires e.Tick? && e.ms > 0 ==> forall c | c in s.clients :: !c.Leaving?
    ensures Checked(p, Apply(p, s, e)) && NoneGone(Apply(p, s, e))
    ensures var q := p.(delAge := p.expire); Enabled(q, s, e) && Apply(q, s, e) == Apply(p, s, e)
  {
    forall i | 0 <= i < |s.clients|
      ensures s.clients[i] in s.clients
    {}
  }

  /** The check of UnLock bounds the age of every DEL in such a run. */
  lemma {:induction false} CheckBounds(p: Params, s: State, es: seq<Event>)
    requires Runs(p, s, es) && Prompt(p, s, es) && Checked(p, s) && NoneGone(s) && !p.delResent
    ensures var q := p.(delAge := p.expire); Runs(q, s, es) && After(q, s, es) == After(p, s, es)
    ensures Checked(p, After(p, s, es)) && NoneGone(After(p, s, es))
    decreases |es|
  {
    hide Checked, NoneGone, Enabled, Apply;
    if es != [] {
      CheckBounds(p, s, es[..|es| - 1]);
      CheckedStep(p, After(p, s, es[..|es| - 1]), es[|es| - 1]);
    }
  }

  /** With no delay, no time between the check of UnLock and its DEL, and no DEL sent again
      after it took effect, the lock excludes for the whole expiry: the check alone bounds the
      age of a DEL. */
  lemma AtomicUnlock(p: Params, n: nat, now: nat, key: Option<nat>, es: seq<Event>)
    requires p.delay == 0 && !p.delResent && Runs(p, Init(n, now, key), es) && Prompt(p, Init(n, now, key), es)
    ensures Exclusive(After(p, Init(n, now, key), es), p.expire)
  {
    hide Runs, After, Exclusive;
    var q := p.(delAge := p.expire);
    CheckBounds(p, Init(n, now, key), es);
    ExactWindow(q, p.expire);
    assert Safe(q, p.expire);
  }

  /** A client finds its own stamp in the key, which another with the same stamp has won. */
  lemma SeesOwnStamp(p: Params) returns (s: State)
    requires p.expire > 0
    ensures Reached(p, s) && s == State(0, Some(0), [Held(0), Saw(0, 0), Idle, Idle, Idle])
  {
    hide Reached;
    Start(p);
    s := ReachStep(p, State(0, None, [Idle, Idle, Idle, Idle, Idle]), Stamp(1));
    s := Acquire(p, s, 0);
    s := ReachStep(p, s, Setnx(1, Done));
    s := ReachStep(p, s, Get(1, Done));
  }

  /** A GETSET that fails leaves the client's own value in place of the reply, so that a client
      whose stamp is the one it found takes itself for the holder; both stamps are expired. */
  lemma FailedGetset(p: Params) returns (s: State)
    requires p.expire > 0
    ensures Reached(p, s) && s == State(p.expire, Some(0), [Held(0), Held(0), Idle, Idle, Idle])
  {
    hide Reached;
    s := SeesOwnStamp(p);
    s := ReachStep(p, s, Tick(p.expire));
    s := ReachStep(p, s, Check(1));
    s := ReachStep(p, s, Getset(1, Failed));
  }

  lemma {:induction false} TimelyRun(p: Params, s: State, es: seq<Event>)
    requires Timely(p, s) && Runs(p, s, es)
    ensures Timely(p, After(p, s, es))
  {
    if es != [] {
      TimelyRun(p, s, es[..|es| - 1]);
    }
  }

  // ------------------------------------------------------------------
  // Stamps as strings
  // ------------------------------------------------------------------

  predicate IsDigit(c: char) {
    '0' <= c <= '9'
  }

  predicate AllDigits(s: string) {
    forall i | 0 <= i < |s| :: IsDigit(s[i])
  }

  function Digit(d: nat): (r: char)
    requires d < 10
  {
    '0' + d as char
  }

  /** GenerateValue: the stamp in decimal. */
  function GenerateValue(ms: nat): (r: string) {
    if ms < 10 then [Digit(ms)] else GenerateValue(ms / 10) + [Digit(ms % 10)]
  }

  /** The number that the leading digits of s stand for, acc standing for those before. */
  function Digits(s: string, acc: nat): (r: nat) {
    if s == [] || !IsDigit(s[0]) then acc
    else Digits(s[1..], 10 * acc + (s[0] - '0') as nat)
  }

  /** atol, on strings without sign or leading blanks. */
  function Atol(s: string): (r: nat) {
    Digits(s, 0)
  }

  lemma {:induction false} DigitsConcat(a: string, b: string, acc: nat)
    requires AllDigits(a)
    ensures Digits(a + b, acc) == Digits(b, Digits(a, acc))
  {
    if a == [] {
      assert a + b == b;
    } else {
      assert (a + b)[1..] == a[1..] + b && IsDigit(a[0]);
      DigitsConcat(a[1..], b, 10 * acc + (a[0] - '0') as nat);
    }
  }

  /** A stamp is read back as it was written, so that equal strings are equal stamps; the
      stored string is never empty. */
  lemma {:induction false} StampRoundTrip(ms: nat)
    ensures GenerateValue(ms) != [] && Atol(GenerateValue(ms)) == ms
    ensures AllDigits(GenerateValue(ms))
  {
    if ms < 10 {
      assert Digits([], ms) == ms;
    } else {
      StampRoundTrip(ms / 10);
      assert Digits([Digit(ms % 10)], ms / 10) == Digits([], ms);
      DigitsConcat(GenerateValue(ms / 10), [Digit(ms % 10)], 0);
    }
  }

  lemma SameStamp(a: nat, b: nat)
    ensures GenerateValue(a) == GenerateValue(b) <==> a == b
  {
    StampRoundTrip(a);
    StampRoundTrip(b);
  }
}
