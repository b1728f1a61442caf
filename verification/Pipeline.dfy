/** The command pipeline of the Redis client: commands are queued in one order, sent grouped
    by server in another, and their replies fetched in the order of the queue.

    Servers are independent state machines: exec gives the state and the reply of a server
    after a command. */
module Pipeline {
  import opened Basics

  // ------------------------------------------------------------------
  // Meaning
  // ------------------------------------------------------------------

  /** Every command executed in the order of the queue, each on its own server. */
  function InOrder<K, S, C, R>(cmds: seq<C>, route: C -> K, exec: (S, C) -> (S, R), states: map<K, S>)
    : (r: (map<K, S>, seq<R>))
    requires forall i | 0 <= i < |cmds| :: route(cmds[i]) in states
    ensures r.0.Keys == states.Keys && |r.1| == |cmds|
  {
    if cmds == [] then (states, [])
    else
      var before := InOrder(cmds[..|cmds| - 1], route, exec, states);
      var last := cmds[|cmds| - 1];
      var e := exec(before.0[route(last)], last);
      (before.0[route(last) := e.0], before.1 + [e.1])
  }

  /** A group of commands executed by one server. */
  function Alone<S, C, R>(cmds: seq<C>, exec: (S, C) -> (S, R), s: S): (r: (S, seq<R>))
    ensures |r.1| == |cmds|
  {
    if cmds == [] then (s, [])
    else
      var before := Alone(cmds[..|cmds| - 1], exec, s);
      var e := exec(before.0, cmds[|cmds| - 1]);
      (e.0, before.1 + [e.1])
  }

  /** The places in the queue of the commands for server k. */
  function Mine<K(==), C>(cmds: seq<C>, route: C -> K, k: K): (r: seq<nat>)
    ensures forall j | 0 <= j < |r| :: r[j] < |cmds| && route(cmds[r[j]]) == k
    ensures forall i | 0 <= i < |cmds| && route(cmds[i]) == k :: i in r
    ensures forall i, j | 0 <= i < j < |r| :: r[i] < r[j]
  {
    if cmds == [] then []
    else
      var before := Mine(cmds[..|cmds| - 1], route, k);
      if route(cmds[|cmds| - 1]) == k then before + [|cmds| - 1] else before
  }

  function Pick<C>(cmds: seq<C>, places: seq<nat>): (r: seq<C>)
    requires forall j | 0 <= j < |places| :: places[j] < |cmds|
    ensures |r| == |places| && forall j | 0 <= j < |r| :: r[j] == cmds[places[j]]
  {
    seq(|places|, j requires 0 <= j < |places| => cmds[places[j]])
  }

  lemma AloneStep<S, C, R>(cmds: seq<C>, c: C, exec: (S, C) -> (S, R), s: S)
    ensures var before := Alone(cmds, exec, s);
            var e := exec(before.0, c);
            Alone(cmds + [c], exec, s) == (e.0, before.1 + [e.1])
  {}

  lemma MineNext<K, C>(cmds: seq<C>, i: nat, route: C -> K, k: K)
    requires i < |cmds|
    ensures Mine(cmds[..i + 1], route, k) == Mine(cmds[..i], route, k) + if route(cmds[i]) == k then [i] else []
  {
    assert cmds[..i + 1][..i] == cmds[..i];
  }

  /** Places before the last command pick from the commands before it. */
  lemma PickFront<C>(cmds: seq<C>, places: seq<nat>)
    requires cmds != [] && forall j | 0 <= j < |places| :: places[j] < |cmds| - 1
    ensures Pick(cmds, places) == Pick(cmds[..|cmds| - 1], places)
    ensures Pick(cmds, places + [|cmds| - 1]) == Pick(cmds[..|cmds| - 1], places) + [cmds[|cmds| - 1]]
  {}

  lemma MineStep<K, C>(cmds: seq<C>, route: C -> K, k: K)
    requires cmds != []
    ensures var n := |cmds| - 1;
            var before, mine := Mine(cmds[..n], route, k), Mine(cmds, route, k);
            if route(cmds[n]) == k then
              mine == before + [n] && Pick(cmds, mine) == Pick(cmds[..n], before) + [cmds[n]]
            else
              mine == before && Pick(cmds, mine) == Pick(cmds[..n], before)
  {
    hide Mine, Pick;
    assert cmds[..|cmds|] == cmds;
    MineNext(cmds, |cmds| - 1, route, k);
    PickFront(cmds, Mine(cmds[..|cmds| - 1], route, k));
  }

  lemma InOrderStep<K, S, C, R>(cmds: seq<C>, route: C -> K, exec: (S, C) -> (S, R), states: map<K, S>)
    requires cmds != [] && forall i | 0 <= i < |cmds| :: route(cmds[i]) in states
    ensures var n := |cmds| - 1;
            var before := InOrder(cmds[..n], route, exec, states);
            var e := exec(before.0[route(cmds[n])], cmds[n]);
            InOrder(cmds, route, exec, states) == (before.0[route(cmds[n]) := e.0], before.1 + [e.1])
  {}

  lemma NoCommands<K, S, C, R>(cmds: seq<C>, route: C -> K, exec: (S, C) -> (S, R), states: map<K, S>, k: K)
    requires cmds == [] && k in states
    ensures InOrder(cmds, route, exec, states) == (states, []) && Mine(cmds, route, k) == []
    ensures Alone(Pick(cmds, Mine(cmds, route, k)), exec, states[k]) == (states[k], [])
  {}

  /** Seen from one server, the queue is its own group. */
  lemma {:induction false} Projection<K, S, C, R>(
    cmds: seq<C>, route: C -> K, exec: (S, C) -> (S, R), states: map<K, S>, k: K)
    requires (forall i | 0 <= i < |cmds| :: route(cmds[i]) in states) && k in states
    ensures var mine := Mine(cmds, route, k);
            var all, own := InOrder(cmds, route, exec, states), Alone(Pick(cmds, mine), exec, states[k]);
            all.0[k] == own.0 && forall j | 0 <= j < |mine| :: own.1[j] == all.1[mine[j]]
  {
    hide Mine, Pick, InOrder, Alone;
    if cmds == [] {
      NoCommands(cmds, route, exec, states, k);
    } else {
      var front, last := cmds[..|cmds| - 1], cmds[|cmds| - 1];
      Projection(front, route, exec, states, k);
      MineStep(cmds, route, k);
      InOrderStep(cmds, route, exec, states);
      if route(last) == k {
        AloneStep(Pick(front, Mine(front, route, k)), last, exec, states[k]);
      }
    }
  }

  /** The first replies of a group are those of its first commands. */
  lemma {:induction false} AlonePrefix<S, C, R>(cmds: seq<C>, n: nat, exec: (S, C) -> (S, R), s: S)
    requires n <= |cmds|
    ensures Alone(cmds[..n], exec, s).1 == Alone(cmds, exec, s).1[..n]
  {
    if n < |cmds| {
      AlonePrefix(cmds[..|cmds| - 1], n, exec, s);
      assert cmds[..|cmds| - 1][..n] == cmds[..n];
    } else {
      assert cmds[..n] == cmds;
    }
  }

  // ------------------------------------------------------------------
  // Servers and connections
  // ------------------------------------------------------------------

  /** What becomes of the connection to a server: it holds, it cannot be made, or it breaks
      when the server has executed so many commands and so many replies have arrived. */
  datatype Fate = Fine | Unreachable | Breaks(executes: nat, replies: nat)

  /** How many of n commands the server executes. */
  function Executed(f: Fate, n: nat): (r: nat)
    ensures r <= n
  {
    match f
    case Fine => n
    case Unreachable => 0
    case Breaks(e, _) => if e <= n then e else n
  }

  /** How many of n replies arrive. */
  function Arrived(f: Fate, n: nat): (r: nat)
    ensures r <= Executed(f, n)
  {
    match f
    case Fine => n
    case Unreachable => 0
    case Breaks(_, r) => if r <= Executed(f, n) then r else Executed(f, n)
  }

  /** A connection may break after any number of commands and of their replies. */
  lemma EveryBreak(n: nat, e: nat, a: nat)
    requires a <= e <= n
    ensures Executed(Breaks(e, a), n) == e && Arrived(Breaks(e, a), n) == a
    ensures Healthy(Breaks(e, a), n) <==> a == n
    ensures Executed(Fine, n) == Arrived(Fine, n) == n && Executed(Unreachable, n) == Arrived(Unreachable, n) == 0
  {}

  /** Whether the group gets through. */
  predicate Healthy(f: Fate, n: nat) {
    !f.Unreachable? && Arrived(f, n) == n
  }

  /** The replies that reading leaves at the first commands of a group of n: those that
      arrived, and none at the command where reading failed. */
  function Readings<R>(answers: seq<R>, f: Fate, n: nat): (r: seq<Option<R>>)
    requires |answers| == Executed(f, n)
    ensures |r| <= n
    ensures forall j | 0 <= j < |r| :: r[j] == if j < Arrived(f, n) then Some(answers[j]) else None
    ensures |r| == if f.Unreachable? then 0 else if Arrived(f, n) < n then Arrived(f, n) + 1 else n
  {
    var d := Arrived(f, n);
    if f.Unreachable? then []
    else seq(d, j requires 0 <= j < d => Some(answers[j])) + if d < n then [None] else []
  }

  class Cluster<K(!new, ==), S(!new), C(!new), R(!new)> {
    const exec: (S, C) -> (S, R)
    const fate: K -> Fate
    var states: map<K, S>

    constructor (exec: (S, C) -> (S, R), fate: K -> Fate, states: map<K, S>)
      ensures this.exec == exec && this.fate == fate && this.states == states
    {
      this.exec, this.fate, this.states := exec, fate, states;
    }

    /** The server executes commands in order. */
    method Serve(k: K, sent: seq<C>) returns (answers: seq<R>)
      requires k in states
      modifies this
      ensures var r := Alone(sent, exec, old(states)[k]);
              answers == r.1 && states == old(states)[k := r.0]
    {
      answers := [];
      for i := 0 to |sent|
        invariant k in states
        invariant var r := Alone(sent[..i], exec, old(states)[k]);
                  answers == r.1 && states == old(states)[k := r.0]
      {
        assert sent[..i + 1] == sent[..i] + [sent[i]];
        AloneStep(sent[..i], sent[i], exec, old(states)[k]);
        var e := exec(states[k], sent[i]);
        states := states[k := e.0];
        answers := answers + [e.1];
      }
      assert sent[..|sent|] == sent;
    }

    /** ConnRequest for a group: all commands are appended before the first reply is read, and
        reading stops at the first reply that does not come. */
    method ConnRequest(k: K, group: seq<C>) returns (ok: bool, replies: seq<Option<R>>)
      requires k in states
      modifies this
      ensures ok == Healthy(fate(k), |group|)
      ensures var f, n := fate(k), |group|;
              var r := Alone(group[..Executed(f, n)], exec, old(states)[k]);
              replies == Readings(r.1, f, n) && states == old(states)[k := r.0]
    {
      hide Alone;
      var f := fate(k);
      if f.Unreachable? {
        NothingDone(exec, states[k]);
        assert group[..0] == [];
        return false, [];
      }
      var sent := [];
      for i := 0 to |group|
        invariant sent == group[..i]
      {
        sent := sent + [group[i]];
      }
      assert sent == group;
      var answers := Serve(k, sent[..Executed(f, |group|)]);
      replies, ok := [], true;
      ghost var all := Readings(answers, f, |group|);
      for i := 0 to |group|
        invariant ok ==> i <= Arrived(f, |group|) && replies == all[..i]
        invariant !ok ==> Arrived(f, |group|) < |group| && replies == all
      {
        if ok {
          if i < Arrived(f, |group|) {
            replies := replies + [Some(answers[i])];
          } else {
            replies, ok := replies + [None], false;
          }
        }
      }
    }
  }

  lemma NothingDone<S, C, R>(exec: (S, C) -> (S, R), s: S)
    ensures Alone([], exec, s) == (s, [])
  {}

  // ------------------------------------------------------------------
  // The pipeline
  // ------------------------------------------------------------------

  /** The servers that the commands go to. */
  function Routes<K(==), C>(cmds: seq<C>, route: C -> K): (r: set<K>) {
    set i | 0 <= i < |cmds| :: route(cmds[i])
  }

  /** Values put in their places. */
  function Delivered<V>(replies: seq<V>, places: seq<nat>, values: seq<V>): (r: seq<V>)
    requires |places| == |values|
    requires forall j | 0 <= j < |places| :: places[j] < |replies|
    ensures |r| == |replies|
    decreases |places|
  {
    if places == [] then replies
    else
      var n := |places| - 1;
      Delivered(replies, places[..n], values[..n])[places[n] := values[n]]
  }

  /** Each value is in its place, and nothing else has changed. */
  lemma {:induction false} DeliveredAt<V>(replies: seq<V>, places: seq<nat>, values: seq<V>, i: nat)
    requires |places| == |values| && i < |replies|
    requires forall j | 0 <= j < |places| :: places[j] < |replies|
    requires forall j, k | 0 <= j < k < |places| :: places[j] < places[k]
    ensures i !in places ==> Delivered(replies, places, values)[i] == replies[i]
    ensures forall j | 0 <= j < |places| && places[j] == i :: Delivered(replies, places, values)[i] == values[j]
    decreases |places|
  {
    if places != [] {
      var n := |places| - 1;
      DeliveredAt(replies, places[..n], values[..n], i);
    }
  }

  /** What a failed group of server k leaves at place i of the queue: its reply if it arrived,
      nothing at the command where reading failed, and else what was there. */
  function Leftover<V>(mine: seq<nat>, f: Fate, i: nat, right: Option<V>, before: Option<V>): (r: Option<V>) {
    if i in mine[..Arrived(f, |mine|)] then right
    else if !f.Unreachable? && Arrived(f, |mine|) < |mine| && i == mine[Arrived(f, |mine|)] then None
    else before
  }

  /** The readings in one piece: those that arrived, and then at most one failure. */
  lemma ReadingsAre<R>(answers: seq<R>, f: Fate, n: nat)
    requires |answers| == Executed(f, n)
    ensures var d, r := Arrived(f, n), Readings(answers, f, n);
            && d <= |r| <= n && d <= |answers| && |r| <= d + 1 && (d < |r| <==> !f.Unreachable? && d < n)
            && forall j | 0 <= j < |r| :: r[j] == if j < d then Some(answers[j]) else None
  {}

  lemma NotPlaced(mine: seq<nat>, d: nat, m: nat, i: nat)
    requires m <= |mine| && m <= d + 1 && d <= |mine| && i !in mine[..d] && (d < m ==> i != mine[d])
    ensures i !in mine[..m]
  {
    if d < m {
      assert mine[..m] == mine[..d] + [mine[d]];
    } else {
      assert mine[..m] <= mine[..d];
    }
  }

  /** What is read of a group goes to the right places. */
  lemma Placed<V>(mine: seq<nat>, f: Fate, answers: seq<V>, all: seq<V>,
                  before: seq<Option<V>>, values: seq<Option<V>>, i: nat)
    requires |answers| == |mine| && |all| == |before| && i < |before|
    requires forall j | 0 <= j < |mine| :: mine[j] < |before| && answers[j] == all[mine[j]]
    requires forall j, k | 0 <= j < k < |mine| :: mine[j] < mine[k]
    requires values == Readings(answers[..Executed(f, |mine|)], f, |mine|)
    ensures Delivered(before, mine[..|values|], values)[i] == Leftover(mine, f, i, Some(all[i]), before[i])
  {
    hide Delivered, Readings, Executed, Arrived;
    var d, places := Arrived(f, |mine|), mine[..|values|];
    ReadingsAre(answers[..Executed(f, |mine|)], f, |mine|);
    DeliveredAt(before, places, values, i);
    if i in mine[..d] {
      var j :| 0 <= j < d && mine[..d][j] == i;
      assert places[j] == i;
    } else if d < |values| && i == mine[d] {
      assert places[d] == i;
    } else {
      NotPlaced(mine, d, |values|, i);
    }
  }

  /** all is made of what is done and the rest. */
  predicate Parted<K(==)>(all: set<K>, done: set<K>, rest: set<K>) {
    all == done + rest && done !! rest
  }

  lemma PartedStart<K>(all: set<K>)
    ensures Parted(all, {}, all)
  {}

  lemma PartedStep<K>(all: set<K>, done: set<K>, rest: set<K>, k: K)
    requires Parted(all, done, rest) && k in rest
    ensures Parted(all, done + {k}, rest - {k}) && k in all && k !in done
  {}

  lemma PartedEnd<K>(all: set<K>, done: set<K>, rest: set<K>)
    requires Parted(all, done, rest)
    ensures done <= all && rest <= all && done !! rest && (rest == {} ==> done == all)
  {}

  class Queue<K(!new, ==), S(!new), C(!new), R(!new)> {
    const route: C -> K
    var cmds: seq<C>
    var replies: seq<Option<R>>
    var groups: map<K, seq<nat>>
    var cursor: nat

    ghost predicate Valid()
      reads this
    {
      |replies| == |cmds|
    }

    constructor (route: C -> K)
      ensures Valid() && cmds == [] && cursor == 0
    {
      this.route, cmds, replies, groups, cursor := route, [], [], map[], 0;
    }

    /** QueueCommand */
    method QueueCommand(c: C)
      requires Valid()
      modifies this
      ensures Valid() && cmds == old(cmds) + [c] && replies == old(replies) + [None] && cursor == old(cursor)
    {
      cmds, replies := cmds + [c], replies + [None];
    }

    /** The first loop of FlushCommand: every command joins the group of its server. */
    method GroupCommands()
      modifies this`groups
      ensures groups.Keys == Routes(cmds, route)
      ensures forall k | k in groups :: groups[k] == Mine(cmds, route, k)
    {
      hide Mine, Routes;
      groups := map[];
      NoRoutes(cmds[..0], route);
      for i := 0 to |cmds|
        invariant groups.Keys == Routes(cmds[..i], route)
        invariant forall k | k in groups :: groups[k] == Mine(cmds[..i], route, k)
      {
        var k := route(cmds[i]);
        RoutesStep(cmds, i, route);
        forall x | x in groups || x == k
          ensures Mine(cmds[..i + 1], route, x) == Mine(cmds[..i], route, x) + if x == k then [i] else []
        {
          MineNext(cmds, i, route, x);
        }
        if k !in groups {
          NoneMine(cmds[..i], route, k);
        }
        if k in groups {
          groups := groups[k := groups[k] + [i]];
        } else {
          groups := groups[k := [i]];
        }
      }
      assert cmds[..|cmds|] == cmds;
    }

    /** The second loop of FlushCommand: the groups are sent, in any order of the servers,
        until one fails.  done are the servers whose groups got through, failed is the one
        whose group did not. */
    method SendGroups(cluster: Cluster<K, S, C, R>) returns (ok: bool, ghost done: set<K>, ghost failed: Option<K>)
      requires Valid() && Routes(cmds, route) <= cluster.states.Keys
      requires groups.Keys == Routes(cmds, route)
      requires forall k | k in groups :: groups[k] == Mine(cmds, route, k)
      modifies this`replies, cluster
      ensures Valid() && Stopped(cluster.fate, ok, done, failed)
      ensures Sent(old(cluster.states), cluster.states, cluster.exec, cluster.fate, old(replies), replies, done, failed)
    {
      hide Sent, Mine, Routes, Healthy, Parted;
      ghost var states0, replies0 := cluster.states, replies;
      NoneSent(states0, cluster.exec, cluster.fate, replies0);
      var rest := groups.Keys;
      ok, done, failed := true, {}, None;
      PartedStart(groups.Keys);
      while rest != {} && ok
        invariant Valid() && Parted(groups.Keys, done, rest)
        invariant forall k | k in done :: Healthy(cluster.fate(k), |Mine(cmds, route, k)|)
        invariant ok ==> failed == None
        invariant !ok ==> failed.Some? && failed.value in rest
                          && !Healthy(cluster.fate(failed.value), |Mine(cmds, route, failed.value)|)
        invariant Sent(states0, cluster.states, cluster.exec, cluster.fate, replies0, replies, done, failed)
        decreases ok, |rest|
      {
        var k :| k in rest;
        PartedStep(groups.Keys, done, rest, k);
        ok := SendGroup(cluster, k, states0, replies0, done);
        if ok {
          rest, done := rest - {k}, done + {k};
        } else {
          failed := Some(k);
        }
      }
      PartedEnd(groups.Keys, done, rest);
    }

    /** All groups got through, or one failed and stopped the sending. */
    ghost predicate Stopped(fate: K -> Fate, ok: bool, done: set<K>, failed: Option<K>)
      reads this`cmds
    {
      && done <= Routes(cmds, route)
      && (forall k | k in done :: Healthy(fate(k), |Mine(cmds, route, k)|))
      && (if ok then done == Routes(cmds, route) && failed == None
          else failed.Some? && failed.value in Routes(cmds, route) && failed.value !in done
               && !Healthy(fate(failed.value), |Mine(cmds, route, failed.value)|))
    }

    /** The servers in done have executed their groups, the one that failed the first commands
        of its group, and the others nothing; every reply that arrived is in its place. */
    ghost predicate Sent(states0: map<K, S>, states: map<K, S>, exec: (S, C) -> (S, R), fate: K -> Fate,
                         replies0: seq<Option<R>>, replies: seq<Option<R>>, done: set<K>, failed: Option<K>)
      requires Routes(cmds, route) <= states0.Keys
      reads this`cmds
    {
      InRoutes(cmds, route, states0);
      var all := InOrder(cmds, route, exec, states0);
      && |replies| == |replies0| == |cmds| && states.Keys == states0.Keys
      && (forall k | k in states0 :: states[k] ==
            if k in done then all.0[k]
            else if failed == Some(k) then PartDone(states0, exec, fate, k)
            else states0[k])
      && (forall i | 0 <= i < |cmds| :: replies[i] ==
            var k := route(cmds[i]);
            if k in done then Some(all.1[i])
            else if failed == Some(k) then Leftover(Mine(cmds, route, k), fate(k), i, Some(all.1[i]), replies0[i])
            else replies0[i])
    }

    /** The state of server k after as many commands of its group as it executed. */
    ghost function PartDone(states0: map<K, S>, exec: (S, C) -> (S, R), fate: K -> Fate, k: K): (r: S)
      requires k in states0
      reads this`cmds
    {
      var group := Pick(cmds, Mine(cmds, route, k));
      Alone(group[..Executed(fate(k), |group|)], exec, states0[k]).0
    }

    lemma NoneSent(states: map<K, S>, exec: (S, C) -> (S, R), fate: K -> Fate, replies: seq<Option<R>>)
      requires Routes(cmds, route) <= states.Keys && |replies| == |cmds|
      ensures Sent(states, states, exec, fate, replies, replies, {}, None)
    {}

    /** What is read of the group of server k goes to the right places. */
    lemma GroupReplies(states0: map<K, S>, exec: (S, C) -> (S, R), f: Fate, k: K,
                       before: seq<Option<R>>, values: seq<Option<R>>, i: nat)
      requires Routes(cmds, route) <= states0.Keys && k in states0 && |before| == |cmds| && i < |cmds|
      requires var mine := Mine(cmds, route, k);
               var group := Pick(cmds, mine);
               values == Readings(Alone(group[..Executed(f, |group|)], exec, states0[k]).1, f, |group|)
      ensures forall i | 0 <= i < |cmds| :: route(cmds[i]) in states0
      ensures |values| <= |Mine(cmds, route, k)|
      ensures var mine := Mine(cmds, route, k);
              Delivered(before, mine[..|values|], values)[i] ==
              Leftover(mine, f, i, Some(InOrder(cmds, route, exec, states0).1[i]), before[i])
    {
      hide Mine, Pick, InOrder, Alone, Delivered, Leftover, Readings, Executed, Arrived;
      InRoutes(cmds, route, states0);
      var mine := Mine(cmds, route, k);
      var group := Pick(cmds, mine);
      Projection(cmds, route, exec, states0, k);
      AlonePrefix(group, Executed(f, |group|), exec, states0[k]);
      Placed(mine, f, Alone(group, exec, states0[k]).1, InOrder(cmds, route, exec, states0).1, before, values, i);
    }

    lemma HealthyAll(mine: seq<nat>, f: Fate, i: nat, right: Option<R>, before: Option<R>)
      requires Healthy(f, |mine|)
      ensures Executed(f, |mine|) == |mine|
      ensures Leftover(mine, f, i, right, before) == if i in mine then right else before
    {
      assert mine[..|mine|] == mine;
    }

    /** ServRequest for the group of server k. */
    method SendGroup(cluster: Cluster<K, S, C, R>, k: K, ghost states0: map<K, S>,
                     ghost replies0: seq<Option<R>>, ghost done: set<K>) returns (ok: bool)
      requires Valid() && Routes(cmds, route) <= states0.Keys && k in states0 && k !in done
      requires k in groups && groups[k] == Mine(cmds, route, k)
      requires Sent(states0, cluster.states, cluster.exec, cluster.fate, replies0, replies, done, None)
      modifies this`replies, cluster
      ensures Valid() && ok == Healthy(cluster.fate(k), |groups[k]|)
      ensures Sent(states0, cluster.states, cluster.exec, cluster.fate, replies0, replies,
                   if ok then done + {k} else done, if ok then None else Some(k))
    {
      hide Mine, Pick, InOrder, Alone, Leftover, Healthy, Executed, Readings, Delivered, Sent;
      SentFacts(states0, cluster.states, cluster.exec, cluster.fate, replies0, replies, done, k);
      ghost var f, states, before := cluster.fate(k), cluster.states, replies;
      var values: seq<Option<R>>;
      ok, values := cluster.ConnRequest(k, Pick(cmds, groups[k]));
      replies := Delivered(replies, groups[k][..|values|], values);
      forall i | 0 <= i < |cmds|
        ensures LeftAt(states0, cluster.exec, f, k, before, replies, i)
      {
        GroupReplies(states0, cluster.exec, f, k, before, values, i);
      }
      SentNext(states0, states, cluster.states, cluster.exec, cluster.fate, replies0, before, replies, done, k);
    }

    /** Place i holds what the group of server k, the first to fail or not, leaves there. */
    ghost predicate LeftAt(states0: map<K, S>, exec: (S, C) -> (S, R), f: Fate, k: K,
                           before: seq<Option<R>>, after: seq<Option<R>>, i: nat)
      requires Routes(cmds, route) <= states0.Keys && |before| == |after| == |cmds| && i < |cmds|
      reads this`cmds
    {
      InRoutes(cmds, route, states0);
      after[i] == Leftover(Mine(cmds, route, k), f, i, Some(InOrder(cmds, route, exec, states0).1[i]), before[i])
    }

    /** A server whose turn has not come is as it was. */
    lemma SentFacts(states0: map<K, S>, states: map<K, S>, exec: (S, C) -> (S, R), fate: K -> Fate,
                    replies0: seq<Option<R>>, replies: seq<Option<R>>, done: set<K>, k: K)
      requires Routes(cmds, route) <= states0.Keys && k in states0 && k !in done
      requires Sent(states0, states, exec, fate, replies0, replies, done, None)
      ensures |replies| == |cmds| && k in states && states[k] == states0[k]
    {
      hide InOrder;
    }

    /** One group more was sent, to server k. */
    lemma SentNext(states0: map<K, S>, states: map<K, S>, states': map<K, S>, exec: (S, C) -> (S, R), fate: K -> Fate,
                   replies0: seq<Option<R>>, before: seq<Option<R>>, after: seq<Option<R>>, done: set<K>, k: K)
      requires Routes(cmds, route) <= states0.Keys && k in states0 && k !in done && |before| == |after| == |cmds|
      requires Sent(states0, states, exec, fate, replies0, before, done, None)
      requires states' == states[k := PartDone(states0, exec, fate, k)]
      requires forall i | 0 <= i < |cmds| :: LeftAt(states0, exec, fate(k), k, before, after, i)
      ensures var ok := Healthy(fate(k), |Mine(cmds, route, k)|);
              Sent(states0, states', exec, fate, replies0, after,
                   if ok then done + {k} else done, if ok then None else Some(k))
    {
      hide Mine, InOrder, Alone, Leftover, Healthy, PartDone;
      InRoutes(cmds, route, states0);
      var mine, all := Mine(cmds, route, k), InOrder(cmds, route, exec, states0);
      var ok := Healthy(fate(k), |mine|);
      if ok {
        WholeGroup(states0, exec, fate, k);
      }
      var done', failed := if ok then done + {k} else done, if ok then None else Some(k);
      forall i | 0 <= i < |cmds|
        ensures after[i] ==
                var j := route(cmds[i]);
                if j in done' then Some(all.1[i])
                else if failed == Some(j) then Leftover(Mine(cmds, route, j), fate(j), i, Some(all.1[i]), replies0[i])
                else replies0[i]
      {
        assert LeftAt(states0, exec, fate(k), k, before, after, i);
        assert before[i] == if route(cmds[i]) in done then Some(all.1[i]) else replies0[i];
        if route(cmds[i]) != k {
          OthersKept(mine, fate(k), i, Some(all.1[i]), before[i]);
        }
        if ok {
          HealthyAll(mine, fate(k), i, Some(all.1[i]), before[i]);
        }
      }
    }

    lemma OthersKept(mine: seq<nat>, f: Fate, i: nat, right: Option<R>, before: Option<R>)
      requires i !in mine
      ensures Leftover(mine, f, i, right, before) == before
    {}

    lemma WholeGroup(states0: map<K, S>, exec: (S, C) -> (S, R), fate: K -> Fate, k: K)
      requires Routes(cmds, route) <= states0.Keys && k in states0
      requires Healthy(fate(k), |Mine(cmds, route, k)|)
      ensures forall i | 0 <= i < |cmds| :: route(cmds[i]) in states0
      ensures PartDone(states0, exec, fate, k) == InOrder(cmds, route, exec, states0).0[k]
    {
      hide Mine, Pick, InOrder, Alone;
      InRoutes(cmds, route, states0);
      Projection(cmds, route, exec, states0, k);
      var group := Pick(cmds, Mine(cmds, route, k));
      assert group[..|group|] == group;
    }

    /** FlushCommand.  If every group gets through, the states and the replies are those of
        executing the commands in the order of the queue. */
    method FlushCommand(cluster: Cluster<K, S, C, R>) returns (ok: bool, ghost done: set<K>, ghost failed: Option<K>)
      requires Valid() && Routes(cmds, route) <= cluster.states.Keys
      modifies this`groups, this`replies, cluster
      ensures Valid() && Stopped(cluster.fate, ok, done, failed)
      ensures Sent(old(cluster.states), cluster.states, cluster.exec, cluster.fate, old(replies), replies, done, failed)
      ensures ok <==> forall k | k in Routes(cmds, route) :: Healthy(cluster.fate(k), |Mine(cmds, route, k)|)
      ensures ok ==> (forall i | 0 <= i < |cmds| :: route(cmds[i]) in old(cluster.states))
      ensures ok ==> var all := InOrder(cmds, route, cluster.exec, old(cluster.states));
                     cluster.states == all.0 && forall i | 0 <= i < |cmds| :: replies[i] == Some(all.1[i])
    {
      hide Mine, Healthy, InOrder, Leftover;
      InRoutes(cmds, route, cluster.states);
      GroupCommands();
      ok, done, failed := SendGroups(cluster);
      if ok {
        Untouched(cmds, route, cluster.exec, old(cluster.states));
        forall i | 0 <= i < |cmds|
          ensures route(cmds[i]) in done
        {}
      }
    }

    /** FetchNext */
    method FetchNext() returns (eof: bool, reply: Option<R>)
      requires Valid()
      modifies this`cursor
      ensures eof == (old(cursor) >= |cmds|)
      ensures if eof then cursor == old(cursor) && reply == None
              else cursor == old(cursor) + 1 && reply == replies[old(cursor)]
    {
      if cursor >= |cmds| {
        return true, None;
      }
      cursor := cursor + 1;
      return false, replies[cursor - 1];
    }

    /** Fetching until the end gives the replies in the order of the queue. */
    method FetchAll() returns (all: seq<Option<R>>)
      requires Valid() && cursor == 0
      modifies this`cursor
      ensures all == replies
    {
      all := [];
      var eof := false;
      while !eof
        invariant cursor <= |replies| == |cmds| && all == replies[..cursor]
        invariant eof ==> cursor == |replies|
        decreases !eof, |replies| - cursor
      {
        var reply: Option<R>;
        eof, reply := FetchNext();
        if !eof {
          all := all + [reply];
        }
      }
    }
  }

  /** A server that no command goes to keeps its state. */
  lemma Untouched<K, S, C, R>(cmds: seq<C>, route: C -> K, exec: (S, C) -> (S, R), states: map<K, S>)
    requires forall i | 0 <= i < |cmds| :: route(cmds[i]) in states
    ensures forall k | k in states && k !in Routes(cmds, route) :: InOrder(cmds, route, exec, states).0[k] == states[k]
  {
    hide InOrder, Mine;
    forall k | k in states && k !in Routes(cmds, route)
      ensures InOrder(cmds, route, exec, states).0[k] == states[k]
    {
      Projection(cmds, route, exec, states, k);
      NoneMine(cmds, route, k);
    }
  }

  lemma InRoutes<K, S, C>(cmds: seq<C>, route: C -> K, states: map<K, S>)
    requires Routes(cmds, route) <= states.Keys
    ensures forall i | 0 <= i < |cmds| :: route(cmds[i]) in states
  {}

  lemma NoRoutes<K, C>(cmds: seq<C>, route: C -> K)
    requires cmds == []
    ensures Routes(cmds, route) == {}
  {}

  lemma RoutesStep<K, C>(cmds: seq<C>, i: nat, route: C -> K)
    requires i < |cmds|
    ensures Routes(cmds[..i + 1], route) == Routes(cmds[..i], route) + {route(cmds[i])}
  {}

  /** A server that no command goes to has no group. */
  lemma {:induction false} NoneMine<K, C>(cmds: seq<C>, route: C -> K, k: K)
    requires k !in Routes(cmds, route)
    ensures Mine(cmds, route, k) == []
  {
    if cmds != [] {
      var n := |cmds| - 1;
      assert cmds[..n + 1] == cmds;
      RoutesStep(cmds, n, route);
      NoneMine(cmds[..n], route, k);
    }
  }
}
