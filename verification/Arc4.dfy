/** The RC4 stream and the unbiased bounded random numbers drawn from it. */
module Arc4 {
  import opened Basics

  /** An unsigned char. */
  type U8 = x: int | 0 <= x < 256

  function Wrap8(x: int): (r: U8) {
    x % 256
  }

  lemma WrapIs(z: int, q: int, a: U8)
    requires z == 256 * q + a
    ensures Wrap8(z) == a
  {}

  lemma WrapUndo(a: U8, x: int)
    ensures Wrap8(Wrap8(a + x) - x) == a && Wrap8(Wrap8(a - x) + x) == a
  {
    WrapIs(Wrap8(a + x) - x, -((a + x) / 256), a);
    WrapIs(Wrap8(a - x) + x, -((a - x) / 256), a);
  }

  lemma WrapNext(a: int)
    ensures Wrap8(Wrap8(a) + 1) == Wrap8(a + 1)
  {}

  // ------------------------------------------------------------------
  // Permutations
  // ------------------------------------------------------------------

  function Identity(n: nat): (r: seq<U8>)
    requires n <= 256
    ensures |r| == n && forall k | 0 <= k < n :: r[k] == k
  {
    seq(n, k requires 0 <= k < n => k)
  }

  /** s holds every byte exactly once. */
  ghost predicate Permutation(s: seq<U8>) {
    |s| == 256 && multiset(s) == multiset(Identity(256))
  }

  function Swapped(s: seq<U8>, a: U8, b: U8): (r: seq<U8>)
    requires |s| == 256
    ensures |r| == 256
  {
    s[a := s[b]][b := s[a]]
  }

  lemma SwapKeeps(s: seq<U8>, a: U8, b: U8)
    requires |s| == 256
    ensures multiset(Swapped(s, a, b)) == multiset(s)
    ensures Swapped(Swapped(s, a, b), a, b) == s
  {}

  // ------------------------------------------------------------------
  // The state
  // ------------------------------------------------------------------

  datatype Stream = Stream(i: U8, j: U8, s: seq<U8>)

  ghost predicate Sound(r: Stream) {
    Permutation(r.s)
  }

  /** arc4_init */
  function Start(): (r: Stream) {
    Stream(0, 0, Identity(256))
  }

  /** The change of state of arc4_getbyte. */
  function Next(r: Stream): (t: Stream)
    requires |r.s| == 256
    ensures |t.s| == 256
  {
    var i := Wrap8(r.i + 1);
    var j := Wrap8(r.j + r.s[i]);
    Stream(i, j, Swapped(r.s, i, j))
  }

  /** The state before. */
  function Previous(t: Stream): (r: Stream)
    requires |t.s| == 256
    ensures |r.s| == 256
  {
    var s := Swapped(t.s, t.i, t.j);
    Stream(Wrap8(t.i - 1), Wrap8(t.j - s[t.i]), s)
  }

  /** The step of arc4_getbyte has an inverse, so that no two states lead to the same. */
  lemma StepInvertible(r: Stream)
    requires |r.s| == 256
    ensures Previous(Next(r)) == r && Next(Previous(r)) == r
  {
    hide Wrap8, Swapped;
    var t, u := Next(r), Previous(r);
    SwapKeeps(r.s, t.i, t.j);
    SwapKeeps(r.s, r.i, r.j);
    WrapUndo(r.i, 1);
    WrapUndo(r.j, r.s[t.i]);
    WrapUndo(r.j, u.s[r.i]);
  }

  /** One round of arc4_addrandom, from a state whose i has already moved on. */
  function Mixed(r: Stream, d: U8): (t: Stream)
    requires |r.s| == 256
    ensures |t.s| == 256
  {
    var i := Wrap8(r.i + 1);
    var j := Wrap8(r.j + r.s[i] + d);
    Stream(i, j, Swapped(r.s, i, j))
  }

  /** n rounds of arc4_addrandom. */
  function Rounds(r: Stream, dat: seq<U8>, n: nat): (t: Stream)
    requires |r.s| == 256 && dat != []
    ensures |t.s| == 256
  {
    if n == 0 then r.(i := Wrap8(r.i - 1))
    else Mixed(Rounds(r, dat, n - 1), dat[(n - 1) % |dat|])
  }

  /** arc4_addrandom */
  function Added(r: Stream, dat: seq<U8>): (t: Stream)
    requires |r.s| == 256 && dat != []
    ensures |t.s| == 256
  {
    var t := Rounds(r, dat, 256);
    t.(j := t.i)
  }

  /** The table holds every byte once, wherever it does before. */
  lemma {:induction false} RoundsKeep(r: Stream, dat: seq<U8>, n: nat)
    requires Sound(r) && dat != []
    ensures Sound(Rounds(r, dat, n)) && Rounds(r, dat, n).i == Wrap8(r.i - 1 + n)
  {
    hide Wrap8, Swapped, Identity;
    if n > 0 {
      RoundsKeep(r, dat, n - 1);
      WrapNext(r.i - 1 + (n - 1));
      var t, u := Rounds(r, dat, n - 1), Rounds(r, dat, n);
      SwapKeeps(t.s, u.i, u.j);
    }
  }

  /** arc4_addrandom keeps the table a permutation; i comes full circle and j becomes i. */
  lemma AddedKeeps(r: Stream, dat: seq<U8>)
    requires Sound(r) && dat != []
    ensures Sound(Added(r, dat)) && Added(r, dat).i == Added(r, dat).j == Wrap8(r.i - 1)
  {
    hide Rounds, Identity;
    RoundsKeep(r, dat, 256);
    Circle(r.i - 1);
    SameTable(Rounds(r, dat, 256), Added(r, dat));
  }

  lemma Circle(a: int)
    ensures Wrap8(a + 256) == Wrap8(a)
  {}

  lemma SameTable(r: Stream, t: Stream)
    requires Sound(r) && t.s == r.s
    ensures Sound(t)
  {}

  datatype Op = Init | AddRandom(dat: seq<U8>) | GetByte

  function Perform(r: Stream, op: Op): (t: Stream)
    requires |r.s| == 256
    ensures |t.s| == 256
  {
    match op
    case Init => Start()
    case AddRandom(dat) => if dat == [] then r else Added(r, dat)
    case GetByte => Next(r)
  }

  function PerformAll(r: Stream, ops: seq<Op>): (t: Stream)
    requires |r.s| == 256
    ensures |t.s| == 256
  {
    if ops == [] then r else Perform(PerformAll(r, ops[..|ops| - 1]), ops[|ops| - 1])
  }

  /** In every run the table stays a permutation. */
  lemma {:induction false} RunKeeps(ops: seq<Op>)
    ensures Sound(PerformAll(Start(), ops))
  {
    if ops != [] {
      RunKeeps(ops[..|ops| - 1]);
      var r, op := PerformAll(Start(), ops[..|ops| - 1]), ops[|ops| - 1];
      match op
      case Init =>
      case AddRandom(dat) =>
        if dat != [] {
          AddedKeeps(r, dat);
        }
      case GetByte => SwapKeeps(r.s, Next(r).i, Next(r).j);
    }
  }

  /** Distinct states never merge. */
  lemma NeverMerge(a: Stream, b: Stream)
    requires |a.s| == 256 && |b.s| == 256 && Next(a) == Next(b)
    ensures a == b
  {
    hide Next, Previous;
    StepInvertible(a);
    StepInvertible(b);
  }

  /** The byte that arc4_getbyte returns in its new state. */
  function Output(t: Stream): (b: U8)
    requires |t.s| == 256
  {
    t.s[Wrap8(t.s[t.i] as int + t.s[t.j] as int)]
  }

  /** The step and its byte, place by place: the two bytes that are exchanged say where in the
      new table the byte stands. */
  lemma NextIs(r: Stream)
    requires |r.s| == 256
    ensures var t := Next(r);
            && t.i == (r.i + 1) % 256 && t.j == (r.j + r.s[t.i]) % 256
            && t.s[t.i] == r.s[t.j] && t.s[t.j] == r.s[t.i]
            && (forall k | 0 <= k < 256 && k != t.i && k != t.j :: t.s[k] == r.s[k])
            && Output(t) == t.s[(r.s[t.i] as int + r.s[t.j] as int) % 256]
  {}

  // ------------------------------------------------------------------
  // The key schedule
  // ------------------------------------------------------------------

  /** The key schedule of RC4: in round k, place k is exchanged with the place that the sum of
      what stood there and the key bytes has come to. */
  datatype Schedule = Schedule(j: nat, s: seq<U8>)

  ghost predicate IsSchedule(key: seq<U8>, rounds: seq<Schedule>)
    requires key != []
  {
    && rounds != [] && rounds[0] == Schedule(0, Identity(256))
    && forall k | 0 <= k < |rounds| - 1 :: ScheduleStep(rounds[k], k, key[k % |key|], rounds[k + 1])
  }

  ghost predicate ScheduleStep(a: Schedule, k: nat, byte: U8, b: Schedule) {
    && |a.s| == |b.s| == 256 && k < 256 && b.j == (a.j + a.s[k] + byte) % 256
    && b.s[k] == a.s[b.j] && b.s[b.j] == a.s[k]
    && forall l | 0 <= l < 256 && l != k && l != b.j :: b.s[l] == a.s[l]
  }

  /** One round mixes every data byte in differently. */
  lemma MixedInjective(r: Stream, d: U8, e: U8)
    requires |r.s| == 256 && Mixed(r, d) == Mixed(r, e)
    ensures d == e
  {
    var i := Wrap8(r.i + 1);
    SameSum(r.j + r.s[i], d, e);
  }

  lemma SameSum(a: int, d: U8, e: U8)
    requires Wrap8(a + d) == Wrap8(a + e)
    ensures d == e
  {
    WrapUndo(d, a);
    WrapUndo(e, a);
  }

  /** arc4_addrandom after arc4_init is the key schedule. */
  lemma {:induction false} KeySchedule(key: seq<U8>, rounds: seq<Schedule>, n: nat)
    requires key != [] && IsSchedule(key, rounds) && n < |rounds| && n <= 256
    ensures var t := Rounds(Start(), key, n);
            t.i == (n + 255) % 256 && t.j == rounds[n].j && t.s == rounds[n].s
  {
    hide Mixed, Identity, Swapped, Wrap8, ScheduleStep, IsSchedule;
    if n == 0 {
      ScheduleStart(key, rounds);
    } else {
      KeySchedule(key, rounds, n - 1);
      ScheduleNext(key, rounds, n - 1);
      MixedIs(Rounds(Start(), key, n - 1), n - 1, key[(n - 1) % |key|], rounds[n - 1], rounds[n]);
      PlaceIs(n);
    }
  }

  lemma PlaceIs(n: nat)
    requires 0 < n <= 256
    ensures (n + 255) % 256 == n - 1
  {}

  lemma ScheduleStart(key: seq<U8>, rounds: seq<Schedule>)
    requires key != [] && IsSchedule(key, rounds)
    ensures var t := Rounds(Start(), key, 0);
            t.i == 255 && t.j == rounds[0].j && t.s == rounds[0].s
  {}

  lemma ScheduleNext(key: seq<U8>, rounds: seq<Schedule>, k: nat)
    requires key != [] && IsSchedule(key, rounds) && k + 1 < |rounds|
    ensures ScheduleStep(rounds[k], k, key[k % |key|], rounds[k + 1])
  {}

  lemma RoundPlace(i: U8, k: nat)
    requires k < 256 && i == (k + 255) % 256
    ensures Wrap8(i + 1) == k
  {}

  lemma MixedIs(r: Stream, k: nat, d: U8, a: Schedule, b: Schedule)
    requires |r.s| == 256 && k < 256 && r.i == (k + 255) % 256 && r.j == a.j && r.s == a.s && ScheduleStep(a, k, d, b)
    ensures Mixed(r, d) == Stream(k, b.j, b.s)
  {
    RoundPlace(r.i, k);
    assert Swapped(r.s, k, b.j) == b.s;
  }

  /** The key schedule is what arc4_addrandom leaves after arc4_init. */
  lemma AddedSchedules(key: seq<U8>, rounds: seq<Schedule>)
    requires key != [] && IsSchedule(key, rounds) && |rounds| == 257
    ensures Added(Start(), key) == Stream(255, 255, rounds[256].s)
  {
    hide Rounds, Identity;
    KeySchedule(key, rounds, 256);
  }

  function RoundOf(key: seq<U8>, k: nat): (r: Schedule)
    requires key != []
  {
    var t := Rounds(Start(), key, k);
    Schedule(t.j, t.s)
  }

  lemma MixedSteps(r: Stream, k: nat, d: U8)
    requires |r.s| == 256 && k < 256 && r.i == (k + 255) % 256
    ensures Mixed(r, d).i == k && ScheduleStep(Schedule(r.j, r.s), k, d, Schedule(Mixed(r, d).j, Mixed(r, d).s))
  {
    RoundPlace(r.i, k);
  }

  lemma {:induction false} RoundsStep(key: seq<U8>, k: nat)
    requires key != [] && k < 256
    ensures Rounds(Start(), key, k).i == (k + 255) % 256
    ensures ScheduleStep(RoundOf(key, k), k, key[k % |key|], RoundOf(key, k + 1))
  {
    hide Mixed, Identity, ScheduleStep;
    if k > 0 {
      RoundsStep(key, k - 1);
      MixedSteps(Rounds(Start(), key, k - 1), k - 1, key[(k - 1) % |key|]);
      PlaceIs(k);
    }
    MixedSteps(Rounds(Start(), key, k), k, key[k % |key|]);
  }

  /** Every key has a schedule. */
  lemma ScheduleExists(key: seq<U8>) returns (rounds: seq<Schedule>)
    requires key != []
    ensures IsSchedule(key, rounds) && |rounds| == 257
  {
    hide ScheduleStep, Identity, RoundOf;
    rounds := seq(257, k requires 0 <= k => RoundOf(key, k));
    RoundStart(key);
    forall k | 0 <= k < 256
      ensures ScheduleStep(rounds[k], k, key[k % |key|], rounds[k + 1])
    {
      RoundsStep(key, k);
    }
  }

  lemma RoundStart(key: seq<U8>)
    requires key != []
    ensures RoundOf(key, 0) == Schedule(0, Identity(256))
  {}

  /** The global state of arc4random.c */
  class Generator {
    var i: U8
    var j: U8
    const s: array<U8>

    ghost predicate Valid()
      reads this, s
    {
      s.Length == 256 && Permutation(s[..])
    }

    ghost function View(): (r: Stream)
      reads this, s
    {
      Stream(i, j, s[..])
    }

    /** arc4_init */
    constructor ()
      ensures Valid() && View() == Start() && fresh(s)
    {
      s := new U8[256];
      i, j := 0, 0;
      new;
      for n := 0 to 256
        invariant forall k | 0 <= k < n :: s[k] == k
        modifies s
      {
        s[n] := n;
      }
      assert s[..] == Identity(256);
    }

    /** The exchange of two places of the table. */
    method Exchange(a: U8, b: U8)
      requires s.Length == 256
      modifies s
      ensures s[..] == Swapped(old(s[..]), a, b)
    {
      var sa := s[a];
      s[a] := s[b];
      s[b] := sa;
    }

    /** arc4_getbyte */
    method GetByte() returns (b: U8)
      requires Valid()
      modifies this, s
      ensures Valid() && View() == Next(old(View())) && b == Output(View())
      ensures i == (old(i) + 1) % 256 && j == (old(j) + old(s[..])[i]) % 256
      ensures s[i] == old(s[..])[j] && s[j] == old(s[..])[i]
      ensures forall k | 0 <= k < 256 && k != i && k != j :: s[k] == old(s[k])
      ensures b == s[(old(s[..])[i] as int + old(s[..])[j] as int) % 256]
    {
      hide Identity, Swapped, Wrap8, Next, Output;
      NextIs(View());
      b := Draw();
    }

    /** The step itself. */
    method Draw() returns (b: U8)
      requires Valid()
      modifies this, s
      ensures Valid() && View() == Next(old(View())) && b == Output(View())
    {
      hide Identity, Swapped, Wrap8;
      i := Wrap8(i + 1);
      j := Wrap8(j + s[i]);
      SwapKeeps(s[..], i, j);
      Exchange(i, j);
      b := s[Wrap8(s[i] as int + s[j] as int)];
    }

    /** arc4_addrandom */
    method AddRandom(dat: seq<U8>)
      requires Valid() && dat != []
      modifies this, s
      ensures Valid() && View() == Added(old(View()), dat)
    {
      hide Identity, Swapped, Wrap8;
      ghost var r := View();
      i := Wrap8(i - 1);
      for n := 0 to 256
        invariant Valid() && View() == Rounds(r, dat, n)
      {
        i := Wrap8(i + 1);
        j := Wrap8(j + s[i] + dat[n % |dat|]);
        SwapKeeps(s[..], i, j);
        Exchange(i, j);
      }
      j := i;
    }
  }

  // ------------------------------------------------------------------
  // arc4random_uniform
  // ------------------------------------------------------------------

  const TWO32: nat := 0x1_0000_0000

  /** An unsigned 32-bit word. */
  type U32 = x: int | 0 <= x < 0x1_0000_0000

  function Wrap32(x: int): (r: U32) {
    x % TWO32
  }

  /** The rejection bound, in wrapping 32-bit arithmetic. */
  function MinWord(bound: U32): (r: U32)
    requires bound >= 2
  {
    if bound > 0x8000_0000 then Wrap32(1 + (0xffff_ffff - bound))
    else Wrap32(0xffff_ffff - Wrap32(bound * 2) + 1) % bound
  }

  lemma ModLess(a: int, b: int)
    requires b > 0
    ensures (a - b) % b == a % b
  {
    var q, m := a / b, a % b;
    assert a - b == b * (q - 1) + m;
    ModUnique(a - b, b, q - 1, m);
  }

  lemma SmallMultiple(b: int, k: int)
    requires b > 0 && -b < b * k < b
    ensures k == 0
  {}

  lemma ModUnique(z: int, b: int, q: int, m: int)
    requires b > 0 && 0 <= m < b && z == b * q + m
    ensures z % b == m
  {
    var p := z / b;
    assert z == b * p + z % b;
    assert b * (q - p) == b * q - b * p;
    SmallMultiple(b, q - p);
  }

  /** What the second branch reduces modulo the bound. */
  lemma Doubled(bound: U32)
    requires 2 <= bound <= 0x8000_0000
    ensures Wrap32(0xffff_ffff - Wrap32(bound * 2) + 1) == if bound == 0x8000_0000 then 0 else TWO32 - bound * 2
  {}

  /** Both branches compute 2^32 modulo the bound; also for 2^31, where the doubling wraps to
      zero. */
  lemma MinWordIs(bound: U32)
    requires bound >= 2
    ensures MinWord(bound) == TWO32 % bound
  {
    hide Wrap32;
    if bound > 0x8000_0000 {
      Complement(bound);
      ModUnique(TWO32, bound, 1, TWO32 - bound);
    } else {
      Doubled(bound);
      if bound == 0x8000_0000 {
        ModUnique(TWO32, bound, 2, 0);
        ModUnique(0, bound, 0, 0);
      } else {
        ModLess(TWO32, bound);
        ModLess(TWO32 - bound, bound);
      }
    }
  }

  lemma Complement(bound: U32)
    requires bound > 0
    ensures Wrap32(1 + (0xffff_ffff - bound)) == TWO32 - bound
  {}

  /** How many of the words below n leave remainder v. */
  function Hits(n: nat, bound: nat, v: nat): (r: nat)
    requires bound > 0
  {
    if n == 0 then 0 else Hits(n - 1, bound, v) + if (n - 1) % bound == v then 1 else 0
  }

  lemma {:induction false} HitsFirst(n: nat, bound: nat, v: nat)
    requires n <= bound && v < bound
    ensures Hits(n, bound, v) == if n > v then 1 else 0
  {
    if n > 0 {
      HitsFirst(n - 1, bound, v);
      ModUnique(n - 1, bound, 0, n - 1);
    }
  }

  /** Each further block of bound words has one word for each remainder. */
  lemma {:induction false} HitsBlock(n: nat, bound: nat, v: nat)
    requires v < bound
    ensures Hits(n + bound, bound, v) == Hits(n, bound, v) + 1
  {
    if n == 0 {
      HitsFirst(bound, bound, v);
    } else {
      HitsBlock(n - 1, bound, v);
      ModLess(n - 1 + bound, bound);
    }
  }

  lemma {:induction false} HitsBlocks(n: nat, bound: nat, v: nat, q: nat)
    requires v < bound
    ensures Hits(n + q * bound, bound, v) == Hits(n, bound, v) + q
  {
    hide Hits;
    if q > 0 {
      HitsBlocks(n, bound, v, q - 1);
      var m := n + (q - 1) * bound;
      assert m + bound == n + q * bound;
      HitsBlock(m, bound, v);
    } else {
      assert q * bound == 0;
    }
  }

  /** Every result below the bound comes from the same number of accepted words, and more than
      half of all words are accepted. */
  lemma Unbiased(bound: U32, v: nat)
    requires bound >= 2 && v < bound
    ensures Hits(TWO32, bound, v) - Hits(MinWord(bound), bound, v) == TWO32 / bound
    ensures MinWord(bound) < TWO32 / 2
  {
    MinWordIs(bound);
    var min, q := MinWord(bound), TWO32 / bound;
    assert TWO32 == min + q * bound;
    HitsBlocks(min, bound, v, q);
  }

  /** arc4random_uniform on a sequence of draws; None if all are rejected. */
  method Uniform(bound: U32, draws: seq<U32>) returns (r: Option<nat>)
    ensures bound < 2 ==> r == Some(0)
    ensures bound >= 2 && r.Some? ==>
              && r.value < bound
              && exists k :: 0 <= k < |draws| && draws[k] >= TWO32 % bound && r.value == draws[k] % bound
                             && forall i | 0 <= i < k :: draws[i] < TWO32 % bound
    ensures bound >= 2 && r.None? ==> forall i | 0 <= i < |draws| :: draws[i] < TWO32 % bound
  {
    if bound < 2 {
      return Some(0);
    }
    var min := MinWord(bound);
    MinWordIs(bound);
    for k := 0 to |draws|
      invariant forall i | 0 <= i < k :: draws[i] < min
    {
      if draws[k] >= min {
        return Some(draws[k] % bound);
      }
    }
    r := None;
  }
}
