/** Runs of evbuffer operations over any number of buffers, against plain byte sequences. */
module EvBufferRun {
  import opened Basics
  import opened Chains
  import opened Accounting
  import opened Telling
  import opened EvBuffer
  import opened EvBufferOps
  import opened EvBufferPullup
  import opened EvBufferMove
  import opened EvBufferLines

  /** What a buffer is to its users: a byte sequence that may be frozen at either end, and the
      account of what its callbacks were told. */
  datatype Cell = Cell(bytes: seq<Byte>, frozenStart: bool, frozenEnd: bool, acct: Account)

  /** An operation on one buffer. */
  datatype Solo =
    | Add(data: seq<Byte>)
    | Prepend(data: seq<Byte>)
    | Drain(n: nat)
    | Remove(n: nat)
    | CopyOut(n: nat)
    | PullUp(size: int)
    | ReadLn(style: EolStyle)
    | Freeze(start: bool, on: bool)
    | SetCallbacks(cbs: seq<Callback>)
    | Defer
    | RunDeferred

  /** An operation that moves bytes from one buffer to another. */
  datatype Move =
    | AddBuffer
    | PrependBuffer
    | RemoveBuffer(n: nat)

  datatype Op =
    | One(b: nat, solo: Solo)
    | Two(dst: nat, src: nat, move: Move)

  /** The result of an operation and the bytes it hands out. */
  datatype Out = Out(code: int, bytes: seq<Byte>)

  // ------------------------------------------------------------------
  // What the operations mean
  // ------------------------------------------------------------------

  /** spill is the number of bytes that a prepend puts into a new chain. */
  function SoloMeaning(c: Cell, op: Solo, spill: nat): (r: (Cell, Out)) {
    match op
    case Add(data) =>
      if c.frozenEnd then (c, Out(-1, []))
      else (c.(bytes := c.bytes + data, acct := Invoke(c.acct.Added(|data|))), Out(0, []))
    case Prepend(data) =>
      if c.frozenStart then (c, Out(-1, []))
      else
        var missed := Min(spill, |data|);
        (c.(bytes := data + c.bytes, acct := Invoke(c.acct.Added(|data| - missed).Spilled(missed))), Out(0, []))
    case Drain(n) =>
      if c.bytes == [] then (c, Out(0, []))
      else if c.frozenStart then (c, Out(-1, []))
      else (c.(bytes := DropUpTo(c.bytes, n), acct := Cut(c.acct, n)), Out(0, []))
    case Remove(n) =>
      var taken := TakeUpTo(c.bytes, n);
      if taken == [] then (c, Out(0, []))
      else if c.frozenStart then (c, Out(-1, []))
      else (c.(bytes := DropUpTo(c.bytes, n), acct := Cut(c.acct, n)), Out(|taken|, taken))
    case CopyOut(n) =>
      var taken := TakeUpTo(c.bytes, n);
      if taken != [] && c.frozenStart then (c, Out(-1, [])) else (c, Out(|taken|, taken))
    case PullUp(size) =>
      var want := if size < 0 then |c.bytes| else size;
      if want == 0 || want > |c.bytes| then (c, Out(-1, [])) else (c, Out(want, c.bytes[..want]))
    case ReadLn(style) =>
      var n := EndFrom(c.bytes, style, 0);
      if c.frozenStart || n < 0 then (c, Out(-1, []))
      else
        var len := EolLength(c.bytes, style, n);
        (c.(bytes := c.bytes[n + len..], acct := AfterLine(c.acct, n, len)), Out(n, c.bytes[..n]))
    case Freeze(start, on) =>
      (if start then c.(frozenStart := on) else c.(frozenEnd := on), Out(0, []))
    case SetCallbacks(cbs) => (c.(acct := c.acct.(callbacks := cbs)), Out(0, []))
    case Defer => (c.(acct := c.acct.(deferredCbs := true, queued := false)), Out(0, []))
    case RunDeferred =>
      (if c.acct.queued then c.(acct := Accounting.RunCallbacks(c.acct.(queued := false), true)) else c, Out(0, []))
  }

  /** The bytes moved go from src, which is left with rest, to dst, which then holds all. */
  function Moved(dst: Cell, src: Cell, all: seq<Byte>, moved: seq<Byte>, rest: seq<Byte>): (r: (Cell, Cell)) {
    if moved == [] then (dst, src)
    else (dst.(bytes := all, acct := Invoke(dst.acct.Added(|moved|))),
          src.(bytes := rest, acct := Cut(src.acct, |moved|)))
  }

  function MoveMeaning(dst: Cell, src: Cell, move: Move): (r: (Cell, Cell, Out)) {
    match move
    case AddBuffer =>
      if src.bytes != [] && (dst.frozenEnd || src.frozenStart) then (dst, src, Out(-1, []))
      else
        var m := Moved(dst, src, dst.bytes + src.bytes, src.bytes, []);
        (m.0, m.1, Out(0, []))
    case PrependBuffer =>
      if src.bytes != [] && (dst.frozenStart || src.frozenStart) then (dst, src, Out(-1, []))
      else
        var m := Moved(dst, src, src.bytes + dst.bytes, src.bytes, []);
        (m.0, m.1, Out(0, []))
    case RemoveBuffer(n) =>
      if n > 0 && (dst.frozenEnd || src.frozenStart) then (dst, src, Out(-1, []))
      else
        var taken := TakeUpTo(src.bytes, n);
        var m := Moved(dst, src, dst.bytes + taken, taken, DropUpTo(src.bytes, n));
        (m.0, m.1, Out(|taken|, []))
  }

  predicate Fits(op: Op, n: nat) {
    match op
    case One(b, _) => b < n
    case Two(dst, src, _) => dst < n && src < n
  }

  /** A move from a buffer to itself does nothing. */
  function Meaning(cells: seq<Cell>, op: Op, spill: nat): (r: (seq<Cell>, Out))
    requires Fits(op, |cells|)
    ensures |r.0| == |cells|
  {
    match op
    case One(b, solo) =>
      var m := SoloMeaning(cells[b], solo, spill);
      (cells[b := m.0], m.1)
    case Two(dst, src, move) =>
      if dst == src then (cells, Out(0, []))
      else
        var m := MoveMeaning(cells[dst], cells[src], move);
        (cells[dst := m.0][src := m.1], m.2)
  }

  function RunMeaning(cells: seq<Cell>, ops: seq<Op>, spills: seq<nat>): (r: (seq<Cell>, seq<Out>))
    requires |spills| == |ops| && forall op | op in ops :: Fits(op, |cells|)
    ensures |r.0| == |cells|
  {
    if ops == [] then (cells, [])
    else
      var n := |ops| - 1;
      var before := RunMeaning(cells, ops[..n], spills[..n]);
      var last := Meaning(before.0, ops[n], spills[n]);
      (last.0, before.1 + [last.1])
  }

  // ------------------------------------------------------------------
  // Freezing, and the stream of bytes
  // ------------------------------------------------------------------

  /** The operation would change or hand out bytes at the start. */
  predicate UsesStart(c: Cell, op: Solo) {
    match op
    case Prepend(_) => true
    case Drain(_) => c.bytes != []
    case Remove(n) => n > 0 && c.bytes != []
    case CopyOut(n) => n > 0 && c.bytes != []
    case ReadLn(_) => true
    case _ => false
  }

  /** Freezing an end stops exactly the operations that use it, till it is unfrozen: they fail
      and change nothing, and freezing changes no byte. */
  lemma FreezeStops(c: Cell, op: Solo, start: bool, spill: nat, other: nat)
    ensures var f := SoloMeaning(c, Freeze(start, true), other).0;
            && f.bytes == c.bytes && f.acct == c.acct
            && ((if start then UsesStart(c, op) else op.Add?) ==> SoloMeaning(f, op, spill) == (f, Out(-1, [])))
    ensures var f := SoloMeaning(c, Freeze(start, false), other).0;
            && f.bytes == c.bytes && f.acct == c.acct
            && (start && op.Prepend? ==> SoloMeaning(f, op, spill).1.code == 0)
            && (start && (op.Drain? || op.Remove? || op.CopyOut?) ==> SoloMeaning(f, op, spill).1.code >= 0)
            && (!start && op.Add? ==> SoloMeaning(f, op, spill).1.code == 0)
  {}

  /** Callbacks that were deferred are told when the event loop runs them: of an append the
      enabled ones that do not defer at once, the other enabled ones then, each once, and what
      both are told is what was appended; after that nothing is owed. */
  lemma DeferTells(c: Cell, data: seq<Byte>) returns (now: seq<nat>, later: seq<nat>, ns: seq<Notice>, ms: seq<Notice>)
    requires Balanced(c.acct) && !c.frozenEnd && data != [] && c.acct.callbacks != []
    ensures var d := SoloMeaning(c, Defer, 0).0;
            var e := SoloMeaning(d, Add(data), 0).0;
            var f := SoloMeaning(e, RunDeferred, 0).0;
            var t := c.acct.Added(|data|).SoFar();
            && f.acct.log == c.acct.log + ns + ms
            && Sent(ns, c.acct.callbacks, now, t) && Sent(ms, c.acct.callbacks, later, t)
            && (forall i | 0 <= i < |c.acct.callbacks| ::
                  var cb := c.acct.callbacks[i];
                  && (i in now <==> cb.enabled && cb.nodefer) && (i in later <==> cb.enabled && !cb.nodefer))
            && f.acct.nAdd == f.acct.nDel == f.acct.missed == 0 && f.acct.base == |data| + c.acct.total
            && SoloMeaning(f, RunDeferred, 0).0 == f && f.bytes == c.bytes + data
  {
    hide Invoke, Accounting.RunCallbacks, Sent;
    var a := c.acct.(deferredCbs := true, queued := false).Added(|data|);
    now, later, ns, ms := DeferredOnce(a);
    var ns', idx := InvokeTells(a);
    var ms', idx' := RunTells(Invoke(a).(queued := false), true);
  }

  /** The operation, if it is on buffer b, only writes at the end or reads from the start. */
  predicate Streams(op: Op, b: nat) {
    match op
    case One(a, solo) => a == b ==> !(solo.Prepend? || solo.Drain? || solo.ReadLn?)
    case Two(dst, src, _) => dst == src || (dst != b && src != b)
  }

  /** What the operations on buffer b wrote, as far as they succeeded. */
  function Written(ops: seq<Op>, outs: seq<Out>, b: nat): (r: seq<Byte>)
    requires |outs| == |ops|
  {
    if ops == [] then []
    else
      var n := |ops| - 1;
      Written(ops[..n], outs[..n], b) +
      if ops[n].One? && ops[n].b == b && ops[n].solo.Add? && outs[n].code == 0 then ops[n].solo.data else []
  }

  /** What the removals on buffer b handed out. */
  function Taken(ops: seq<Op>, outs: seq<Out>, b: nat): (r: seq<Byte>)
    requires |outs| == |ops|
  {
    if ops == [] then []
    else
      var n := |ops| - 1;
      Taken(ops[..n], outs[..n], b) +
      if ops[n].One? && ops[n].b == b && ops[n].solo.Remove? then outs[n].bytes else []
  }

  lemma OneOutEach(cells: seq<Cell>, ops: seq<Op>, spills: seq<nat>)
    requires |spills| == |ops| && forall op | op in ops :: Fits(op, |cells|)
    ensures |RunMeaning(cells, ops, spills).1| == |ops|
  {}

  lemma StreamStep(c: Cell, solo: Solo, spill: nat)
    requires !(solo.Prepend? || solo.Drain? || solo.ReadLn?)
    ensures var m := SoloMeaning(c, solo, spill);
            c.bytes + (if solo.Add? && m.1.code == 0 then solo.data else []) ==
            (if solo.Remove? then m.1.bytes else []) + m.0.bytes
  {
    if solo.Remove? {
      Amounts(c.bytes, solo.n);
    }
  }

  /** The last operation of a run. */
  lemma RunLast(cells: seq<Cell>, ops: seq<Op>, spills: seq<nat>)
    requires |spills| == |ops| && ops != [] && forall op | op in ops :: Fits(op, |cells|)
    ensures var n := |ops| - 1;
            var before := RunMeaning(cells, ops[..n], spills[..n]);
            && |before.0| == |cells| && Fits(ops[n], |cells|)
            && var last := Meaning(before.0, ops[n], spills[n]);
               RunMeaning(cells, ops, spills) == (last.0, before.1 + [last.1])
  {
    hide Meaning;
  }

  lemma LastWritten(ops: seq<Op>, outs: seq<Out>, b: nat)
    requires |outs| == |ops| && ops != []
    ensures var n := |ops| - 1;
            var one := ops[n].One? && ops[n].b == b;
            && Written(ops, outs, b) == Written(ops[..n], outs[..n], b) +
               (if one && ops[n].solo.Add? && outs[n].code == 0 then ops[n].solo.data else [])
            && Taken(ops, outs, b) == Taken(ops[..n], outs[..n], b) +
               (if one && ops[n].solo.Remove? then outs[n].bytes else [])
  {}

  lemma CellAfter(cells: seq<Cell>, op: Op, spill: nat, b: nat)
    requires Fits(op, |cells|) && b < |cells| && Streams(op, b)
    ensures var m := Meaning(cells, op, spill);
            if op.One? && op.b == b then (m.0[b], m.1) == SoloMeaning(cells[b], op.solo, spill) else m.0[b] == cells[b]
  {
    hide SoloMeaning, MoveMeaning;
  }

  /** In every run a buffer that is written at its end and read from its start hands out
      exactly what was in it and was written, in order; nothing is lost, doubled or moved. */
  lemma {:induction false} StreamKept(cells: seq<Cell>, ops: seq<Op>, spills: seq<nat>, b: nat)
    requires |spills| == |ops| && (forall op | op in ops :: Fits(op, |cells|)) && b < |cells|
    requires forall op | op in ops :: Streams(op, b)
    ensures var r := RunMeaning(cells, ops, spills);
            && |r.1| == |ops|
            && cells[b].bytes + Written(ops, r.1, b) == Taken(ops, r.1, b) + r.0[b].bytes
    decreases |ops|
  {
    OneOutEach(cells, ops, spills);
    if ops == [] {
      assert cells[b].bytes + [] == [] + cells[b].bytes;
    } else {
      hide SoloMeaning, Meaning, RunMeaning, Written, Taken, Streams;
      var n := |ops| - 1;
      StreamKept(cells, ops[..n], spills[..n], b);
      RunLast(cells, ops, spills);
      var before, r, op := RunMeaning(cells, ops[..n], spills[..n]), RunMeaning(cells, ops, spills), ops[n];
      assert op in ops;
      assert r.1[..n] == before.1;
      LastWritten(ops, r.1, b);
      CellAfter(before.0, op, spills[n], b);
      var w, t, out := Written(ops[..n], before.1, b), Taken(ops[..n], before.1, b), r.1[n];
      if op.One? && op.b == b {
        NotFront(op, b);
        StreamStep(before.0[b], op.solo, spills[n]);
        Carried(cells[b].bytes, w, t, before.0[b].bytes,
                if op.solo.Add? && out.code == 0 then op.solo.data else [],
                if op.solo.Remove? then out.bytes else [], r.0[b].bytes);
      } else {
        assert w + [] == w && t + [] == t;
      }
    }
  }

  lemma NotFront(op: Op, b: nat)
    requires Streams(op, b) && op.One? && op.b == b
    ensures !(op.solo.Prepend? || op.solo.Drain? || op.solo.ReadLn?)
  {}

  lemma Carried(s: seq<Byte>, w: seq<Byte>, t: seq<Byte>, m: seq<Byte>, a: seq<Byte>, out: seq<Byte>, e: seq<Byte>)
    requires s + w == t + m && m + a == out + e
    ensures s + (w + a) == (t + out) + e
  {
    assert s + (w + a) == (s + w) + a == t + (m + a);
    assert t + (out + e) == (t + out) + e;
  }

  /** moved went from the start of src to the end, or the start, of dst. */
  ghost predicate Carries(dst: seq<Byte>, src: seq<Byte>, front: bool, moved: seq<Byte>,
                          dst': seq<Byte>, src': seq<Byte>)
  {
    src == moved + src' && dst' == if front then moved + dst else dst + moved
  }

  lemma CarriesNone(dst: seq<Byte>, src: seq<Byte>, front: bool)
    ensures Carries(dst, src, front, [], dst, src)
  {
    assert [] + src == src && [] + dst == dst && dst + [] == dst;
  }

  lemma CarriesSome(dst: seq<Byte>, src: seq<Byte>, front: bool, n: nat)
    requires n <= |src|
    ensures Carries(dst, src, front, src[..n], if front then src[..n] + dst else dst + src[..n], src[n..])
  {
    assert src == src[..n] + src[n..];
  }

  /** A move takes bytes off the start of src and puts them, in order, at the end or the start
      of dst; it takes all, or as many as asked for, unless an end that it uses is frozen. */
  lemma MoveKeeps(dst: Cell, src: Cell, move: Move) returns (moved: seq<Byte>)
    ensures var m := MoveMeaning(dst, src, move);
            var stopped := src.frozenStart || (if move.PrependBuffer? then dst.frozenStart else dst.frozenEnd);
            && Carries(dst.bytes, src.bytes, move.PrependBuffer?, moved, m.0.bytes, m.1.bytes)
            && |moved| == (if stopped then 0
                           else if move.RemoveBuffer? && move.n < |src.bytes| then move.n else |src.bytes|)
            && (move.RemoveBuffer? && !stopped ==> m.2.code == |moved|)
  {
    hide Invoke, Cut, Carries;
    var n := if move.RemoveBuffer? && move.n < |src.bytes| then move.n else |src.bytes|;
    var stopped := src.frozenStart || (if move.PrependBuffer? then dst.frozenStart else dst.frozenEnd);
    if stopped || n == 0 {
      moved := [];
      CarriesNone(dst.bytes, src.bytes, move.PrependBuffer?);
    } else {
      moved := src.bytes[..n];
      CarriesSome(dst.bytes, src.bytes, move.PrependBuffer?, n);
      assert src.bytes[..|src.bytes|] == src.bytes && src.bytes[|src.bytes|..] == [];
    }
  }

  // ------------------------------------------------------------------
  // The room in front
  // ------------------------------------------------------------------

  /** What an operation on one buffer does to its front.  Of a pullup that moves data nothing
      is said. */
  ghost predicate SoloHead(h: Head, c: Cell, op: Solo, h': Head) {
    match op
    case Add(data) => if c.frozenEnd then h' == h else h.Added(|data|, h')
    case Prepend(data) => if c.frozenStart then h' == h else h.Prepended(|data|, h')
    case Drain(n) => if c.bytes != [] && c.frozenStart then h' == h else h.Drained(n, |c.bytes|, h')
    case Remove(n) =>
      if n == 0 || c.bytes == [] || c.frozenStart then h' == h else h.Drained(n, |c.bytes|, h')
    case PullUp(size) =>
      size == 0 || size > |c.bytes| || (h.Head? && 0 < size <= h.off) ==> h' == h
    case ReadLn(style) =>
      var n := EndFrom(c.bytes, style, 0);
      if c.frozenStart || n < 0 then h' == h
      else DrainedTwice(h, n, EolLength(c.bytes, style, n), |c.bytes|, h')
    case _ => h' == h
  }

  /** What a move does to the fronts.  Of one that leaves bytes in src nothing is said. */
  ghost predicate MoveHead(d: Head, s: Head, dst: Cell, src: Cell, move: Move, d': Head, s': Head) {
    var all := src.bytes != [] && (move.RemoveBuffer? ==> move.n >= |src.bytes|);
    var frozen := src.frozenStart || if move.PrependBuffer? then dst.frozenStart else dst.frozenEnd;
    if src.bytes == [] || frozen || (move.RemoveBuffer? && move.n == 0) then d' == d && s' == s
    else all ==> s' == Bare && Joined(d, s, |dst.bytes|, move.PrependBuffer?, d')
  }

  /** What an operation does to the fronts of all buffers. */
  ghost predicate HeadStep(hs: seq<Head>, cells: seq<Cell>, op: Op, hs': seq<Head>)
    requires |hs| == |cells| && Fits(op, |cells|)
  {
    && |hs'| == |hs|
    && match op
       case One(b, solo) => hs' == hs[b := hs'[b]] && SoloHead(hs[b], cells[b], solo, hs'[b])
       case Two(dst, src, move) =>
         if dst == src then hs' == hs
         else hs' == hs[dst := hs'[dst]][src := hs'[src]]
              && MoveHead(hs[dst], hs[src], cells[dst], cells[src], move, hs'[dst], hs'[src])
  }

  /** How many bytes the operation puts into a new chain without counting them. */
  function SpillIn(hs: seq<Head>, op: Op): (r: nat)
    requires Fits(op, |hs|)
    ensures r > 0 ==> op.One? && op.solo.Prepend?
  {
    if op.One? && op.solo.Prepend? then hs[op.b].Spill(|op.solo.data|) else 0
  }

  /** Fronts before every operation of a run and after the last. */
  ghost predicate Fronts(cells: seq<Cell>, ops: seq<Op>, heads: seq<seq<Head>>) {
    && |heads| == |ops| + 1
    && (forall i | 0 <= i < |heads| :: |heads[i]| == |cells|)
    && (forall op | op in ops :: Fits(op, |cells|))
  }

  /** What did not fit in front, operation by operation. */
  ghost function Spills(cells: seq<Cell>, ops: seq<Op>, heads: seq<seq<Head>>): (r: seq<nat>)
    requires Fronts(cells, ops, heads)
    ensures |r| == |ops| && forall i | 0 <= i < |ops| :: r[i] == SpillIn(heads[i], ops[i])
  {
    seq(|ops|, i requires 0 <= i < |ops| => SpillIn(heads[i], ops[i]))
  }

  /** The fronts follow each other as the operations of the run on cells have it. */
  ghost predicate Follow(cells: seq<Cell>, ops: seq<Op>, heads: seq<seq<Head>>)
    requires Fronts(cells, ops, heads)
    decreases |ops|
  {
    ops == [] ||
    var n := |ops| - 1;
    && Follow(cells, ops[..n], heads[..n + 1])
    && HeadStep(heads[n], RunMeaning(cells, ops[..n], Spills(cells, ops[..n], heads[..n + 1])).0, ops[n], heads[n + 1])
  }

  /** The cells before operation i of a run. */
  ghost function CellsAt(cells: seq<Cell>, ops: seq<Op>, heads: seq<seq<Head>>, i: nat): (r: seq<Cell>)
    requires Fronts(cells, ops, heads) && i <= |ops|
    ensures |r| == |cells|
  {
    RunMeaning(cells, ops[..i], Spills(cells, ops, heads)[..i]).0
  }

  /** Each operation of the run takes the fronts before it to those after it. */
  lemma {:induction false} FollowAt(cells: seq<Cell>, ops: seq<Op>, heads: seq<seq<Head>>, i: nat)
    requires Fronts(cells, ops, heads) && Follow(cells, ops, heads) && i < |ops|
    ensures Fits(ops[i], |cells|) && HeadStep(heads[i], CellsAt(cells, ops, heads, i), ops[i], heads[i + 1])
    decreases |ops|
  {
    hide HeadStep, RunMeaning, SpillIn;
    var n := |ops| - 1;
    assert Spills(cells, ops[..n], heads[..n + 1]) == Spills(cells, ops, heads)[..n];
    assert ops[n] in ops;
    if i < n {
      FollowAt(cells, ops[..n], heads[..n + 1], i);
      assert ops[..n][..i] == ops[..i] && Spills(cells, ops, heads)[..n][..i] == Spills(cells, ops, heads)[..i];
    }
  }

  /** In every run, bytes drained off the first chain can be prepended again without a spill. */
  lemma DrainedFits(cells: seq<Cell>, ops: seq<Op>, heads: seq<seq<Head>>, i: nat, b: nat, n: nat, data: seq<Byte>)
    requires Fronts(cells, ops, heads) && Follow(cells, ops, heads) && i + 1 < |ops|
    requires ops[i] == One(b, Drain(n)) && ops[i + 1] == One(b, Prepend(data)) && |data| <= n && b < |cells|
    requires var c := CellsAt(cells, ops, heads, i)[b]; !c.frozenStart && n < |c.bytes|
    requires heads[i][b].Head? && n < heads[i][b].off
    ensures Spills(cells, ops, heads)[i + 1] == 0
  {
    hide RunMeaning;
    FollowAt(cells, ops, heads, i);
  }

  // ------------------------------------------------------------------
  // When the callbacks are told the truth
  // ------------------------------------------------------------------

  predicate CellsExact(cells: seq<Cell>) {
    forall i | 0 <= i < |cells| :: Exact(cells[i].acct)
  }

  /** The operation is a prepend whose spill does harm. */
  predicate Slips(cells: seq<Cell>, op: Op, spill: nat)
    requires Fits(op, |cells|)
  {
    && op.One? && op.solo.Prepend? && !cells[op.b].frozenStart
    && !Harmless(cells[op.b].acct, |op.solo.data|, Min(spill, |op.solo.data|))
  }

  lemma CutExact(a: Account, n: nat)
    requires Exact(a)
    ensures Exact(Cut(a, n)) && Exact(Invoke(a.Added(n)))
  {
    hide Invoke;
    ExactKeeps(a.Removed(if n <= a.total then n else a.total), false);
    ExactKeeps(a.Added(n), false);
  }

  lemma SoloExact(c: Cell, op: Solo, spill: nat)
    requires Exact(c.acct)
    ensures Exact(SoloMeaning(c, op, spill).0.acct) <==>
            !(op.Prepend? && !c.frozenStart && !Harmless(c.acct, |op.data|, Min(spill, |op.data|)))
  {
    hide Exact, Invoke, Harmless, Cut, Accounting.RunCallbacks;
    var a := c.acct;
    match op
    case Add(data) => CutExact(a, |data|);
    case Prepend(data) => PrependExact(a, |data|, Min(spill, |data|));
    case Drain(n) => CutExact(a, n);
    case Remove(n) => CutExact(a, n);
    case CopyOut(_) =>
    case PullUp(_) =>
    case ReadLn(style) =>
      var n := EndFrom(c.bytes, style, 0);
      if n >= 0 {
        CutExact(a, n);
        CutExact(if n > 0 then Cut(a, n) else a, EolLength(c.bytes, style, n));
      }
    case Freeze(_, _) =>
    case SetCallbacks(cbs) => SettingsKeep(a, cbs, a.deferredCbs, a.queued);
    case Defer => SettingsKeep(a, a.callbacks, true, false);
    case RunDeferred =>
      SettingsKeep(a, a.callbacks, a.deferredCbs, false);
      ExactKeeps(a.(queued := false), true);
  }

  lemma MoveExact(dst: Cell, src: Cell, move: Move)
    requires Exact(dst.acct) && Exact(src.acct)
    ensures var m := MoveMeaning(dst, src, move); Exact(m.0.acct) && Exact(m.1.acct)
  {
    hide Exact, Invoke, Cut;
    var n := if move.RemoveBuffer? then |TakeUpTo(src.bytes, move.n)| else |src.bytes|;
    CutExact(dst.acct, n);
    CutExact(src.acct, n);
  }

  /** Accounts that are exact stay so in a step if and only if it is no prepend whose spill
      does harm. */
  lemma MeaningExact(cells: seq<Cell>, op: Op, spill: nat)
    requires CellsExact(cells) && Fits(op, |cells|)
    ensures CellsExact(Meaning(cells, op, spill).0) <==> !Slips(cells, op, spill)
  {
    hide Exact, SoloMeaning, MoveMeaning, Harmless;
    match op
    case One(b, solo) =>
      SoloExact(cells[b], solo, spill);
      var r := Meaning(cells, op, spill).0;
      assert r[b] == SoloMeaning(cells[b], solo, spill).0;
    case Two(dst, src, move) =>
      MoveExact(cells[dst], cells[src], move);
  }

  /** In every run without such a step every notice told the true length at the reset before
      it. */
  lemma {:induction false} RunExact(cells: seq<Cell>, ops: seq<Op>, spills: seq<nat>)
    requires |spills| == |ops| && (forall op | op in ops :: Fits(op, |cells|)) && CellsExact(cells)
    requires forall i | 0 <= i < |ops| :: !Slips(RunMeaning(cells, ops[..i], spills[..i]).0, ops[i], spills[i])
    ensures CellsExact(RunMeaning(cells, ops, spills).0)
    decreases |ops|
  {
    hide CellsExact, Meaning, Slips;
    if ops != [] {
      var n := |ops| - 1;
      forall i | 0 <= i < n
        ensures !Slips(RunMeaning(cells, ops[..n][..i], spills[..n][..i]).0, ops[..n][i], spills[..n][i])
      {
        assert ops[..n][..i] == ops[..i] && spills[..n][..i] == spills[..i];
      }
      RunExact(cells, ops[..n], spills[..n]);
      MeaningExact(RunMeaning(cells, ops[..n], spills[..n]).0, ops[n], spills[n]);
    }
  }

  // ------------------------------------------------------------------
  // One buffer
  // ------------------------------------------------------------------

  ghost function CellOf(b: Buffer): (r: Cell)
    reads b
  {
    Cell(b.Contents(), b.freezeStart, b.freezeEnd, b.Acct())
  }

  ghost function SpillOf(buf: Buffer, op: Solo): (r: nat)
    reads buf, buf.first
    ensures r > 0 ==> op.Prepend?
  {
    if op.Prepend? then buf.Spill(|op.data|) else 0
  }

  method PlayReadLn(buf: Buffer, style: EolStyle) returns (out: Out)
    requires buf.Valid()
    modifies buf, buf.list.chains
    ensures buf.Valid() && (CellOf(buf), out) == SoloMeaning(old(CellOf(buf)), ReadLn(style), 0)
    ensures SoloHead(old(buf.Ahead()), old(CellOf(buf)), ReadLn(style), buf.Ahead())
    ensures forall c | c in buf.list.chains :: c in old(buf.list.chains)
  {
    hide Join, Buffer.Valid, AfterLine, FirstEnd, EndsAt, EolLength;
    var line := EvBufferLines.ReadLn(buf, style);
    if !buf.freezeStart {
      FirstEndUnique(old(buf.Contents()), style, 0, if line.None? then -1 else |line.value|);
    }
    out := if line.None? then Out(-1, []) else Out(|line.value|, line.value);
  }

  method PlayWrite(buf: Buffer, op: Solo) returns (out: Out)
    requires buf.Valid() && (op.Add? || op.Prepend?)
    modifies buf, buf.list.chains
    ensures buf.Valid() && (CellOf(buf), out) == SoloMeaning(old(CellOf(buf)), op, old(SpillOf(buf, op)))
    ensures SoloHead(old(buf.Ahead()), old(CellOf(buf)), op, buf.Ahead())
    ensures forall c | c in buf.list.chains :: c in old(buf.list.chains) || fresh(c)
  {
    hide Join, Buffer.Valid, Invoke, EolLength, EndFrom;
    var ok: bool;
    if op.Add? {
      ok := EvBufferOps.Add(buf, op.data);
    } else {
      ok := EvBufferOps.Prepend(buf, op.data);
    }
    out := Out(if ok then 0 else -1, []);
  }

  method PlayTake(buf: Buffer, op: Solo) returns (out: Out)
    requires buf.Valid() && (op.Drain? || op.Remove?)
    modifies buf, buf.list.chains
    ensures buf.Valid() && (CellOf(buf), out) == SoloMeaning(old(CellOf(buf)), op, 0)
    ensures SoloHead(old(buf.Ahead()), old(CellOf(buf)), op, buf.Ahead())
    ensures forall c | c in buf.list.chains :: c in old(buf.list.chains)
  {
    hide Join, Buffer.Valid, Invoke, Cut, EolLength, EndFrom, Min, TakeUpTo, DropUpTo;
    buf.ValidLength();
    Amounts(buf.Contents(), op.n);
    CutIs(buf.Acct(), op.n);
    if op.Drain? {
      var ok := EvBufferOps.Drain(buf, op.n);
      out := Out(if ok then 0 else -1, []);
    } else {
      var m, data := EvBufferOps.Remove(buf, op.n);
      out := Out(m, data);
    }
  }

  method PlayLook(buf: Buffer, op: Solo) returns (out: Out)
    requires buf.Valid() && (op.CopyOut? || op.PullUp?)
    modifies buf, buf.list.chains
    ensures buf.Valid() && (CellOf(buf), out) == SoloMeaning(old(CellOf(buf)), op, 0)
    ensures SoloHead(old(buf.Ahead()), old(CellOf(buf)), op, buf.Ahead())
    ensures forall c | c in buf.list.chains :: c in old(buf.list.chains) || fresh(c)
  {
    hide Join, Chain.Front, Buffer.Valid, EolLength, EndFrom, Min, TakeUpTo;
    Amounts(buf.Contents(), if op.CopyOut? then op.n else 0);
    if op.CopyOut? {
      var m, data := EvBufferOps.CopyOut(buf, op.n);
      out := Out(m, data);
    } else {
      var p, want := EvBufferPullup.PullUp(buf, op.size);
      out := if p == null then Out(-1, []) else Out(want, p.Front(want));
    }
  }

  method PlaySetting(buf: Buffer, op: Solo)
    requires buf.Valid() && (op.Freeze? || op.SetCallbacks? || op.Defer?)
    modifies buf`freezeStart, buf`freezeEnd, buf`callbacks, buf`deferredCbs, buf`queued
    ensures buf.Valid() && (CellOf(buf), Out(0, [])) == SoloMeaning(old(CellOf(buf)), op, 0)
  {
    hide Join, Chain.Data, Buffer.Shape, Books, Invoke;
    ghost var a := buf.Acct();
    match op {
      case Freeze(start, on) =>
        if start {
          buf.freezeStart := on;
        } else {
          buf.freezeEnd := on;
        }
      case SetCallbacks(cbs) =>
        SettingsKeep(a, cbs, a.deferredCbs, a.queued);
        buf.callbacks := cbs;
      case Defer =>
        SettingsKeep(a, a.callbacks, true, false);
        buf.deferredCbs := true;
        buf.queued := false;
    }
  }

  /** Settings, and the event loop running the deferred callbacks. */
  method Tune(buf: Buffer, op: Solo) returns (out: Out)
    requires buf.Valid() && (op.Freeze? || op.SetCallbacks? || op.Defer? || op.RunDeferred?)
    modifies buf
    ensures buf.Valid() && (CellOf(buf), out) == SoloMeaning(old(CellOf(buf)), op, 0)
    ensures SoloHead(old(buf.Ahead()), old(CellOf(buf)), op, buf.Ahead())
    ensures buf.list == old(buf.list) && buf.first == old(buf.first)
  {
    hide Join, Chain.Data, Buffer.Shape, Buffer.Ahead, Books, Accounting.RunCallbacks;
    if op.RunDeferred? {
      buf.RunDeferred();
    } else {
      PlaySetting(buf, op);
    }
    out := Out(0, []);
  }

  /** An operation on one buffer. */
  method Play(buf: Buffer, op: Solo) returns (out: Out)
    requires buf.Valid()
    modifies buf, buf.list.chains
    ensures buf.Valid() && (CellOf(buf), out) == SoloMeaning(old(CellOf(buf)), op, old(SpillOf(buf, op)))
    ensures SoloHead(old(buf.Ahead()), old(CellOf(buf)), op, buf.Ahead())
    ensures forall c | c in buf.list.chains :: c in old(buf.list.chains) || fresh(c)
  {
    hide Join, Buffer.Valid, SoloMeaning, SoloHead;
    if op.Add? || op.Prepend? {
      out := PlayWrite(buf, op);
    } else if op.ReadLn? {
      out := PlayReadLn(buf, op.style);
    } else if op.Drain? || op.Remove? {
      out := PlayTake(buf, op);
    } else if op.CopyOut? || op.PullUp? {
      out := PlayLook(buf, op);
    } else {
      out := Tune(buf, op);
    }
  }

  // ------------------------------------------------------------------
  // Two buffers
  // ------------------------------------------------------------------

  method PlayWhole(dst: Buffer, src: Buffer, move: Move) returns (out: Out)
    requires dst.Valid() && src.Valid() && dst != src && !move.RemoveBuffer?
    modifies dst, dst.list.chains, src, src.list.chains
    ensures dst.Valid() && src.Valid()
    ensures (CellOf(dst), CellOf(src), out) == MoveMeaning(old(CellOf(dst)), old(CellOf(src)), move)
    ensures MoveHead(old(dst.Ahead()), old(src.Ahead()), old(CellOf(dst)), old(CellOf(src)), move,
                     dst.Ahead(), src.Ahead())
    ensures forall c | c in dst.list.chains :: c in old(dst.list.chains) || c in old(src.list.chains) || fresh(c)
    ensures forall c | c in src.list.chains :: c in old(dst.list.chains) || c in old(src.list.chains) || fresh(c)
  {
    hide Join, Buffer.Valid, Invoke;
    src.ValidLength();
    dst.ValidLength();
    ghost var e := dst.Contents();
    assert e + [] == e && [] + e == e;
    var ok: bool;
    if move.AddBuffer? {
      ok := EvBufferMove.AddBuffer(dst, src);
    } else {
      ok := EvBufferMove.PrependBuffer(dst, src);
    }
    out := Out(if ok then 0 else -1, []);
  }

  method PlayPart(dst: Buffer, src: Buffer, move: Move) returns (out: Out)
    requires dst.Valid() && src.Valid() && dst != src && move.RemoveBuffer?
    modifies dst, dst.list.chains, src, src.list.chains
    ensures dst.Valid() && src.Valid()
    ensures (CellOf(dst), CellOf(src), out) == MoveMeaning(old(CellOf(dst)), old(CellOf(src)), move)
    ensures MoveHead(old(dst.Ahead()), old(src.Ahead()), old(CellOf(dst)), old(CellOf(src)), move,
                     dst.Ahead(), src.Ahead())
    ensures forall c | c in dst.list.chains :: c in old(dst.list.chains) || c in old(src.list.chains) || fresh(c)
    ensures forall c | c in src.list.chains :: c in old(dst.list.chains) || c in old(src.list.chains) || fresh(c)
  {
    hide Join, Buffer.Valid, Buffer.Ahead, Joined, Invoke, Cut, TakeUpTo, DropUpTo;
    src.ValidLength();
    dst.ValidLength();
    Amounts(src.Contents(), move.n);
    CutIs(src.Acct(), move.n);
    var r := EvBufferMove.RemoveBuffer(src, dst, move.n);
    out := Out(r, []);
  }

  /** A move between two buffers. */
  method PlayMove(dst: Buffer, src: Buffer, move: Move) returns (out: Out)
    requires dst.Valid() && src.Valid() && dst != src
    modifies dst, dst.list.chains, src, src.list.chains
    ensures dst.Valid() && src.Valid()
    ensures (CellOf(dst), CellOf(src), out) == MoveMeaning(old(CellOf(dst)), old(CellOf(src)), move)
    ensures MoveHead(old(dst.Ahead()), old(src.Ahead()), old(CellOf(dst)), old(CellOf(src)), move,
                     dst.Ahead(), src.Ahead())
    ensures forall c | c in dst.list.chains :: c in old(dst.list.chains) || c in old(src.list.chains) || fresh(c)
    ensures forall c | c in src.list.chains :: c in old(dst.list.chains) || c in old(src.list.chains) || fresh(c)
  {
    hide Join, Buffer.Valid, MoveMeaning, MoveHead;
    if move.RemoveBuffer? {
      out := PlayPart(dst, src, move);
    } else {
      out := PlayWhole(dst, src, move);
    }
  }

  // ------------------------------------------------------------------
  // Any number of buffers
  // ------------------------------------------------------------------

  ghost function AllChains(bufs: seq<Buffer>): (r: set<Chain>)
    reads bufs
  {
    set b, c | b in bufs && c in b.list.chains :: c
  }

  ghost predicate Distinct(bufs: seq<Buffer>) {
    forall i, j | 0 <= i < j < |bufs| :: bufs[i] != bufs[j]
  }

  lemma InAll(bufs: seq<Buffer>, b: Buffer)
    requires b in bufs
    ensures forall i | 0 <= i < |b.list.chains| :: b.list.chains[i] in AllChains(bufs)
  {
    forall i | 0 <= i < |b.list.chains|
      ensures b.list.chains[i] in AllChains(bufs)
    {
      assert b.list.chains[i] in b.list.chains;
    }
  }

  /** Buffers that are all valid. */
  ghost predicate World(bufs: seq<Buffer>)
    reads bufs, AllChains(bufs)
  {
    Distinct(bufs) && forall b | b in bufs :: InAll(bufs, b); b.Valid()
  }

  ghost function Cells(bufs: seq<Buffer>): (r: seq<Cell>)
    reads bufs
    ensures |r| == |bufs| && forall i | 0 <= i < |bufs| :: r[i] == CellOf(bufs[i])
  {
    seq(|bufs|, i requires 0 <= i < |bufs| reads bufs => CellOf(bufs[i]))
  }

  /** No chain is in two buffers. */
  lemma AllApart(bufs: seq<Buffer>, a: Buffer)
    requires World(bufs) && a in bufs
    ensures forall b | b in bufs && b != a :: forall c | c in b.list.chains :: c !in a.list.chains
  {
    hide Join, Chain.Data, Buffer.Shape, Books;
    forall b | b in bufs && b != a
      ensures forall c | c in b.list.chains :: c !in a.list.chains
    {
      Apart(b, a);
    }
  }

  ghost function Heads(bufs: seq<Buffer>): (r: seq<Head>)
    reads bufs, set b | b in bufs && b.first != null :: b.first
    ensures |r| == |bufs| && forall i | 0 <= i < |bufs| :: r[i] == bufs[i].Ahead()
  {
    seq(|bufs|, i requires 0 <= i < |bufs|
                  reads bufs, set b | b in bufs && b.first != null :: b.first => bufs[i].Ahead())
  }

  method StepOne(bufs: seq<Buffer>, b: nat, solo: Solo) returns (out: Out)
    requires World(bufs) && b < |bufs|
    modifies bufs[b], bufs[b].list.chains
    ensures World(bufs)
    ensures (Cells(bufs), out) == Meaning(old(Cells(bufs)), One(b, solo), old(SpillOf(bufs[b], solo)))
    ensures HeadStep(old(Heads(bufs)), old(Cells(bufs)), One(b, solo), Heads(bufs))
    ensures forall c | c in AllChains(bufs) :: c in old(AllChains(bufs)) || fresh(c)
  {
    hide Join, Chain.Data, Buffer.Valid, Buffer.Ahead, SoloMeaning, SoloHead, SpillOf;
    var buf := bufs[b];
    AllApart(bufs, buf);
    out := Play(buf, solo);
    forall x | x in bufs && x != buf
      ensures x.Valid() && x.Ahead() == old(x.Ahead())
    {
      x.ValidKept();
    }
    assert Cells(bufs) == old(Cells(bufs))[b := CellOf(buf)];
    assert Heads(bufs) == old(Heads(bufs))[b := buf.Ahead()];
  }

  lemma HeadsKept(hs: seq<Head>, cells: seq<Cell>, d: nat, move: Move)
    requires |hs| == |cells| && d < |hs|
    ensures HeadStep(hs, cells, Two(d, d, move), hs)
  {}

  lemma HeadsMoved(hs: seq<Head>, cells: seq<Cell>, d: nat, s: nat, move: Move, x: Head, y: Head)
    requires |hs| == |cells| && d < |hs| && s < |hs| && d != s
    requires MoveHead(hs[d], hs[s], cells[d], cells[s], move, x, y)
    ensures HeadStep(hs, cells, Two(d, s, move), hs[d := x][s := y])
  {
    hide MoveHead;
  }

  /** A move between two of the buffers leaves the others as they are. */
  method MoveAmong(bufs: seq<Buffer>, dst: Buffer, src: Buffer, move: Move) returns (out: Out)
    requires World(bufs) && dst in bufs && src in bufs && dst != src && dst.Valid() && src.Valid()
    modifies dst, dst.list.chains, src, src.list.chains
    ensures forall x | x in bufs :: x.Valid() && (x != dst && x != src ==> x.Ahead() == old(x.Ahead()))
    ensures (CellOf(dst), CellOf(src), out) == MoveMeaning(old(CellOf(dst)), old(CellOf(src)), move)
    ensures MoveHead(old(dst.Ahead()), old(src.Ahead()), old(CellOf(dst)), old(CellOf(src)), move,
                     dst.Ahead(), src.Ahead())
    ensures forall c | c in AllChains(bufs) :: c in old(AllChains(bufs)) || fresh(c)
  {
    hide Join, Chain.Data, Buffer.Valid, Buffer.Ahead, MoveMeaning, MoveHead;
    AllApart(bufs, dst);
    AllApart(bufs, src);
    out := PlayMove(dst, src, move);
    forall x | x in bufs && x != dst && x != src
      ensures x.Valid() && x.Ahead() == old(x.Ahead())
    {
      x.ValidKept();
    }
  }

  /** A move from a buffer to itself succeeds and does nothing. */
  method MoveToSelf(bufs: seq<Buffer>, buf: Buffer, move: Move) returns (out: Out)
    requires World(bufs) && buf in bufs && buf.Valid()
    modifies buf, buf.list.chains
    ensures forall x | x in bufs :: x.Valid() && x.Ahead() == old(x.Ahead())
    ensures CellOf(buf) == old(CellOf(buf)) && out == Out(0, [])
    ensures forall c | c in AllChains(bufs) :: c in old(AllChains(bufs)) || fresh(c)
  {
    hide Join, Chain.Data, Buffer.Valid, Buffer.Ahead, Invoke, Joined;
    AllApart(bufs, buf);
    out := PlaySelf(buf, move);
    forall x | x in bufs && x != buf
      ensures x.Valid() && x.Ahead() == old(x.Ahead())
    {
      x.ValidKept();
    }
  }

  method PlaySelf(buf: Buffer, move: Move) returns (out: Out)
    requires buf.Valid()
    modifies buf, buf.list.chains
    ensures buf.Valid() && CellOf(buf) == old(CellOf(buf)) && buf.Ahead() == old(buf.Ahead()) && out == Out(0, [])
    ensures forall c | c in buf.list.chains :: c in old(buf.list.chains) || fresh(c)
  {
    hide Join, Chain.Data, Buffer.Valid, Buffer.Ahead, Invoke, Joined;
    var ok: bool;
    match move {
      case AddBuffer =>
        ok := EvBufferMove.AddBuffer(buf, buf);
        out := Out(if ok then 0 else -1, []);
      case PrependBuffer =>
        ok := EvBufferMove.PrependBuffer(buf, buf);
        out := Out(if ok then 0 else -1, []);
      case RemoveBuffer(n) =>
        var r := EvBufferMove.RemoveBuffer(buf, buf, n);
        out := Out(r, []);
    }
  }

  method StepTwo(bufs: seq<Buffer>, d: nat, s: nat, move: Move) returns (out: Out)
    requires World(bufs) && d < |bufs| && s < |bufs|
    modifies bufs[d], bufs[d].list.chains, bufs[s], bufs[s].list.chains
    ensures World(bufs) && (Cells(bufs), out) == Meaning(old(Cells(bufs)), Two(d, s, move), 0)
    ensures HeadStep(old(Heads(bufs)), old(Cells(bufs)), Two(d, s, move), Heads(bufs))
    ensures forall c | c in AllChains(bufs) :: c in old(AllChains(bufs)) || fresh(c)
  {
    hide Join, Chain.Data, Buffer.Valid, Buffer.Ahead, MoveMeaning, MoveHead, Cells, Heads, HeadStep, AllChains;
    var dst, src := bufs[d], bufs[s];
    if d == s {
      out := MoveToSelf(bufs, dst, move);
      assert Cells(bufs) == old(Cells(bufs)) && Heads(bufs) == old(Heads(bufs));
      HeadsKept(Heads(bufs), Cells(bufs), d, move);
      return;
    }
    out := MoveAmong(bufs, dst, src, move);
    assert Cells(bufs) == old(Cells(bufs))[d := CellOf(dst)][s := CellOf(src)];
    assert Heads(bufs) == old(Heads(bufs))[d := dst.Ahead()][s := src.Ahead()];
    HeadsMoved(old(Heads(bufs)), old(Cells(bufs)), d, s, move, dst.Ahead(), src.Ahead());
  }

  method Step(bufs: seq<Buffer>, op: Op) returns (out: Out)
    requires World(bufs) && Fits(op, |bufs|)
    modifies bufs, AllChains(bufs)
    ensures World(bufs)
    ensures (Cells(bufs), out) == Meaning(old(Cells(bufs)), op, SpillIn(old(Heads(bufs)), op))
    ensures HeadStep(old(Heads(bufs)), old(Cells(bufs)), op, Heads(bufs))
    ensures forall c | c in AllChains(bufs) :: c in old(AllChains(bufs)) || fresh(c)
  {
    hide Meaning, World, Cells, HeadStep;
    match op {
      case One(b, solo) =>
        InAll(bufs, bufs[b]);
        out := StepOne(bufs, b, solo);
      case Two(dst, src, move) =>
        InAll(bufs, bufs[dst]);
        InAll(bufs, bufs[src]);
        out := StepTwo(bufs, dst, src, move);
    }
  }

  /** Every run of operations on any buffers does to the contents what it does to plain byte
      sequences, gives the same results, and keeps every buffer valid.  Its accounts, with
      every notice sent, are those of the same run, given what of each prepend did not fit in
      front; the fronts of the buffers, from the first to the last, follow each other as the
      operations have it.  If every prepend fitted, every notice told the true length at the
      reset before it. */
  method Run(bufs: seq<Buffer>, ops: seq<Op>) returns (outs: seq<Out>, ghost heads: seq<seq<Head>>)
    requires World(bufs) && forall op | op in ops :: Fits(op, |bufs|)
    modifies bufs, AllChains(bufs)
    ensures World(bufs)
    ensures Fronts(old(Cells(bufs)), ops, heads) && Follow(old(Cells(bufs)), ops, heads)
    ensures heads[0] == old(Heads(bufs)) && heads[|ops|] == Heads(bufs)
    ensures (Cells(bufs), outs) == RunMeaning(old(Cells(bufs)), ops, Spills(old(Cells(bufs)), ops, heads))
    ensures CellsExact(old(Cells(bufs))) && (forall i | 0 <= i < |ops| :: SpillIn(heads[i], ops[i]) == 0) ==>
              CellsExact(Cells(bufs))
  {
    hide Meaning, World, RunMeaning, CellsExact, Cells, Heads, HeadStep, Follow, SpillIn, AllChains;
    ghost var cells := Cells(bufs);
    outs, heads := [], [Heads(bufs)];
    NothingRun(cells, ops[..0], heads);
    for n := 0 to |ops|
      invariant World(bufs) && Fronts(cells, ops[..n], heads) && Follow(cells, ops[..n], heads)
      invariant heads[0] == old(Heads(bufs)) && heads[n] == Heads(bufs)
      invariant (Cells(bufs), outs) == RunMeaning(cells, ops[..n], Spills(cells, ops[..n], heads))
      invariant forall c | c in AllChains(bufs) :: c in old(AllChains(bufs)) || fresh(c)
    {
      assert ops[n] in ops;
      var out := Step(bufs, ops[n]);
      RunNext(cells, ops, n, heads, Heads(bufs));
      outs, heads := outs + [out], heads + [Heads(bufs)];
    }
    assert ops[..|ops|] == ops;
    NoSpillExact(cells, ops, Spills(cells, ops, heads));
  }

  lemma NothingRun(cells: seq<Cell>, ops: seq<Op>, heads: seq<seq<Head>>)
    requires ops == [] && |heads| == 1 && |heads[0]| == |cells|
    ensures Fronts(cells, ops, heads) && Follow(cells, ops, heads)
    ensures RunMeaning(cells, ops, Spills(cells, ops, heads)) == (cells, [])
  {}

  lemma RunNext(cells: seq<Cell>, ops: seq<Op>, n: nat, heads: seq<seq<Head>>, next: seq<Head>)
    requires n < |ops| && Fits(ops[n], |cells|) && |next| == |cells|
    requires Fronts(cells, ops[..n], heads) && Follow(cells, ops[..n], heads)
    requires var before := RunMeaning(cells, ops[..n], Spills(cells, ops[..n], heads)).0;
             HeadStep(heads[n], before, ops[n], next)
    ensures Fronts(cells, ops[..n + 1], heads + [next]) && Follow(cells, ops[..n + 1], heads + [next])
    ensures var before := RunMeaning(cells, ops[..n], Spills(cells, ops[..n], heads));
            var last := Meaning(before.0, ops[n], SpillIn(heads[n], ops[n]));
            RunMeaning(cells, ops[..n + 1], Spills(cells, ops[..n + 1], heads + [next])) ==
            (last.0, before.1 + [last.1])
  {
    hide Meaning, HeadStep, SpillIn;
    var more, all := ops[..n + 1], heads + [next];
    assert more[..n] == ops[..n] && all[..n + 1] == heads && more == ops[..n] + [ops[n]];
    assert Spills(cells, more, all)[..n] == Spills(cells, ops[..n], heads);
  }

  /** Without a spill exact accounts stay exact. */
  lemma NoSpillExact(cells: seq<Cell>, ops: seq<Op>, spills: seq<nat>)
    requires |spills| == |ops| && (forall op | op in ops :: Fits(op, |cells|))
    ensures CellsExact(cells) && (forall i | 0 <= i < |ops| :: spills[i] == 0) ==>
              CellsExact(RunMeaning(cells, ops, spills).0)
  {
    hide RunMeaning, CellsExact, Slips;
    if CellsExact(cells) && forall i | 0 <= i < |ops| :: spills[i] == 0 {
      NoneSlips(cells, ops, spills);
      RunExact(cells, ops, spills);
    }
  }

  lemma NoneSlips(cells: seq<Cell>, ops: seq<Op>, spills: seq<nat>)
    requires |spills| == |ops| && (forall op | op in ops :: Fits(op, |cells|))
    requires forall i | 0 <= i < |ops| :: spills[i] == 0
    ensures forall i | 0 <= i < |ops| :: !Slips(RunMeaning(cells, ops[..i], spills[..i]).0, ops[i], spills[i])
  {
    hide RunMeaning;
  }

  // ------------------------------------------------------------------
  // A prepend that nobody is told of
  // ------------------------------------------------------------------

  /** A new buffer with one callback, after one byte. */
  method FirstByte(cb: Callback, x: Byte) returns (buf: Buffer)
    requires cb == Callback(0, true, false, false)
    ensures fresh(buf) && buf.Valid() && buf.Contents() == [x] && !buf.freezeStart && !buf.freezeEnd
    ensures forall i | 0 <= i < |buf.list.chains| :: fresh(buf.list.chains[i])
    ensures buf.Acct() == Account(1, 0, 0, [cb], false, false, [Info(0, 0, 1, 0)], 1, 0, [Since(0, 0, 1, 0, 1)])
    ensures buf.Spill(1) == 1
  {
    hide Join, Buffer.Valid, Buffer.Ahead, Invoke, Notices;
    buf := new Buffer();
    var out := Tune(buf, SetCallbacks([cb]));
    ghost var a := buf.Acct();
    var ok := EvBufferOps.Add(buf, [x]);
    OneNotice(a.Added(1), cb);
    forall i | 0 <= i < |buf.list.chains|
      ensures fresh(buf.list.chains[i])
    {
      assert buf.list.chains[i] in buf.list.chains;
    }
  }

  /** A new buffer with one callback takes a byte, a byte in front and another byte.  The
      callback is told nothing of the second byte; with the third it is told that the length
      was 2, where it last knew 1. */
  method UntoldByte(x: Byte, y: Byte, z: Byte) returns (buf: Buffer)
    ensures fresh(buf) && buf.Valid() && buf.Contents() == [y, x, z]
    ensures buf.log == [Info(0, 0, 1, 0), Info(0, 2, 1, 0)]
  {
    hide Join, Buffer.Valid, Invoke, Notices, Buffer.Spill;
    var cb := Callback(0, true, false, false);
    buf := FirstByte(cb, x);
    UntoldPrepend(buf.Acct(), 1);
    var ok := EvBufferOps.Prepend(buf, [y]);
    forall i | 0 <= i < |buf.list.chains|
      ensures fresh(buf.list.chains[i])
    {
      assert buf.list.chains[i] in buf.list.chains;
    }
    OneNotice(buf.Acct().Added(1), cb);
    ok := EvBufferOps.Add(buf, [z]);
  }
}
