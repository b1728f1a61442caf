/** The evbuffer: a byte queue kept as a linked list of chains. */
module EvBuffer {
  import opened Basics
  import opened Chains
  import opened Accounting

  /** An empty chain can only be the sole chain. */
  ghost predicate NoGaps(parts: seq<seq<Byte>>) {
    |parts| > 1 ==> forall i | 0 <= i < |parts| :: |parts[i]| > 0
  }

  /** cs are chains of buffer b, with places counted from low, and parts is their data. */
  ghost predicate Holds(b: object, cs: seq<Chain>, parts: seq<seq<Byte>>, low: int)
    reads cs`seat, cs`misalign, cs`off, cs`buffer
  {
    && |parts| == |cs|
    && forall i | 0 <= i < |cs| ::
         cs[i].seat == Seat(b, low + i) && cs[i].Ok() && cs[i].Data() == parts[i]
  }

  /** Each chain points at the next. */
  ghost predicate Links(cs: seq<Chain>)
    reads cs`next
  {
    forall i {:trigger cs[i].next} | 0 <= i < |cs| - 1 :: cs[i].next == cs[i + 1]
  }

  /** Two lists of chains, one after the other. */
  lemma HoldsConcat(b: object, cs: seq<Chain>, p: seq<seq<Byte>>, ds: seq<Chain>, q: seq<seq<Byte>>, low: int)
    requires Holds(b, cs, p, low) && Holds(b, ds, q, low + |cs|)
    ensures Holds(b, cs + ds, p + q, low)
  {}

  lemma NoGapsEdit(p: seq<seq<Byte>>, k: nat, d: seq<Byte>)
    requires NoGaps(p) && k < |p| && (|d| > 0 || d == p[k])
    ensures NoGaps(p[k := d])
  {}

  lemma NoGapsAppend(p: seq<seq<Byte>>, d: seq<Byte>)
    requires (forall i | 0 <= i < |p| :: |p[i]| > 0) && |d| > 0
    ensures NoGaps(p + [d])
  {}

  lemma NoGapsConcat(p: seq<seq<Byte>>, q: seq<seq<Byte>>)
    requires p != [[]] && q != [[]] && NoGaps(p) && NoGaps(q)
    ensures NoGaps(p + q)
  {}

  lemma HoldsOne(b: object, c: Chain, low: int)
    requires c.seat == Seat(b, low) && c.Ok()
    ensures Holds(b, [c], [c.Data()], low)
  {}

  lemma HoldsLength(b: object, cs: seq<Chain>, p: seq<seq<Byte>>, low: int)
    requires Holds(b, cs, p, low)
    ensures |cs| == |p|
  {}

  lemma LinksNext(cs: seq<Chain>)
    requires |cs| <= 1
    ensures Links(cs)
  {}

  lemma LinksConcat(cs: seq<Chain>, ds: seq<Chain>)
    requires Links(cs) && Links(ds)
    requires cs != [] && ds != [] ==> cs[|cs| - 1].next == ds[0]
    ensures Links(cs + ds)
  {}

  /** The chains from place k on, and those before. */
  lemma HoldsSlice(b: object, cs: seq<Chain>, p: seq<seq<Byte>>, low: int, k: nat)
    requires Holds(b, cs, p, low) && k <= |cs|
    ensures Holds(b, cs[k..], p[k..], low + k)
    ensures Holds(b, cs[..k], p[..k], low)
  {}

  lemma LinksSlice(cs: seq<Chain>, k: nat)
    requires Links(cs) && k <= |cs|
    ensures Links(cs[k..]) && Links(cs[..k])
  {}

  lemma NoGapsSlice(p: seq<seq<Byte>>, k: nat)
    requires NoGaps(p) && k <= |p|
    ensures NoGaps(p[k..]) && NoGaps(p[..k])
  {}

  /** cs is a linked list of chains of b ending in null, without empty chains. */
  ghost predicate Sound(b: object, cs: seq<Chain>, ps: seq<seq<Byte>>, low: int)
    reads cs`seat, cs`misalign, cs`off, cs`buffer, cs`next
  {
    && Holds(b, cs, ps, low) && Links(cs) && (cs != [] ==> cs[|cs| - 1].next == null)
    && forall i | 0 <= i < |ps| :: |ps[i]| > 0
  }

  lemma SoundSlice(b: object, cs: seq<Chain>, ps: seq<seq<Byte>>, low: int, k: nat)
    requires Sound(b, cs, ps, low) && k <= |cs|
    ensures Sound(b, cs[k..], ps[k..], low + k)
  {}

  /** The chains of a buffer, their data, and the place of the first. */
  datatype List = List(chains: seq<Chain>, parts: seq<seq<Byte>>, low: int)

  /** The front of a buffer: no chain at all, or the room before the data of the first chain,
      how much data that chain has, and whether more chains follow. */
  datatype Head = Bare | Head(room: nat, off: nat, more: bool) {
    /** How many of n bytes do not fit in front. */
    function Spill(n: nat): (r: nat)
      ensures r <= n
    {
      if Bare? || n <= room then 0 else n - room
    }

    /** n bytes went to the front. */
    ghost predicate Prepended(n: nat, after: Head) {
      && after.Head?
      && (Spill(n) > 0 ==> after.off == Spill(n) && after.more)
      && (Head? && Spill(n) == 0 ==> after == Head(room - n, off + n, more))
      && (Bare? ==> after.off == n && !after.more)
    }

    /** n bytes went to the end. */
    ghost predicate Added(n: nat, after: Head) {
      && after.Head?
      && (Bare? && n > 0 ==> after == Head(0, n, false))
      && (Head? && more ==> after == this)
      && (Head? && off > 0 ==> after.off >= off && (after.room == room || after.room == 0))
    }

    /** n of total bytes left at the front. */
    ghost predicate Drained(n: nat, total: nat, after: Head) {
      && (total == 0 ==> after == this)
      && (0 < total <= n ==> after == Bare)
      && (n < total ==> after.Head?)
      && (Head? && n < off && n < total ==> after == Head(room + n, off - n, more))
    }
  }

  /** The struct evbuffer.  The pointer last_with_datap points either at buf->first,
      written here as lwdp == null, or at the next field of a chain, written as
      lwdp == that chain. */
  class Buffer {
    var first: Chain?
    var last: Chain?
    var lwdp: Chain?
    var totalLen: nat
    var freezeStart: bool
    var freezeEnd: bool

    var nAdd: nat
    var nDel: nat
    var callbacks: seq<Callback>
    var deferredCbs: bool
    var queued: bool
    var log: seq<Notice>

    ghost var list: List
    // the length at the last counter reset, the bytes added since without being
    // counted, and both at the time of each notice
    ghost var base: nat
    ghost var missed: nat
    ghost var truth: seq<Since>

    /** All that holds of the fields, except last_with_datap. */
    ghost predicate Body()
      reads this`first, this`last, this`totalLen, this`list
      reads list.chains`next, list.chains`seat, list.chains`misalign, list.chains`off, list.chains`buffer
    {
      && Holds(this, list.chains, list.parts, list.low) && Links(list.chains) && NoGaps(list.parts)
      && (list.chains != [] ==> list.chains[|list.chains| - 1].next == null)
      && first == (if list.chains == [] then null else list.chains[0])
      && last == (if list.chains == [] then null else list.chains[|list.chains| - 1])
      && totalLen == |Join(list.parts)|
    }

    ghost predicate Shape()
      reads this`first, this`last, this`lwdp, this`totalLen, this`list
      reads list.chains`next, list.chains`seat, list.chains`misalign, list.chains`off, list.chains`buffer
    {
      && Body()
      && lwdp == if |list.chains| <= 1 then null else list.chains[|list.chains| - 2]
    }

    ghost function Acct(): (r: Account)
      reads this`totalLen, this`nAdd, this`nDel, this`callbacks, this`deferredCbs, this`queued, this`log
      reads this`base, this`missed, this`truth
    {
      Account(totalLen, nAdd, nDel, callbacks, deferredCbs, queued, log, base, missed, truth)
    }

    ghost predicate Valid()
      reads this, list.chains
    {
      Shape() && Books(Acct())
    }

    /** The byte sequence the buffer stands for. */
    ghost function Contents(): (r: seq<Byte>)
      reads this`list
    {
      Join(list.parts)
    }

    /** evbuffer_new */
    constructor ()
      ensures Valid() && first == null && Ahead() == Bare && list.chains == [] && Contents() == []
      ensures !freezeStart && !freezeEnd
      ensures Acct() == Account(0, 0, 0, [], false, false, [], 0, 0, [])
    {
      first, last, lwdp, totalLen := null, null, null, 0;
      freezeStart, freezeEnd := false, false;
      nAdd, nDel, callbacks, deferredCbs, queued, log := 0, 0, [], false, false, [];
      list, base, missed, truth := List([], [], 0), 0, 0, [];
    }

    /** *buf->last_with_datap */
    function LastWithData(): (r: Chain?)
      reads this`first, this`lwdp, lwdp
    {
      if lwdp == null then first else lwdp.next
    }

    /** last_with_datap leads to the last chain; that chain holds data, unless the
        buffer holds none and has at most one chain. */
    lemma LastWithDataIsLast()
      requires Shape()
      ensures LastWithData() == last
      ensures last == null <==> list.chains == []
      ensures last != null ==> last.next == null
      ensures list.parts == [] <==> list.chains == []
      ensures last != null ==> (last.off == 0 <==> list.parts == [[]])
      ensures totalLen == 0 <==> list.parts == [] || list.parts == [[]]
    {
      if |list.chains| > 1 {
        assert list.chains[|list.chains| - 2].next == list.chains[|list.chains| - 1];
        assert |list.parts[0]| > 0;
        assert Join(list.parts) == list.parts[0] + Join(list.parts[1..]);
      }
      if |list.chains| == 1 {
        assert list.parts == [list.parts[0]];
        JoinOne(list.parts[0]);
      }
      if list.chains != [] {
        assert |list.parts[|list.parts| - 1]| == last.off;
      }
    }

    method ResetCounters()
      modifies this`nAdd, this`nDel, this`base, this`missed
      ensures Acct() == old(Acct()).Reset()
    {
      nAdd, nDel := 0, 0;
      base, missed := totalLen, 0;
    }

    /** evbuffer_run_callbacks */
    method RunCallbacks(runningDeferred: bool)
      modifies this`nAdd, this`nDel, this`base, this`missed, this`log, this`truth
      ensures Acct() == Accounting.RunCallbacks(old(Acct()), runningDeferred)
    {
      if callbacks == [] {
        ResetCounters();
        return;
      }
      if nAdd == 0 && nDel == 0 {
        return;
      }
      var newSize := totalLen;
      var origSize := newSize + nDel - nAdd;
      var nAdded, nDeleted := nAdd, nDel;
      ghost var ns := Notices(callbacks, Acct(), runningDeferred);
      ghost var was := Acct();
      if !(deferredCbs && !runningDeferred) {
        ResetCounters();
      }
      var sent: seq<Notice> := [];
      for i := 0 to |callbacks|
        invariant sent == Notices(callbacks[..i], was, runningDeferred)
      {
        var cb := callbacks[i];
        assert callbacks[..i + 1][..i] == callbacks[..i];
        if Selected(cb, runningDeferred, deferredCbs) {
          sent := sent + [if cb.obsolete then Sizes(cb.id, origSize, newSize)
                          else Info(cb.id, origSize, nAdded, nDeleted)];
        }
      }
      assert callbacks[..|callbacks|] == callbacks;
      log := log + sent;
      truth := truth + seq(|ns|, _ => was.SoFar());
    }

    /** evbuffer_invoke_callbacks */
    method InvokeCallbacks()
      modifies this`nAdd, this`nDel, this`base, this`missed, this`log, this`truth, this`queued
      ensures Acct() == Accounting.Invoke(old(Acct()))
    {
      if callbacks == [] {
        ResetCounters();
        return;
      }
      if deferredCbs {
        if queued {
          return;
        }
        queued := true;
      }
      RunCallbacks(false);
    }

    /** The end of a changing operation. */
    method Settle()
      requires Valid()
      modifies this`nAdd, this`nDel, this`base, this`missed, this`log, this`truth, this`queued
      ensures Valid() && Acct() == Accounting.Invoke(old(Acct()))
    {
      hide Books, Accounting.Invoke;
      InvokeKeeps(Acct());
      InvokeCallbacks();
    }

    /** evbuffer_deferred_callback, as the event loop runs it if it was scheduled. */
    method RunDeferred()
      requires Valid()
      modifies this`nAdd, this`nDel, this`base, this`missed, this`log, this`truth, this`queued
      ensures Valid()
      ensures Acct() == if old(queued) then Accounting.RunCallbacks(old(Acct()).(queued := false), true)
                        else old(Acct())
    {
      hide Books, Accounting.RunCallbacks;
      if queued {
        SettingsKeep(Acct(), callbacks, deferredCbs, false);
        queued := false;
        RunCallbacksKeeps(Acct(), true);
        RunCallbacks(true);
      }
    }

    /** The place of the first victim chain: the pointer that leads to the first empty
        chain, or past the last chain. */
    method FirstVictim() returns (ch: Chain?)
      requires Shape()
      ensures ch == if list.parts == [] || list.parts == [[]] then null else last
      ensures (if ch == null then first else ch.next) == (if list.parts == [[]] then first else null)
    {
      LastWithDataIsLast();
      ch := lwdp;
      var cur := LastWithData();
      ghost var n := 0;
      while cur != null && cur.off != 0
        invariant n == 0 ==> ch == lwdp && cur == last
        invariant n > 0 ==> cur == null && ch == last && last != null && last.off != 0
        decreases 1 - n
      {
        ch := cur;
        cur := cur.next;
        n := 1;
      }
    }

    /** Only the link of the last chain has changed. */
    twostate lemma EndRelinked()
      requires old(Shape())
      requires forall c | c in old(list.chains) ::
                 && c.seat == old(c.seat) && c.misalign == old(c.misalign)
                 && c.off == old(c.off) && c.buffer == old(c.buffer)
      requires forall c | c in old(list.chains) && c != old(last) :: c.next == old(c.next)
      ensures Holds(this, old(list.chains), old(list.parts), old(list.low)) && Links(old(list.chains))
      ensures |old(list.parts)| == |old(list.chains)|
    {
      hide Join, NoGaps;
      assert old(forall i | 0 <= i < |list.chains| :: list.chains[i].seat.place == list.low + i);
    }

    /** Chain has been linked behind the last chain. */
    twostate lemma Appended(chain: Chain)
      requires old(Shape()) && old(list.chains) != [] && old(chain.seat.owner) != this
      requires forall c | c in old(list.chains) ::
                 && c.seat == old(c.seat) && c.misalign == old(c.misalign)
                 && c.off == old(c.off) && c.buffer == old(c.buffer)
      requires forall c | c in old(list.chains) && c != old(last) :: c.next == old(c.next)
      requires old(last).next == chain && chain.next == null && chain.Ok()
      requires chain.seat == Seat(this, old(list.low) + |old(list.chains)|)
      ensures Holds(this, old(list.chains) + [chain], old(list.parts) + [chain.Data()], old(list.low))
      ensures Links(old(list.chains) + [chain])
      ensures Join(old(list.parts) + [chain.Data()]) == Join(old(list.parts)) + chain.Data()
    {
      hide Join, Chain.Data, Holds, Links, NoGaps;
      ghost var cs, ps, d := old(list.chains), old(list.parts), chain.Data();
      EndRelinked();
      LinksNext([chain]);
      HoldsOne(this, chain, old(list.low) + |cs|);
      HoldsConcat(this, cs, ps, [chain], [d], old(list.low));
      LinksConcat(cs, [chain]);
      JoinConcat(ps, [d]);
      JoinOne(d);
    }

    /** Every chain holds data but the last, which is spare: last_with_datap leads to the chain
        before it. */
    ghost predicate Spare()
      reads this`first, this`last, this`lwdp, this`totalLen, this`list
      reads list.chains`next, list.chains`seat, list.chains`misalign, list.chains`off, list.chains`buffer
    {
      var n := |list.chains|;
      && Holds(this, list.chains, list.parts, list.low) && Links(list.chains)
      && n > 1 && |list.parts| == n && list.parts[n - 1] == [] && (forall i | 0 <= i < n - 1 :: |list.parts[i]| > 0)
      && first == list.chains[0] && last == list.chains[n - 1] && last.next == null
      && lwdp == (if n == 2 then null else list.chains[n - 3])
      && totalLen == |Join(list.parts)|
    }

    /** Links a chain behind the last one. */
    method LinkLast(chain: Chain)
      requires Shape() && list.chains != [] && list.parts != [[]]
      requires chain.Ok() && chain.next == null && chain.seat.owner != this
      modifies this`last, this`lwdp, this`totalLen, this`list
      modifies last`next, chain`seat
      ensures if chain.off > 0 then Shape() else Spare()
      ensures list.chains == old(list.chains) + [chain]
      ensures list.parts == old(list.parts) + [old(chain.Data())]
      ensures Contents() == old(Contents()) + old(chain.Data()) && totalLen == old(totalLen) + chain.off
    {
      hide Join, Chain.Data, Chain.Ok, Holds, NoGaps, Links, Shape;
      ghost var cs, ps, d := list.chains, list.parts, chain.Data();
      Ends();
      NotMine(chain);
      AllHold();
      chain.seat := Seat(this, list.low + |cs|);
      totalLen := totalLen + chain.off;
      if chain.off > 0 {
        lwdp := last;
        NoGapsAppend(ps, d);
      }
      last.next := chain;
      last := chain;
      Appended(chain);
      list := List(cs + [chain], ps + [d], list.low);
      if chain.off > 0 {
        MakeShape();
      }
    }

    /** In a buffer with data every chain holds some. */
    lemma AllHold()
      requires Shape() && list.chains != [] && list.parts != [[]]
      ensures |list.parts| == |list.chains| && forall i | 0 <= i < |list.parts| :: |list.parts[i]| > 0
    {}

    /** Makes a chain the only one of a buffer without data. */
    method LinkSole(chain: Chain)
      requires Shape() && (list.parts == [] || list.parts == [[]])
      requires chain.Ok() && chain.next == null
      modifies this`first, this`last, this`totalLen, this`list
      modifies chain`seat
      ensures Shape()
      ensures list.chains == [chain]
      ensures list.parts == [old(chain.Data())]
      ensures Contents() == old(Contents()) + old(chain.Data()) && totalLen == old(totalLen) + chain.off
    {
      hide Join, Chain.Data, Chain.Ok;
      ghost var d := chain.Data();
      JoinOne([]);
      JoinOne(d);
      list := List([chain], [d], list.low);
      chain.seat := Seat(this, list.low);
      totalLen := totalLen + chain.off;
      first, last := chain, chain;
      JoinEmpty();
    }

    /** evbuffer_chain_insert.  An empty chain behind chains with data is left spare. */
    method ChainInsert(chain: Chain)
      requires Shape()
      requires chain.Ok() && chain.next == null && chain.seat.owner != this
      modifies this`first, this`last, this`lwdp, this`totalLen, this`list
      modifies list.chains`next, chain`seat
      ensures if chain.off > 0 || old(totalLen) == 0 then Shape() else Spare()
      ensures list.chains == (if old(list.parts) == [[]] then [] else old(list.chains)) + [chain]
      ensures list.parts == (if old(list.parts) == [[]] then [] else old(list.parts)) + [old(chain.Data())]
      ensures Contents() == old(Contents()) + old(chain.Data()) && totalLen == old(totalLen) + chain.off
    {
      hide Join, Chain.Data, Chain.Ok, Holds, Links, NoGaps;
      LastWithDataIsLast();
      if LastWithData() == null {
        // no chain at all: last_with_datap is &buf->first
        assert lwdp == null && first == null;
        LinkSole(chain);
      } else {
        var ch := FirstVictim();
        var victim := if ch == null then first else ch.next;
        if victim == null {
          LinkLast(chain);
        } else {
          // every victim is empty
          assert list.parts == [[]];
          LinkSole(chain);
        }
      }
    }

    /** Writes data behind the data of the last chain. */
    method FillLast(data: seq<Byte>)
      requires Shape() && last != null && last.misalign + last.off + |data| <= |last.buffer|
      modifies this`totalLen, this`list, last`off, last`buffer
      ensures Shape() && |last.buffer| == |old(last.buffer)|
      ensures list.chains == old(list.chains)
      ensures Contents() == old(Contents()) + data && totalLen == old(totalLen) + |data|
      ensures data != [] ==> list.parts != [[]]
      ensures last.off == old(last.off) + |data|
    {
      hide Join, Chain.Data, Shape, NoGaps;
      Ends();
      ghost var ps, k := list.parts, |list.chains| - 1;
      PartAt(k);
      ghost var d := last.Data();
      JoinGrowLast(ps, data);
      assert d + data == [] ==> d + data == d;
      NoGapsEdit(ps, k, d + data);
      last.Fill(data);
      totalLen := totalLen + |data|;
      list := list.(parts := ps[k := d + data]);
      assert list.parts[k] == d + data;
      Edited(k);
    }

    /** Moves the data of the last chain to the start of its memory. */
    method AlignLast()
      requires Shape() && last != null
      modifies last`misalign, last`buffer
      ensures Shape() && |last.buffer| == |old(last.buffer)| && last.misalign == 0
    {
      hide Join, Chain.Data, Links, NoGaps;
      last.Align();
    }

    /** The data of a chain in the list. */
    lemma PartAt(k: nat)
      requires Shape() && k < |list.chains|
      ensures |list.parts| == |list.chains| && list.chains[k].Ok() && list.parts[k] == list.chains[k].Data()
    {}

    /** The data of the first chain starts the contents. */
    lemma FirstFront(n: nat)
      requires Shape() && first != null && n <= first.off
      ensures first.Ok() && n <= |Contents()| && first.Front(n) == Contents()[..n]
    {}

    /** The fields of the buffer, as its list has them. */
    lemma Ends()
      requires Shape()
      ensures |list.parts| == |list.chains| && totalLen == |Join(list.parts)| && NoGaps(list.parts)
      ensures first == (if list.chains == [] then null else list.chains[0])
      ensures last == (if list.chains == [] then null else list.chains[|list.chains| - 1])
      ensures lwdp == (if |list.chains| <= 1 then null else list.chains[|list.chains| - 2])
    {
      hide Join, NoGaps;
    }

    lemma MakeBody()
      requires Holds(this, list.chains, list.parts, list.low) && Links(list.chains) && NoGaps(list.parts)
      requires list.chains != [] ==> list.chains[|list.chains| - 1].next == null
      requires first == (if list.chains == [] then null else list.chains[0])
      requires last == (if list.chains == [] then null else list.chains[|list.chains| - 1])
      requires totalLen == |Join(list.parts)|
      ensures Body()
    {
      hide Join, Holds, Links, NoGaps;
    }

    lemma MakeShape()
      requires Holds(this, list.chains, list.parts, list.low) && Links(list.chains) && NoGaps(list.parts)
      requires list.chains != [] ==> list.chains[|list.chains| - 1].next == null
      requires first == (if list.chains == [] then null else list.chains[0])
      requires last == (if list.chains == [] then null else list.chains[|list.chains| - 1])
      requires lwdp == (if |list.chains| <= 1 then null else list.chains[|list.chains| - 2])
      requires totalLen == |Join(list.parts)|
      ensures Shape()
    {
      hide Join, Holds, Links, NoGaps;
    }

    /** Only the data of chain k has changed. */
    twostate lemma Edited(k: nat)
      requires old(Shape()) && k < |old(list.chains)|
      requires list.chains == old(list.chains) && list.low == old(list.low)
      requires first == old(first) && last == old(last) && lwdp == old(lwdp)
      requires forall c | c in old(list.chains) :: c.next == old(c.next) && c.seat == old(c.seat)
      requires forall c | c in old(list.chains) && c != old(list.chains)[k] ::
                 c.misalign == old(c.misalign) && c.off == old(c.off) && c.buffer == old(c.buffer)
      requires list.chains[k].Ok() && list.parts == old(list.parts)[k := list.chains[k].Data()]
      requires NoGaps(list.parts) && totalLen == |Join(list.parts)|
      ensures Shape()
    {
      hide Join, Chain.Data, NoGaps, Holds, Links, Shape;
      WasShape();
      HoldsEdit(k);
      LinksKept();
      MakeShape();
    }

    /** The list and the pointers of a buffer as it was. */
    twostate lemma WasShape()
      requires old(Shape())
      ensures old(Holds(this, list.chains, list.parts, list.low)) && old(Links(list.chains))
      ensures old(list.chains) != [] ==> old(list.chains[|list.chains| - 1].next) == null
      ensures old(first) == (if old(list.chains) == [] then null else old(list.chains)[0])
      ensures old(last) == (if old(list.chains) == [] then null else old(list.chains)[|old(list.chains)| - 1])
      ensures old(lwdp) == (if |old(list.chains)| <= 1 then null else old(list.chains)[|old(list.chains)| - 2])
    {
      hide Join, NoGaps, Holds, Links;
    }

    /** The links between the chains have not changed. */
    twostate lemma LinksKept()
      requires old(Links(list.chains)) && list.chains == old(list.chains)
      requires forall c | c in old(list.chains) :: c.next == old(c.next)
      ensures Links(list.chains)
      ensures list.chains != [] ==> list.chains[|list.chains| - 1].next == old(list.chains[|list.chains| - 1].next)
    {
      forall i {:trigger list.chains[i].next} | 0 <= i < |list.chains| - 1
        ensures list.chains[i].next == list.chains[i + 1]
      {
        assert list.chains[i] in old(list.chains);
        assert old(list.chains[i].next == list.chains[i + 1]);
      }
    }

    /** Only the data of chain k has changed. */
    twostate lemma HoldsEdit(k: nat)
      requires old(Holds(this, list.chains, list.parts, list.low)) && k < |old(list.chains)|
      requires list.chains == old(list.chains) && list.low == old(list.low)
      requires forall c | c in old(list.chains) :: c.seat == old(c.seat)
      requires forall c | c in old(list.chains) && c != old(list.chains)[k] ::
                 c.misalign == old(c.misalign) && c.off == old(c.off) && c.buffer == old(c.buffer)
      requires list.chains[k].Ok() && list.parts == old(list.parts)[k := list.chains[k].Data()]
      ensures Holds(this, list.chains, list.parts, list.low)
    {
      forall i | 0 <= i < |list.chains| && i != k
        ensures list.chains[i].seat == Seat(this, list.low + i) && list.chains[i].Ok()
        ensures list.chains[i].Data() == list.parts[i]
      {
        assert old(list.chains[i].seat == Seat(this, list.low + i) && list.chains[k].seat == Seat(this, list.low + k));
        assert list.chains[i] in old(list.chains);
      }
    }

    /** Writes data in front of the data of the first chain. */
    method FillFirst(data: seq<Byte>)
      requires Shape() && first != null && |data| <= first.misalign
      modifies this`totalLen, this`list, first`off, first`misalign, first`buffer
      ensures Shape() && first.misalign == old(first.misalign) - |data| && first.off == old(first.off) + |data|
      ensures list.chains == old(list.chains) && |first.buffer| == |old(first.buffer)|
      ensures Contents() == data + old(Contents()) && totalLen == old(totalLen) + |data|
      ensures data != [] ==> list.parts != [[]]
    {
      hide Join, Chain.Data, Shape, NoGaps;
      Ends();
      PartAt(0);
      ghost var ps, d := list.parts, first.Data();
      JoinGrowFirst(ps, data);
      assert data + d == [] ==> data + d == d;
      NoGapsEdit(ps, 0, data + d);
      first.FillFront(data);
      totalLen := totalLen + |data|;
      list := list.(parts := ps[0 := data + d]);
      assert list.parts[0] == data + d;
      Edited(0);
    }

    /** Forgets the first n bytes of the first chain, but not all of them. */
    method AdvanceFirst(n: nat)
      requires Shape() && first != null && n < first.off
      modifies this`totalLen, this`list, first`off, first`misalign
      ensures Shape() && list.chains == old(list.chains)
      ensures first.misalign == old(first.misalign) + n && first.off == old(first.off) - n
      ensures n <= |old(Contents())| && Contents() == old(Contents())[n..] && totalLen == old(totalLen) - n
    {
      hide Join, Chain.Data, Shape, NoGaps;
      Ends();
      PartAt(0);
      ghost var ps, d := list.parts, first.Data();
      JoinTrimFirst(ps, n);
      NoGapsEdit(ps, 0, d[n..]);
      first.Advance(n);
      totalLen := totalLen - n;
      list := list.(parts := ps[0 := d[n..]]);
      Edited(0);
    }

    /** A chain of another owner is not in the list. */
    lemma NotMine(c: Chain)
      requires Shape() && c.seat.owner != this
      ensures c !in list.chains
    {}

    /** A change to other buffers and to chains of other lists. */
    twostate lemma ShapeKept()
      requires old(Shape()) && list == old(list)
      requires first == old(first) && last == old(last) && lwdp == old(lwdp) && totalLen == old(totalLen)
      requires forall c | c in old(list.chains) :: c.next == old(c.next) && c.seat == old(c.seat)
      requires forall c | c in old(list.chains) ::
                 c.misalign == old(c.misalign) && c.off == old(c.off) && c.buffer == old(c.buffer)
      ensures Shape()
    {
      hide Join, NoGaps;
    }

    twostate lemma ValidKept()
      requires old(Valid()) && unchanged(this) && forall c | c in old(list.chains) :: unchanged(c)
      ensures Valid() && Ahead() == old(Ahead())
    {
      hide Books, Join, Chain.Data, Links, NoGaps;
      ShapeKept();
      ShapeFacts();
    }

    lemma ShapeBody()
      requires Shape()
      ensures Body()
    {}

    lemma ShapeLength()
      requires Shape()
      ensures totalLen == |Contents()|
    {}

    lemma ValidLength()
      requires Valid()
      ensures totalLen == |Contents()|
    {
      ShapeFacts();
    }

    /** The ends of the list. */
    lemma ShapeFacts()
      requires Shape()
      ensures totalLen == |Contents()|
      ensures list.chains == [] <==> first == null
      ensures list.chains == [] <==> last == null
      ensures first != null ==> first == list.chains[0] && first.Ok() && first in list.chains
      ensures last != null ==> last == list.chains[|list.chains| - 1] && last.Ok() && last in list.chains
      ensures |list.chains| == |list.parts|
    {}

    lemma NotEmpty()
      requires Shape() && totalLen > 0
      ensures list.chains != [] && list.parts != [[]]
    {
      JoinOne([]);
    }

    /** The first chain is empty only when there is no data. */
    lemma EmptyFirst()
      requires Shape() && first != null
      ensures first.Ok() && (first.off == 0 <==> list.parts == [[]])
    {}

    /** The chains of the list have not changed. */
    twostate lemma ListKept()
      requires old(Shape())
      requires forall c | c in old(list.chains) ::
                 && c.seat == old(c.seat) && c.misalign == old(c.misalign) && c.off == old(c.off)
                 && c.buffer == old(c.buffer) && c.next == old(c.next)
      ensures Holds(this, old(list.chains), old(list.parts), old(list.low)) && Links(old(list.chains))
      ensures |old(list.parts)| == |old(list.chains)|
    {
      hide Join, NoGaps;
    }

    /** Chain has been linked in front of the first chain. */
    twostate lemma Prepended(chain: Chain)
      requires old(Shape()) && old(list.chains) != [] && old(list.parts) != [[]] && old(chain.seat.owner) != this
      requires forall c | c in old(list.chains) ::
                 && c.seat == old(c.seat) && c.misalign == old(c.misalign) && c.off == old(c.off)
                 && c.buffer == old(c.buffer) && c.next == old(c.next)
      requires chain.next == old(first) && chain.Ok() && chain.off > 0
      requires chain.seat == Seat(this, old(list.low) - 1)
      ensures Holds(this, [chain] + old(list.chains), [chain.Data()] + old(list.parts), old(list.low) - 1)
      ensures Links([chain] + old(list.chains)) && NoGaps([chain.Data()] + old(list.parts))
      ensures Join([chain.Data()] + old(list.parts)) == chain.Data() + Join(old(list.parts))
    {
      hide Join, Chain.Data, Holds, Links;
      ghost var cs, ps, d := old(list.chains), old(list.parts), chain.Data();
      ListKept();
      LinksNext([chain]);
      HoldsOne(this, chain, old(list.low) - 1);
      HoldsConcat(this, [chain], [d], cs, ps, old(list.low) - 1);
      LinksConcat([chain], cs);
      NoGapsConcat([d], ps);
      JoinConcat([d], ps);
      JoinOne(d);
    }

    /** Links a chain in front of the first one. */
    method LinkFirst(chain: Chain)
      requires Shape() && list.chains != [] && list.parts != [[]]
      requires chain.Ok() && chain.off > 0 && chain.seat.owner != this
      modifies this`first, this`lwdp, this`totalLen, this`list
      modifies chain`next, chain`seat
      ensures Shape() && first == chain != last
      ensures list.chains == [chain] + old(list.chains)
      ensures list.parts == [old(chain.Data())] + old(list.parts)
      ensures Contents() == old(chain.Data()) + old(Contents()) && totalLen == old(totalLen) + chain.off
    {
      hide Join, Chain.Data, Chain.Ok, Holds, NoGaps, Links, Shape;
      ghost var cs, ps, d := list.chains, list.parts, chain.Data();
      Ends();
      LastEnds();
      NotMine(chain);
      chain.seat := Seat(this, list.low - 1);
      var head := first;
      first := chain;
      if lwdp == null {
        lwdp := chain;
      }
      chain.next := head;
      totalLen := totalLen + chain.off;
      Prepended(chain);
      list := List([chain] + cs, [d] + ps, list.low - 1);
      MakeShape();
    }

    /** The list itself. */
    lemma LastEnds()
      requires Shape()
      ensures Holds(this, list.chains, list.parts, list.low) && Links(list.chains)
      ensures last != null ==> last.next == null
    {
      hide Join, Holds, Links, NoGaps;
    }

    /** Treats an empty first chain as empty at its beginning. */
    method SlideEmptyFirst()
      requires Shape() && first != null && first.off == 0
      modifies first`misalign
      ensures Shape() && first.misalign == |first.buffer| > 0
    {
      hide Join, Links, NoGaps;
      first.misalign := |first.buffer|;
    }

    /** The front of the buffer, as a prepend finds it. */
    ghost function Ahead(): (r: Head)
      reads this`first, this`last, first
    {
      if first == null then Bare
      else Head(if first.off == 0 then |first.buffer| else first.misalign, first.off, first != last)
    }

    /** How many of n bytes prepended go to a new chain. */
    ghost function Spill(n: nat): (r: nat)
      reads this`first, this`last, first
      ensures r <= n
    {
      Ahead().Spill(n)
    }

    /** ZERO_CHAIN */
    method ZeroChain()
      modifies this`first, this`last, this`lwdp, this`totalLen, this`list
      ensures Shape() && list.chains == [] && list.parts == [] && Contents() == [] && totalLen == 0
    {
      first, last, lwdp, totalLen := null, null, null, 0;
      list := List([], [], 0);
    }

    /** What stays when the first k chains go, last_with_datap being already mended. */
    ghost method ForgetFront(k: nat)
      requires Holds(this, list.chains, list.parts, list.low) && Links(list.chains) && NoGaps(list.parts)
      requires k < |list.chains| && list.chains[|list.chains| - 1].next == null
      modifies this`list
      ensures Holds(this, list.chains, list.parts, list.low) && Links(list.chains) && NoGaps(list.parts)
      ensures list.chains == old(list.chains)[k..] && list.parts == old(list.parts)[k..]
      ensures |Join(old(list.parts)[..k])| + |Contents()| == |Join(old(list.parts))|
      ensures Contents() == Join(old(list.parts))[|Join(old(list.parts)[..k])|..]
    {
      hide Join, Holds, Links, NoGaps;
      HoldsSlice(this, list.chains, list.parts, list.low, k);
      LinksSlice(list.chains, k);
      HoldsLength(this, list.chains, list.parts, list.low);
      NoGapsSlice(list.parts, k);
      JoinSplit(list.parts, k);
      list := List(list.chains[k..], list.parts[k..], list.low + k);
    }

    /** A chain that fits into the bytes to go, when not all bytes go, is not the last. */
    lemma OnTheWay(k: nat, done: nat, rest: nat)
      requires Body() && k < |list.chains| == |list.parts| && done == |Join(list.parts[..k])|
      requires done + rest < totalLen && list.chains[k].off <= rest
      ensures k + 1 < |list.chains| && list.chains[k].next == list.chains[k + 1]
      ensures |Join(list.parts[..k + 1])| == done + list.chains[k].off
      ensures var n := |list.chains|;
              && list.chains[k] != list.chains[n - 1] && list.chains[n - 2].next == list.chains[n - 1]
              && (list.chains[k] == list.chains[n - 2] <==> k == n - 2)
    {
      hide Join, Chain.Data, NoGaps;
      assert |list.parts[k]| == list.chains[k].off;
      JoinTake(list.parts, k);
      JoinWhole(list.parts);
      var n := |list.chains|;
      assert list.chains[k].seat.place == list.low + k && list.chains[n - 1].seat.place == list.low + n - 1;
      assert k + 1 < n && list.chains[n - 2].seat.place == list.low + n - 2;
    }

    /** The loop of evbuffer_drain: finds the chain that stays first, and how many of its bytes
        are still to go. */
    method PassChains(len: nat) returns (chain: Chain, remaining: nat, ghost k: nat)
      requires Shape() && len < totalLen
      modifies this`lwdp
      ensures Body() && k < |list.chains| == |list.parts| && chain == list.chains[k]
      ensures remaining + |Join(list.parts[..k])| == len && remaining < chain.off
      ensures lwdp == if |list.chains| - k <= 1 then null else list.chains[|list.chains| - 2]
      ensures first != null && (len < first.off ==> chain == first && remaining == len)
    {
      hide Join, Body;
      ShapeFacts();
      ShapeBody();
      NotEmpty();
      ghost var n := |list.chains|;
      chain, remaining, k := first, len, 0;
      JoinEmpty();
      assert list.parts[..0] == [];
      while remaining >= chain.off
        invariant Body() && 0 <= k < n && chain == list.chains[k]
        invariant remaining + |Join(list.parts[..k])| == len
        invariant len < first.off ==> chain == first && remaining == len
        invariant lwdp == if n <= 1 || k >= n - 1 then null else list.chains[n - 2]
        decreases n - k
      {
        OnTheWay(k, |Join(list.parts[..k])|, remaining);
        var next := chain.next;
        remaining := remaining - chain.off;
        // resetting last_with_datap for the last chain with data is never needed here
        assert chain != LastWithData();
        if chain == lwdp {
          lwdp := null;
        }
        chain := next;
        k := k + 1;
      }
    }

    /** Forgets the chains that are used up by len bytes, and returns how many bytes of the new
        first chain are still to go. */
    method DropChains(len: nat) returns (remaining: nat)
      requires Shape() && len < totalLen
      modifies this`first, this`lwdp, this`totalLen, this`list
      ensures Shape() && remaining <= len && first != null && remaining < first.off
      ensures totalLen == old(totalLen) - (len - remaining)
      ensures Contents() == old(Contents())[len - remaining..]
      ensures forall c | c in list.chains :: c in old(list.chains)
      ensures old(first) != null && (len < old(first.off) ==> first == old(first) && remaining == len)
    {
      hide Join, Chain.Data, Holds, Links, NoGaps, Shape;
      var chain: Chain;
      ghost var k: nat;
      chain, remaining, k := PassChains(len);
      JoinSplit(list.parts, k);
      ForgetFront(k);
      first := chain;
      totalLen := totalLen - (len - remaining);
      MakeShape();
    }

    /** Forgets the first len bytes, but not all. */
    method DropFront(len: nat)
      requires Shape() && len < totalLen
      modifies this`first, this`lwdp, this`totalLen, this`list, list.chains`off, list.chains`misalign
      ensures Shape() && totalLen == old(totalLen) - len
      ensures |old(Contents())| == old(totalLen) && Contents() == old(Contents())[len..]
      ensures forall c | c in list.chains :: c in old(list.chains)
      ensures old(Ahead()).Drained(len, old(totalLen), Ahead())
    {
      hide Join, Chain.Data, Shape;
      ShapeFacts();
      ghost var s := Contents();
      var remaining := DropChains(len);
      ShapeFacts();
      DropDrop(s, len - remaining, remaining);
      assert first in list.chains;
      AdvanceFirst(remaining);
    }
  }
}
