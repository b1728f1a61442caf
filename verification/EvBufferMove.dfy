/** Moving chains from one evbuffer to another: add_buffer, prepend_buffer, remove_buffer. */
module EvBufferMove {
  import opened Basics
  import opened Chains
  import opened Accounting
  import opened EvBuffer
  import opened EvBufferOps

  /** The chains cs of a become chains of b, which keeps its own chains ds. */
  ghost method Reseat(a: object, b: object, cs: seq<Chain>, ps: seq<seq<Byte>>, low: int, newLow: int,
                      ds: seq<Chain>, qs: seq<seq<Byte>>, lowB: int)
    requires Holds(a, cs, ps, low) && Holds(b, ds, qs, lowB) && a != b
    modifies cs`seat
    ensures Holds(b, cs, ps, newLow) && Holds(b, ds, qs, lowB)
  {
    forall c | c in ds
      ensures c !in cs
    {
      assert c.seat.owner == b;
    }
    hide Chain.Data;
    forall c | c in cs {
      c.seat := Seat(b, c.seat.place - low + newLow);
    }
  }

  lemma HoldsNone(b: object)
    ensures Holds(b, [], [], 0)
  {}

  /** Buffers that are not the same share no chain. */
  lemma Apart(a: Buffer, b: Buffer)
    requires a.Shape() && b.Shape() && a != b
    ensures forall c | c in a.list.chains :: c !in b.list.chains
    ensures a.last != null ==> forall i | 0 <= i < |b.list.chains| :: b.list.chains[i] != a.last
  {}

  /** COPY_CHAIN: dst, which holds no data, takes the chains of src. */
  method CopyChain(dst: Buffer, src: Buffer)
    requires dst.Shape() && src.Shape() && dst != src
    modifies dst`first, dst`last, dst`lwdp, dst`totalLen, dst`list, src.list.chains`seat
    ensures dst.Shape() && dst.list.chains == src.list.chains && dst.Contents() == src.Contents()
    ensures dst.totalLen == src.totalLen && dst.first == src.first && dst.last == src.last
  {
    hide Join, Chain.Data, Holds, NoGaps, Links, Buffer.Shape;
    HoldsNone(dst);
    src.Ends();
    src.LastEnds();
    dst.first := src.first;
    dst.lwdp := src.lwdp;
    dst.last := src.last;
    dst.totalLen := src.totalLen;
    dst.list := src.list;
    Reseat(src, dst, src.list.chains, src.list.parts, src.list.low, src.list.low, [], [], 0);
    dst.MakeShape();
  }

  /** One list behind another. */
  lemma Glued(b: object, cs: seq<Chain>, ps: seq<seq<Byte>>, ds: seq<Chain>, qs: seq<seq<Byte>>, low: int)
    requires Holds(b, cs, ps, low) && Holds(b, ds, qs, low + |cs|) && cs != [] && ds != []
    requires Links(cs) && Links(ds) && cs[|cs| - 1].next == ds[0]
    requires NoGaps(ps) && NoGaps(qs) && ps != [[]] && qs != [[]]
    ensures Holds(b, cs + ds, ps + qs, low) && Links(cs + ds) && NoGaps(ps + qs)
    ensures Join(ps + qs) == Join(ps) + Join(qs)
  {
    HoldsConcat(b, cs, ps, ds, qs, low);
    LinksConcat(cs, ds);
    NoGapsConcat(ps, qs);
    JoinConcat(ps, qs);
  }

  /** Links the chains of back behind those of front, as chains of owner. */
  method Tie(front: Buffer, back: Buffer, ghost owner: Buffer)
    returns (ghost cs: seq<Chain>, ghost ps: seq<seq<Byte>>, ghost low: int)
    requires front.Shape() && back.Shape() && front != back && front.totalLen > 0 && back.totalLen > 0
    requires owner == front || owner == back
    modifies front.list.chains`next, front.list.chains`seat, back.list.chains`seat
    ensures cs == front.list.chains + back.list.chains && ps == front.list.parts + back.list.parts
    ensures |front.list.chains| > 0 && |back.list.chains| > 0
    ensures Holds(owner, cs, ps, low) && Links(cs) && NoGaps(ps) && cs[|cs| - 1].next == null
    ensures Join(ps) == front.Contents() + back.Contents()
  {
    hide Join, Chain.Data, Holds, NoGaps;
    front.NotEmpty();
    back.NotEmpty();
    Apart(front, back);
    ghost var fs, fp, bs, bp := front.list.chains, front.list.parts, back.list.chains, back.list.parts;
    HoldsLength(front, fs, fp, front.list.low);
    LastAlone(front);
    if owner == front {
      low := front.list.low;
      Reseat(back, front, bs, bp, back.list.low, low + |fs|, fs, fp, low);
    } else {
      low := back.list.low - |fs|;
      Reseat(front, back, fs, fp, front.list.low, low, bs, bp, back.list.low);
    }
    front.last.next := back.first;
    Glued(owner, fs, fp, bs, bp, low);
    cs, ps := fs + bs, fp + bp;
  }

  /** APPEND_CHAIN: the chains of src go behind those of dst. */
  method AppendChain(dst: Buffer, src: Buffer)
    requires dst.Shape() && src.Shape() && dst != src && dst.totalLen > 0 && src.totalLen > 0
    modifies dst`last, dst`lwdp, dst`totalLen, dst`list
    modifies dst.list.chains`next, dst.list.chains`seat, src.list.chains`seat
    ensures dst.Shape() && dst.list.chains == old(dst.list.chains) + src.list.chains
    ensures dst.Contents() == old(dst.Contents()) + src.Contents()
    ensures dst.totalLen == old(dst.totalLen) + src.totalLen && dst.last == src.last
  {
    hide Join, Chain.Data, Holds, NoGaps, Links, Buffer.Shape;
    dst.Ends();
    src.Ends();
    ghost var cs, ps, low := Tie(dst, src, dst);
    dst.lwdp := if src.lwdp == null then dst.last else src.lwdp;
    dst.last := src.last;
    dst.totalLen := dst.totalLen + src.totalLen;
    dst.list := List(cs, ps, low);
    dst.MakeShape();
  }

  lemma LinkAt(cs: seq<Chain>, i: nat)
    requires Links(cs) && i < |cs| - 1
    ensures cs[i].next == cs[i + 1]
  {}

  /** PREPEND_CHAIN: the chains of src go in front of those of dst. */
  method PrependChain(dst: Buffer, src: Buffer)
    requires dst.Shape() && src.Shape() && dst != src && dst.totalLen > 0 && src.totalLen > 0
    modifies dst`first, dst`lwdp, dst`totalLen, dst`list
    modifies src.list.chains`next, src.list.chains`seat, dst.list.chains`seat
    ensures dst.Shape() && dst.list.chains == src.list.chains + old(dst.list.chains)
    ensures dst.Contents() == src.Contents() + old(dst.Contents())
    ensures dst.totalLen == old(dst.totalLen) + src.totalLen && dst.first == src.first
  {
    hide Join, Chain.Data, Holds, NoGaps, Links, Buffer.Shape;
    dst.Ends();
    src.Ends();
    ghost var cs, ps, low := Tie(src, dst, dst);
    dst.first := src.first;
    dst.totalLen := dst.totalLen + src.totalLen;
    // last_with_datap leads to a chain
    assert dst.LastWithData() != null by {
      if dst.lwdp != null {
        LinkAt(cs, |cs| - 2);
      }
    }
    if dst.lwdp == null {
      dst.lwdp := src.last;
    }
    dst.list := List(cs, ps, low);
    dst.MakeShape();
  }

  /** Every chain but the last differs from the last. */
  lemma LastAlone(b: Buffer)
    requires b.Shape()
    ensures forall i | 0 <= i < |b.list.chains| - 1 :: b.list.chains[i] != b.last
  {}

  /** The callbacks of one buffer, then those of another. */
  method SettleBoth(a: Buffer, b: Buffer)
    requires a.Valid() && b.Valid() && a != b
    modifies a`nAdd, a`nDel, a`base, a`missed, a`log, a`truth, a`queued
    modifies b`nAdd, b`nDel, b`base, b`missed, b`log, b`truth, b`queued
    ensures a.Valid() && b.Valid()
    ensures a.Acct() == Invoke(old(a.Acct())) && b.Acct() == Invoke(old(b.Acct()))
  {
    hide Books, Invoke, Join, Chain.Data, Links, NoGaps;
    a.Settle();
    b.Settle();
  }

  /** The ends of two buffers with data. */
  lemma EndsApart(a: Buffer, b: Buffer)
    requires a.Shape() && b.Shape() && a != b && a.totalLen > 0 && b.totalLen > 0
    ensures a.first != null && a.last != null && b.first != null && b.last != null
    ensures a.first != b.last && b.first != a.last
  {
    a.NotEmpty();
    b.NotEmpty();
    Apart(a, b);
  }

  /** The front of a buffer of dstLen bytes that took the chains of another. */
  ghost predicate Joined(dst: Head, src: Head, dstLen: nat, front: bool, after: Head) {
    if dstLen == 0 then after == src
    else if front then src.Head? && after == src.(more := true)
    else dst.Head? && after == dst.(more := true)
  }

  /** dst takes all the data of src, behind or in front of its own. */
  method MoveAll(dst: Buffer, src: Buffer, front: bool)
    requires dst.Shape() && src.Shape() && dst != src && src.totalLen > 0
    modifies dst`first, dst`last, dst`lwdp, dst`totalLen, dst`list, dst.list.chains`next, dst.list.chains`seat
    modifies src`first, src`last, src`lwdp, src`totalLen, src`list, src.list.chains`next, src.list.chains`seat
    ensures dst.Shape() && src.Shape() && src.list.chains == []
    ensures src.Ahead() == Bare && Joined(old(dst.Ahead()), old(src.Ahead()), old(dst.totalLen), front, dst.Ahead())
    ensures src.Contents() == [] && src.totalLen == 0
    ensures dst.totalLen == old(dst.totalLen) + old(src.totalLen)
    ensures dst.Contents() == if front then old(src.Contents()) + old(dst.Contents())
                              else old(dst.Contents()) + old(src.Contents())
    ensures forall c | c in dst.list.chains :: c in old(dst.list.chains) || c in old(src.list.chains)
  {
    hide Join, Chain.Data, Buffer.Shape;
    dst.ShapeLength();
    if dst.totalLen == 0 {
      assert dst.Contents() == [];
      CopyChain(dst, src);
    } else {
      EndsApart(dst, src);
      if front {
        PrependChain(dst, src);
      } else {
        AppendChain(dst, src);
      }
    }
    src.first, src.last, src.lwdp, src.totalLen, src.list := null, null, null, 0, List([], [], 0);
    ZeroShape(src);
    JoinEmpty();
  }

  /** ZERO_CHAIN leaves a well-formed buffer. */
  lemma ZeroShape(b: Buffer)
    requires b.first == null && b.last == null && b.lwdp == null && b.totalLen == 0 && b.list == List([], [], 0)
    ensures b.Shape()
  {}

  ghost predicate SameFreeze(b: Buffer, start: bool, end: bool)
    reads b`freezeStart, b`freezeEnd
  {
    b.freezeStart == start && b.freezeEnd == end
  }

  /** Counts n bytes that have gone from src to dst; a and b are the accounts before. */
  method Count(dst: Buffer, src: Buffer, n: nat, ghost a: Account, ghost b: Account)
    requires dst.Shape() && src.Shape() && dst != src && Books(a) && Books(b) && n <= b.total
    requires dst.Acct() == a.(total := a.total + n) && src.Acct() == b.(total := b.total - n)
    modifies dst`nAdd, src`nDel
    ensures dst.Valid() && src.Valid() && dst.Acct() == a.Added(n) && src.Acct() == b.Removed(n)
  {
    hide Join, Chain.Data, Buffer.Shape, Books;
    AddedKeeps(a, n);
    AddedKeeps(b, n);
    src.nDel := src.nDel + n;
    dst.nAdd := dst.nAdd + n;
  }

  /** A move of all the data with its effect on the counters. */
  method MoveData(dst: Buffer, src: Buffer, front: bool)
    requires dst.Valid() && src.Valid() && dst != src && src.totalLen > 0
    modifies dst`first, dst`last, dst`lwdp, dst`totalLen, dst`list, dst`nAdd, dst.list.chains`next, dst.list.chains`seat
    modifies src`first, src`last, src`lwdp, src`totalLen, src`list, src`nDel, src.list.chains`next, src.list.chains`seat
    ensures dst.Valid() && src.Valid() && src.list.chains == [] && src.Contents() == []
    ensures src.Ahead() == Bare && Joined(old(dst.Ahead()), old(src.Ahead()), old(dst.totalLen), front, dst.Ahead())
    ensures dst.Contents() == if front then old(src.Contents()) + old(dst.Contents())
                              else old(dst.Contents()) + old(src.Contents())
    ensures dst.Acct() == old(dst.Acct()).Added(old(src.totalLen))
    ensures src.Acct() == old(src.Acct()).Removed(old(src.totalLen))
    ensures forall c | c in dst.list.chains :: c in old(dst.list.chains) || c in old(src.list.chains)
  {
    hide Join, Chain.Data, Buffer.Shape, Buffer.Ahead, Books, Joined;
    var n := src.totalLen;
    ghost var a, b := dst.Acct(), src.Acct();
    MoveAll(dst, src, front);
    Count(dst, src, n, a, b);
  }

  /** evbuffer_add_buffer */
  method AddBuffer(outbuf: Buffer, inbuf: Buffer) returns (ok: bool)
    requires outbuf.Valid() && inbuf.Valid()
    modifies outbuf, inbuf, outbuf.list.chains, inbuf.list.chains
    ensures outbuf.Valid() && inbuf.Valid()
    ensures ok == (inbuf == outbuf || old(inbuf.Contents()) == [] || !(old(outbuf.freezeEnd) || old(inbuf.freezeStart)))
    ensures if ok && inbuf != outbuf then
              outbuf.Contents() == old(outbuf.Contents()) + old(inbuf.Contents()) && inbuf.Contents() == []
            else
              outbuf.Contents() == old(outbuf.Contents()) && inbuf.Contents() == old(inbuf.Contents())
    ensures if ok && inbuf != outbuf && old(inbuf.Contents()) != [] then
              && outbuf.Acct() == Invoke(old(outbuf.Acct()).Added(old(inbuf.totalLen)))
              && inbuf.Acct() == Invoke(old(inbuf.Acct()).Removed(old(inbuf.totalLen)))
            else
              outbuf.Acct() == old(outbuf.Acct()) && inbuf.Acct() == old(inbuf.Acct())
    ensures if ok && inbuf != outbuf && old(inbuf.Contents()) != [] then
              && inbuf.Ahead() == Bare
              && Joined(old(outbuf.Ahead()), old(inbuf.Ahead()), old(outbuf.totalLen), false, outbuf.Ahead())
            else
              outbuf.Ahead() == old(outbuf.Ahead()) && inbuf.Ahead() == old(inbuf.Ahead())
    ensures SameFreeze(outbuf, old(outbuf.freezeStart), old(outbuf.freezeEnd))
    ensures SameFreeze(inbuf, old(inbuf.freezeStart), old(inbuf.freezeEnd))
    ensures forall c | c in outbuf.list.chains :: c in old(outbuf.list.chains) || c in old(inbuf.list.chains)
    ensures forall c | c in inbuf.list.chains :: c in old(outbuf.list.chains) || c in old(inbuf.list.chains)
  {
    hide Join, Chain.Data, Buffer.Shape, Buffer.Ahead, Books, Invoke, Joined;
    inbuf.ShapeFacts();
    if inbuf.totalLen == 0 || outbuf == inbuf {
      ghost var e := outbuf.Contents();
      assert e + [] == e && [] + e == e;
      return true;
    }
    if outbuf.freezeEnd || inbuf.freezeStart {
      return false;
    }
    MoveData(outbuf, inbuf, false);
    SettleBoth(inbuf, outbuf);
    ok := true;
  }

  /** evbuffer_prepend_buffer */
  method PrependBuffer(outbuf: Buffer, inbuf: Buffer) returns (ok: bool)
    requires outbuf.Valid() && inbuf.Valid()
    modifies outbuf, inbuf, outbuf.list.chains, inbuf.list.chains
    ensures outbuf.Valid() && inbuf.Valid()
    ensures ok == (inbuf == outbuf || old(inbuf.Contents()) == []
                   || !(old(outbuf.freezeStart) || old(inbuf.freezeStart)))
    ensures if ok && inbuf != outbuf then
              outbuf.Contents() == old(inbuf.Contents()) + old(outbuf.Contents()) && inbuf.Contents() == []
            else
              outbuf.Contents() == old(outbuf.Contents()) && inbuf.Contents() == old(inbuf.Contents())
    ensures if ok && inbuf != outbuf && old(inbuf.Contents()) != [] then
              && outbuf.Acct() == Invoke(old(outbuf.Acct()).Added(old(inbuf.totalLen)))
              && inbuf.Acct() == Invoke(old(inbuf.Acct()).Removed(old(inbuf.totalLen)))
            else
              outbuf.Acct() == old(outbuf.Acct()) && inbuf.Acct() == old(inbuf.Acct())
    ensures if ok && inbuf != outbuf && old(inbuf.Contents()) != [] then
              && inbuf.Ahead() == Bare
              && Joined(old(outbuf.Ahead()), old(inbuf.Ahead()), old(outbuf.totalLen), true, outbuf.Ahead())
            else
              outbuf.Ahead() == old(outbuf.Ahead()) && inbuf.Ahead() == old(inbuf.Ahead())
    ensures SameFreeze(outbuf, old(outbuf.freezeStart), old(outbuf.freezeEnd))
    ensures SameFreeze(inbuf, old(inbuf.freezeStart), old(inbuf.freezeEnd))
    ensures forall c | c in outbuf.list.chains :: c in old(outbuf.list.chains) || c in old(inbuf.list.chains)
    ensures forall c | c in inbuf.list.chains :: c in old(outbuf.list.chains) || c in old(inbuf.list.chains)
  {
    hide Join, Chain.Data, Buffer.Shape, Buffer.Ahead, Books, Invoke, Joined;
    inbuf.ShapeFacts();
    if inbuf.totalLen == 0 || outbuf == inbuf {
      ghost var e := outbuf.Contents();
      assert e + [] == e && [] + e == e;
      return true;
    }
    if outbuf.freezeStart || inbuf.freezeStart {
      return false;
    }
    MoveData(outbuf, inbuf, true);
    SettleBoth(inbuf, outbuf);
    ok := true;
  }

  /** The walk of evbuffer_remove_buffer over the chains of src that are moved whole: chain
      is the first that stays, previous the last that goes. */
  method Walk(src: Buffer, datlen: nat)
    returns (chain: Chain, previous: Chain, nread: nat, rest: nat, ghost k: nat)
    requires src.Shape() && datlen < src.totalLen
    modifies src`lwdp
    ensures k < |src.list.chains| == |src.list.parts| && chain == src.list.chains[k]
    ensures k > 0 ==> previous == src.list.chains[k - 1]
    ensures nread == |Join(src.list.parts[..k])| && nread + rest == datlen && rest < chain.off
    ensures src.lwdp == if |src.list.chains| - k <= 1 then null else src.list.chains[|src.list.chains| - 2]
  {
    hide Join, Buffer.Body;
    src.ShapeFacts();
    src.ShapeBody();
    src.NotEmpty();
    ghost var cs, ps, n := src.list.chains, src.list.parts, |src.list.chains|;
    chain, previous, nread, rest, k := src.first, src.first, 0, datlen, 0;
    JoinEmpty();
    assert ps[..0] == [];
    while chain.off <= rest
      invariant src.Body() && 0 <= k < n && chain == cs[k] && (k > 0 ==> previous == cs[k - 1])
      invariant nread == |Join(ps[..k])| && nread + rest == datlen
      invariant src.lwdp == if n <= 1 || k >= n - 1 then null else cs[n - 2]
      decreases n - k
    {
      src.OnTheWay(k, nread, rest);
      // the source asserts that the last chain with data is never moved
      assert chain != src.LastWithData();
      nread := nread + chain.off;
      rest := rest - chain.off;
      previous := chain;
      if src.lwdp == chain {
        src.lwdp := null;
      }
      chain := chain.next;
      k := k + 1;
    }
  }

  /** The two halves of a list of chains. */
  lemma Halves(b: object, cs: seq<Chain>, ps: seq<seq<Byte>>, low: int, k: nat)
    requires Holds(b, cs, ps, low) && Links(cs) && NoGaps(ps) && 0 < k < |cs|
    ensures Holds(b, cs[..k], ps[..k], low) && Holds(b, cs[k..], ps[k..], low + k)
    ensures Links(cs[..k]) && Links(cs[k..]) && NoGaps(ps[k..])
    ensures forall i | 0 <= i < k :: |ps[..k][i]| > 0
    ensures Join(ps) == Join(ps[..k]) + Join(ps[k..])
    ensures forall c | c in cs[..k] :: c !in cs[k..]
    ensures forall i | 0 <= i < k - 1 :: cs[..k][i] != cs[k - 1]
  {
    HoldsSlice(b, cs, ps, low, k);
    LinksSlice(cs, k);
    NoGapsSlice(ps, k);
    JoinSplit(ps, k);
    forall c | c in cs[..k]
      ensures c !in cs[k..]
    {
      assert c.seat.place < low + k;
    }
  }

  /** The first k chains leave src, whose last_with_datap is already mended. */
  method Detach(src: Buffer, chain: Chain, previous: Chain, nread: nat, ghost k: nat)
    returns (ghost cs: seq<Chain>, ghost ps: seq<seq<Byte>>, ghost low: int)
    requires src.Body() && 0 < k < |src.list.chains| == |src.list.parts|
    requires chain == src.list.chains[k] && previous == src.list.chains[k - 1]
    requires nread == |Join(src.list.parts[..k])|
    requires src.lwdp == if |src.list.chains| - k <= 1 then null else src.list.chains[|src.list.chains| - 2]
    modifies src`first, src`totalLen, src`list, previous`next
    ensures src.Shape() && src.list.chains == old(src.list.chains)[k..] && src.first == chain
    ensures nread <= |old(src.Contents())| && src.Contents() == old(src.Contents())[nread..]
    ensures src.totalLen == old(src.totalLen) - nread
    ensures cs == old(src.list.chains)[..k] && Sound(src, cs, ps, low)
    ensures Join(ps) == old(src.Contents())[..nread]
    ensures forall c | c in cs :: c !in src.list.chains
  {
    hide Join, Chain.Data, Holds, NoGaps;
    ghost var ds, qs := src.list.chains, src.list.parts;
    Halves(src, ds, qs, src.list.low, k);
    assert previous in ds[..k];
    cs, ps, low := ds[..k], qs[..k], src.list.low;
    previous.next := null;
    src.first := chain;
    src.list := List(ds[k..], qs[k..], low + k);
    src.totalLen := src.totalLen - nread;
  }

  /** advance_last_with_data: last_with_datap moves on to the last chain with data. */
  method AdvanceLastWithData(dst: Buffer, ghost from: nat)
    requires dst.Body() && from < |dst.list.chains|
    requires dst.lwdp == if from == 0 then null else dst.list.chains[from - 1]
    modifies dst`lwdp
    ensures dst.Shape()
  {
    hide Join, Chain.Data;
    ghost var cs := dst.list.chains;
    ghost var j := from;
    if from > 0 {
      assert cs[from - 1].next == cs[from];
    }
    var cur := dst.LastWithData();
    while cur.next != null && cur.next.off > 0
      invariant 0 <= j < |cs| && cur == cs[j]
      invariant dst.lwdp == if j == 0 then null else cs[j - 1]
      decreases |cs| - j
    {
      assert j < |cs| - 1;
      dst.lwdp := cur;
      cur := cur.next;
      j := j + 1;
    }
  }

  /** The chains cs, taken from src, take the place of the empty chain of dst, if any. */
  method GraftSole(dst: Buffer, ghost src: Buffer, first: Chain, previous: Chain, nread: nat,
                   ghost cs: seq<Chain>, ghost ps: seq<seq<Byte>>, ghost low: int)
    requires dst.Shape() && dst.totalLen == 0 && src != dst
    requires Sound(src, cs, ps, low) && cs != [] && first == cs[0] && previous == cs[|cs| - 1]
    requires nread == |Join(ps)|
    modifies dst`first, dst`last, dst`totalLen, dst`list, cs`seat
    ensures dst.Body() && dst.list.chains == cs && dst.Contents() == Join(ps) && dst.totalLen == nread
  {
    hide Join, Chain.Data, Holds, NoGaps;
    HoldsNone(dst);
    SoundGaps(src, cs, ps, low);
    Reseat(src, dst, cs, ps, low, low, [], [], 0);
    dst.first := first;
    dst.last := previous;
    dst.list := List(cs, ps, low);
    dst.totalLen := dst.totalLen + nread;
  }

  /** The chains cs, taken from src, go behind the chains of dst. */
  method GraftLast(dst: Buffer, ghost src: Buffer, first: Chain, previous: Chain, nread: nat,
                   ghost cs: seq<Chain>, ghost ps: seq<seq<Byte>>, ghost low: int)
    requires dst.Shape() && dst.totalLen > 0 && src != dst
    requires Sound(src, cs, ps, low) && cs != [] && first == cs[0] && previous == cs[|cs| - 1]
    requires nread == |Join(ps)|
    modifies dst`last, dst`totalLen, dst`list, dst.list.chains`next, cs`seat
    ensures dst.Body() && dst.list.chains == old(dst.list.chains) + cs
    ensures dst.Contents() == old(dst.Contents()) + Join(ps) && dst.totalLen == old(dst.totalLen) + nread
  {
    hide Join, Chain.Data, Holds, NoGaps, Buffer.Shape, Buffer.Body;
    dst.NotEmpty();
    dst.Ends();
    dst.LastEnds();
    LastAlone(dst);
    ghost var ds, qs, lowB := dst.list.chains, dst.list.parts, dst.list.low;
    SoundGaps(src, cs, ps, low);
    HoldsLength(dst, ds, qs, lowB);
    Elsewhere(dst, src, cs, ps, low);
    Reseat(src, dst, cs, ps, low, lowB + |ds|, ds, qs, lowB);
    dst.last.next := first;
    Glued(dst, ds, qs, cs, ps, lowB);
    dst.last := previous;
    dst.list := List(ds + cs, qs + ps, lowB);
    dst.totalLen := dst.totalLen + nread;
    dst.MakeBody();
  }

  lemma SoundGaps(b: object, cs: seq<Chain>, ps: seq<seq<Byte>>, low: int)
    requires Sound(b, cs, ps, low)
    ensures |cs| == |ps| && NoGaps(ps) && ps != [[]]
  {}

  /** Chains of another owner are none of the chains of dst. */
  lemma Elsewhere(dst: Buffer, b: object, cs: seq<Chain>, ps: seq<seq<Byte>>, low: int)
    requires dst.Shape() && Sound(b, cs, ps, low) && b != dst
    ensures dst.last != null ==> forall i | 0 <= i < |cs| :: cs[i] != dst.last
  {}

  /** The part of evbuffer_remove_buffer that links whole chains to dst: trailing empty
      chains of dst are freed first, and last_with_datap is advanced at the end. */
  method Graft(dst: Buffer, ghost src: Buffer, first: Chain, previous: Chain, nread: nat,
               ghost cs: seq<Chain>, ghost ps: seq<seq<Byte>>, ghost low: int)
    requires dst.Shape() && src != dst
    requires Sound(src, cs, ps, low) && cs != [] && first == cs[0] && previous == cs[|cs| - 1]
    requires nread == |Join(ps)|
    modifies dst`first, dst`last, dst`lwdp, dst`totalLen, dst`list, dst.list.chains`next, cs`seat
    ensures dst.Shape() && dst.totalLen == old(dst.totalLen) + nread
    ensures dst.Contents() == old(dst.Contents()) + Join(ps)
    ensures forall c | c in dst.list.chains :: c in old(dst.list.chains) || c in cs
  {
    hide Join, Chain.Data, Holds, NoGaps, Links;
    dst.LastWithDataIsLast();
    dst.ShapeFacts();
    var ch := dst.FirstVictim();
    var victim := if ch == null then dst.first else ch.next;
    ghost var from := 0;
    if dst.first == null || victim != null {
      assert dst.Contents() + Join(ps) == Join(ps);
      GraftSole(dst, src, first, previous, nread, cs, ps, low);
    } else {
      from := |dst.list.chains| - 1;
      GraftLast(dst, src, first, previous, nread, cs, ps, low);
    }
    AdvanceLastWithData(dst, from);
  }

  /** The first k chains of src go to dst. */
  method Transfer(src: Buffer, dst: Buffer, chain: Chain, previous: Chain, nread: nat, ghost k: nat)
    requires src.Body() && dst.Shape() && src != dst && 0 < k < |src.list.chains| == |src.list.parts|
    requires chain == src.list.chains[k] && previous == src.list.chains[k - 1]
    requires nread == |Join(src.list.parts[..k])|
    requires src.lwdp == if |src.list.chains| - k <= 1 then null else src.list.chains[|src.list.chains| - 2]
    requires forall c | c in dst.list.chains :: c !in src.list.chains
    modifies src`first, src`totalLen, src`list, src.list.chains`next, src.list.chains`seat
    modifies dst`first, dst`last, dst`lwdp, dst`totalLen, dst`list, dst.list.chains`next
    ensures src.Shape() && dst.Shape() && src.first == chain
    ensures src.totalLen == old(src.totalLen) - nread && dst.totalLen == old(dst.totalLen) + nread
    ensures nread <= |old(src.Contents())| && src.Contents() == old(src.Contents())[nread..]
    ensures dst.Contents() == old(dst.Contents()) + old(src.Contents())[..nread]
    ensures forall c | c in src.list.chains :: c in old(src.list.chains)
    ensures forall c | c in dst.list.chains :: c in old(dst.list.chains) || c in old(src.list.chains)
  {
    hide Join, Chain.Data, Sound, Buffer.Shape, Holds, Links, NoGaps;
    assert previous in src.list.chains;
    assert forall c | c in dst.list.chains :: allocated(c);
    var head := src.first;
    assert head == src.list.chains[0];
    ghost var cs, ps, low := Detach(src, chain, previous, nread, k);
    assert forall c | c in src.list.chains :: allocated(c);
    assert forall c | c in src.list.chains :: c in old(src.list.chains) && c !in dst.list.chains;
    label grafting:
    Graft(dst, src, head, previous, nread, cs, ps, low);
    src.ShapeKept@grafting();
  }

  /** The chains of src that fit in datlen move to dst; rest bytes are still to go. */
  method MoveChains(src: Buffer, dst: Buffer, datlen: nat) returns (nread: nat, rest: nat)
    requires src.Shape() && dst.Shape() && src != dst && datlen < src.totalLen
    modifies src`first, src`lwdp, src`totalLen, src`list, src.list.chains
    modifies dst`first, dst`last, dst`lwdp, dst`totalLen, dst`list, dst.list.chains
    ensures src.Shape() && dst.Shape() && nread + rest == datlen
    ensures src.first != null && rest < src.first.off
    ensures src.totalLen == old(src.totalLen) - nread && dst.totalLen == old(dst.totalLen) + nread
    ensures |old(src.Contents())| == old(src.totalLen)
    ensures src.Contents() == old(src.Contents())[nread..]
    ensures dst.Contents() == old(dst.Contents()) + old(src.Contents())[..nread]
    ensures forall c | c in src.list.chains :: c in old(src.list.chains)
    ensures forall c | c in dst.list.chains :: c in old(dst.list.chains) || c in old(src.list.chains)
  {
    hide Join, Chain.Data, Buffer.Shape, Buffer.Body;
    src.ShapeFacts();
    src.ShapeBody();
    Apart(dst, src);
    ghost var s, t := src.Contents(), dst.Contents();
    assert forall c | c in src.list.chains :: allocated(c);
    assert forall c | c in dst.list.chains :: allocated(c);
    var chain: Chain, previous: Chain;
    ghost var k: nat;
    chain, previous, nread, rest, k := Walk(src, datlen);
    NoneMoved(src, k);
    if nread > 0 {
      Transfer(src, dst, chain, previous, nread, k);
    } else {
      assert s[0..] == s && t + s[..0] == t;
    }
  }

  /** The chains moved hold bytes, unless none is moved. */
  lemma NoneMoved(src: Buffer, k: nat)
    requires src.Body() && k < |src.list.chains| == |src.list.parts| && src.totalLen > 0
    requires src.lwdp == if |src.list.chains| - k <= 1 then null else src.list.chains[|src.list.chains| - 2]
    ensures k == 0 <==> |Join(src.list.parts[..k])| == 0
    ensures k == 0 ==> src.Shape()
  {}

  /** Whole chains change hands, with their effect on the counters. */
  method MoveCounted(src: Buffer, dst: Buffer, datlen: nat) returns (nread: nat, rest: nat)
    requires src.Valid() && dst.Valid() && src != dst && datlen < src.totalLen
    modifies src`first, src`lwdp, src`totalLen, src`list, src`nDel, src.list.chains
    modifies dst`first, dst`last, dst`lwdp, dst`totalLen, dst`list, dst`nAdd, dst.list.chains
    ensures src.Valid() && dst.Valid() && nread + rest == datlen
    ensures src.first != null && rest < src.first.off
    ensures nread <= old(src.totalLen) == |old(src.Contents())|
    ensures src.Contents() == old(src.Contents())[nread..]
    ensures dst.Contents() == old(dst.Contents()) + old(src.Contents())[..nread]
    ensures dst.Acct() == old(dst.Acct()).Added(nread)
    ensures src.Acct() == old(src.Acct()).Removed(nread)
    ensures forall c | c in src.list.chains :: c in old(src.list.chains)
    ensures forall c | c in dst.list.chains :: c in old(dst.list.chains) || c in old(src.list.chains)
  {
    hide Join, Chain.Data, Buffer.Shape, Books;
    ghost var a, b := dst.Acct(), src.Acct();
    nread, rest := MoveChains(src, dst, datlen);
    Count(dst, src, nread, a, b);
  }

  /** The bytes that were copied leave src; dst is not touched. */
  method DropFront(src: Buffer, ghost dst: Buffer, rest: nat)
    requires src.Valid() && dst.Valid() && src != dst
    requires src.first != null && rest < src.first.off
    modifies src`totalLen, src`list, src`nDel, src.first
    ensures src.Valid() && dst.Valid() && dst.Contents() == old(dst.Contents())
    ensures rest <= old(src.totalLen) == |old(src.Contents())|
    ensures src.Contents() == old(src.Contents())[rest..]
    ensures src.Acct() == old(src.Acct()).Removed(rest) && src.list.chains == old(src.list.chains)
  {
    hide Join, Chain.Data, Buffer.Shape, Books;
    src.ShapeFacts();
    Apart(src, dst);
    AddedKeeps(src.Acct(), rest);
    src.AdvanceFirst(rest);
    src.nDel := src.nDel + rest;
    assert src.Acct() == old(src.Acct()).Removed(rest);
  }

  /** The rest of the bytes is copied out of the first chain that stays. */
  method CopyRest(src: Buffer, dst: Buffer, rest: nat)
    requires src.Valid() && dst.Valid() && src != dst && !dst.freezeEnd
    requires src.first != null && rest < src.first.off
    modifies src`totalLen, src`list, src`nDel, src.first, dst, dst.list.chains
    ensures src.Valid() && dst.Valid()
    ensures rest <= old(src.totalLen) == |old(src.Contents())|
    ensures src.Contents() == old(src.Contents())[rest..]
    ensures dst.Contents() == old(dst.Contents()) + old(src.Contents())[..rest]
    ensures dst.Acct() == Invoke(old(dst.Acct()).Added(rest))
    ensures src.Acct() == old(src.Acct()).Removed(rest)
    ensures SameFreeze(dst, old(dst.freezeStart), old(dst.freezeEnd))
    ensures SameFreeze(src, old(src.freezeStart), old(src.freezeEnd))
    ensures src.list.chains == old(src.list.chains)
    ensures forall c | c in dst.list.chains :: c in old(dst.list.chains) || fresh(c)
  {
    hide Join, Chain.Data, Buffer.Shape, Books, Invoke;
    src.ShapeFacts();
    src.FirstFront(rest);
    Apart(dst, src);
    var ok := Add(dst, src.first.Front(rest));
    src.ShapeKept();
    DropFront(src, dst, rest);
  }

  /** The case of evbuffer_remove_buffer that leaves bytes in src, up to the callbacks. */
  method RemovePart(src: Buffer, dst: Buffer, datlen: nat)
    requires src.Valid() && dst.Valid() && src != dst && !dst.freezeEnd && datlen < src.totalLen
    modifies src, src.list.chains, dst, dst.list.chains
    ensures src.Valid() && dst.Valid() && datlen <= |old(src.Contents())|
    ensures dst.Contents() == old(dst.Contents()) + old(src.Contents())[..datlen]
    ensures src.Contents() == old(src.Contents())[datlen..]
    ensures dst.Acct() == Invoke(old(dst.Acct()).Added(datlen))
    ensures src.Acct() == old(src.Acct()).Removed(datlen)
    ensures SameFreeze(dst, old(dst.freezeStart), old(dst.freezeEnd))
    ensures SameFreeze(src, old(src.freezeStart), old(src.freezeEnd))
    ensures forall c | c in src.list.chains :: c in old(src.list.chains)
    ensures forall c | c in dst.list.chains ::
              c in old(dst.list.chains) || c in old(src.list.chains) || fresh(c)
  {
    hide Join, Chain.Data, Buffer.Shape, Books, Invoke;
    ghost var s, t := src.Contents(), dst.Contents();
    var nread, rest := MoveCounted(src, dst, datlen);
    src.ShapeFacts();
    assert src.first in src.list.chains;
    assert forall i | 0 <= i < |dst.list.chains| ::
        dst.list.chains[i] in old(dst.list.chains) || dst.list.chains[i] in old(src.list.chains);
    CopyRest(src, dst, rest);
    Pieces(s, t, nread, rest);
  }

  /** evbuffer_remove_buffer */
  method RemoveBuffer(src: Buffer, dst: Buffer, datlen: nat) returns (result: int)
    requires src.Valid() && dst.Valid()
    modifies src, src.list.chains, dst, dst.list.chains
    ensures src.Valid() && dst.Valid() && |old(src.Contents())| == old(src.totalLen)
    ensures result == if datlen == 0 || dst == src then 0
                      else if old(dst.freezeEnd) || old(src.freezeStart) then -1
                      else Min(datlen, old(src.totalLen))
    ensures if result > 0 then
              && dst.Contents() == old(dst.Contents()) + old(src.Contents())[..result]
              && src.Contents() == old(src.Contents())[result..]
              && dst.Acct() == Invoke(old(dst.Acct()).Added(result))
              && src.Acct() == Invoke(old(src.Acct()).Removed(result))
            else
              && dst.Contents() == old(dst.Contents()) && src.Contents() == old(src.Contents())
              && dst.Acct() == old(dst.Acct()) && src.Acct() == old(src.Acct())
              && dst.Ahead() == old(dst.Ahead()) && src.Ahead() == old(src.Ahead())
    ensures result > 0 && result == old(src.totalLen) ==>
              src.Ahead() == Bare && Joined(old(dst.Ahead()), old(src.Ahead()), old(dst.totalLen), false, dst.Ahead())
    ensures SameFreeze(dst, old(dst.freezeStart), old(dst.freezeEnd))
    ensures SameFreeze(src, old(src.freezeStart), old(src.freezeEnd))
    ensures forall c | c in dst.list.chains :: c in old(dst.list.chains) || c in old(src.list.chains) || fresh(c)
    ensures forall c | c in src.list.chains :: c in old(dst.list.chains) || c in old(src.list.chains) || fresh(c)
  {
    hide Join, Chain.Data, Buffer.Shape, Buffer.Ahead, Books, Invoke, Joined;
    src.ShapeFacts();
    if datlen == 0 || dst == src {
      return 0;
    }
    if dst.freezeEnd || src.freezeStart {
      return -1;
    }
    ghost var s, t := src.Contents(), dst.Contents();
    if datlen >= src.totalLen {
      result := src.totalLen;
      assert s[..|s|] == s && s[|s|..] == [];
      var ok := AddBuffer(dst, src);
      return;
    }
    RemovePart(src, dst, datlen);
    SettleBoth(dst, src);
    result := datlen;
    InvokeTwice(old(dst.Acct()).Added(datlen));
  }

  lemma Pieces(s: seq<Byte>, t: seq<Byte>, m: nat, n: nat)
    requires m + n <= |s|
    ensures (t + s[..m]) + s[m..][..n] == t + s[..m + n] && s[m..][n..] == s[m + n..]
  {}
}
