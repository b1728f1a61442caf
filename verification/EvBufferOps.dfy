/** The operations on one evbuffer: add, prepend, drain, copyout, remove. */
module EvBufferOps {
  import opened Basics
  import opened Chains
  import opened Accounting
  import opened EvBuffer

  /** Gives a buffer without chains an empty one, with room for n bytes. */
  method FirstChain(buf: Buffer, n: nat)
    requires buf.Valid() && buf.first == null
    modifies buf`first, buf`last, buf`lwdp, buf`totalLen, buf`list
    ensures buf.Valid() && buf.first != null && buf.last != null
    ensures buf.Contents() == old(buf.Contents()) && buf.Acct() == old(buf.Acct())
    ensures buf.Spill(n) == 0
    ensures buf.list.chains == [buf.first] && fresh(buf.first)
    ensures buf.last == buf.first && buf.first.misalign == buf.first.off == 0 && |buf.first.buffer| >= n
  {
    hide Join, Chain.Data, Buffer.Shape, Books, Invoke;
    buf.ShapeFacts();
    var c := new Chain(n);
    buf.ChainInsert(c);
    buf.ShapeFacts();
  }

  /** Stores data in the spare room of the last chain. */
  method TopUp(buf: Buffer, data: seq<Byte>)
    requires buf.Valid() && buf.last != null
    requires buf.last.misalign + buf.last.off + |data| <= |buf.last.buffer|
    modifies buf`totalLen, buf`list, buf`nAdd, buf.last`off, buf.last`buffer
    ensures buf.Valid() && buf.list.chains == old(buf.list.chains)
    ensures buf.Contents() == old(buf.Contents()) + data
    ensures buf.Acct() == old(buf.Acct()).Added(|data|)
    ensures buf.last.off == old(buf.last.off) + |data|
  {
    hide Join, Chain.Data, Buffer.Shape, Books;
    buf.ShapeFacts();
    AddedKeeps(buf.Acct(), |data|);
    buf.FillLast(data);
    buf.nAdd := buf.nAdd + |data|;
  }

  /** Fills a chain and puts it at the end; a first chain with data stays the first. */
  method LinkFilled(buf: Buffer, tmp: Chain, data: seq<Byte>)
    requires buf.Shape() && data != [] && tmp.seat.owner != buf
    requires tmp.Ok() && tmp.next == null && tmp.misalign == tmp.off == 0 && |tmp.buffer| >= |data|
    modifies buf`first, buf`last, buf`lwdp, buf`totalLen, buf`list, buf.list.chains`next
    modifies tmp`off, tmp`buffer, tmp`seat
    ensures buf.Shape() && buf.first != null
    ensures buf.Contents() == old(buf.Contents()) + data && buf.totalLen == old(buf.totalLen) + |data|
    ensures forall c | c in buf.list.chains :: c in old(buf.list.chains) || c == tmp
    ensures old(buf.first) != null && old(buf.first.off) > 0 ==> buf.first == old(buf.first) != buf.last
  {
    hide Join, Chain.Data, Chain.Ok, Buffer.Shape, Buffer.Spare;
    buf.ShapeFacts();
    buf.NotMine(tmp);
    if buf.first != null {
      buf.EmptyFirst();
    }
    tmp.Fill(data);
    buf.ChainInsert(tmp);
    buf.ShapeFacts();
  }

  /** Stores data in a chain of its own at the end. */
  method Push(buf: Buffer, tmp: Chain, data: seq<Byte>)
    requires buf.Valid() && data != [] && tmp.seat.owner != buf
    requires tmp.Ok() && tmp.next == null && tmp.misalign == tmp.off == 0 && |tmp.buffer| >= |data|
    modifies buf`first, buf`last, buf`lwdp, buf`totalLen, buf`list, buf`nAdd, buf.list.chains`next
    modifies tmp`off, tmp`buffer, tmp`seat
    ensures buf.Valid() && buf.first != null
    ensures buf.Contents() == old(buf.Contents()) + data
    ensures buf.Acct() == old(buf.Acct()).Added(|data|)
    ensures forall c | c in buf.list.chains :: c in old(buf.list.chains) || c == tmp
    ensures old(buf.first) != null && old(buf.first.off) > 0 ==> buf.first == old(buf.first) != buf.last
  {
    hide Join, Chain.Data, Chain.Ok, Buffer.Shape, Books;
    AddedKeeps(buf.Acct(), |data|);
    LinkFilled(buf, tmp, data);
    buf.nAdd := buf.nAdd + |data|;
  }

  /** The size to ask for when the last chain has len bytes and n are to be added. */
  function GrowSize(len: nat, n: nat): (r: nat)
    ensures r >= n && r >= len && (len <= EVBUFFER_CHAIN_MAX_AUTO_SIZE / 2 ==> r >= 2 * len)
    ensures r > n ==> r == len || (r == 2 * len && len <= EVBUFFER_CHAIN_MAX_AUTO_SIZE / 2)
  {
    var toAlloc := if len <= EVBUFFER_CHAIN_MAX_AUTO_SIZE / 2 then len * 2 else len;
    if n > toAlloc then n else toAlloc
  }

  /** Stores what fits in the last chain, and the rest in a new one. */
  method Overflow(buf: Buffer, data: seq<Byte>, remain: nat)
    requires buf.Valid() && buf.first != null && buf.last != null
    requires buf.last.misalign + buf.last.off + remain == |buf.last.buffer| && remain < |data|
    modifies buf`first, buf`last, buf`lwdp, buf`totalLen, buf`list, buf`nAdd, buf.list.chains
    ensures buf.Valid() && buf.first != null
    ensures buf.Contents() == old(buf.Contents()) + data
    ensures buf.Acct() == old(buf.Acct()).Added(|data|)
    ensures forall c | c in buf.list.chains :: c in old(buf.list.chains) || fresh(c)
    ensures old(buf.Ahead()).Added(|data|, buf.Ahead())
  {
    hide Join, Chain.Data, Buffer.Shape, Books;
    buf.ShapeFacts();
    buf.EmptyFirst();
    var tmp := new Chain(GrowSize(|buf.last.buffer|, |data|));
    if remain > 0 {
      TopUp(buf, data[..remain]);
    }
    assert data[..remain] + data[remain..] == data;
    assert buf.Contents() == old(buf.Contents()) + data[..remain];
    Push(buf, tmp, data[remain..]);
  }

  /** The part of evbuffer_add that stores the data, once there is a last chain: in its
      spare room, in the room gained by realigning it, or in part in a new chain. */
  method AddToLast(buf: Buffer, data: seq<Byte>)
    requires buf.Valid() && buf.last != null
    modifies buf`first, buf`last, buf`lwdp, buf`totalLen, buf`list, buf`nAdd, buf.list.chains
    ensures buf.Valid()
    ensures buf.Contents() == old(buf.Contents()) + data
    ensures buf.Acct() == old(buf.Acct()).Added(|data|)
    ensures forall c | c in buf.list.chains :: c in old(buf.list.chains) || fresh(c)
    ensures |old(buf.last.buffer)| - old(buf.last.misalign + buf.last.off) >= |data| ==>
              && buf.list.chains == old(buf.list.chains) && buf.first == old(buf.first) && buf.last == old(buf.last)
              && buf.last.misalign == old(buf.last.misalign) && buf.last.off == old(buf.last.off) + |data|
    ensures old(buf.first) != null && old(buf.Ahead()).Added(|data|, buf.Ahead())
  {
    hide Join, Chain.Data, Buffer.Shape, Books, Invoke;
    buf.ShapeFacts();
    var chain := buf.last;
    buf.PartAt(|buf.list.chains| - 1);
    buf.EmptyFirst();
    var remain := |chain.buffer| - chain.misalign - chain.off;
    if remain >= |data| {
      TopUp(buf, data);
    } else if chain.ShouldRealign(|data|) {
      buf.AlignLast();
      TopUp(buf, data);
    } else {
      Overflow(buf, data, remain);
    }
  }

  /** evbuffer_add */
  method Add(buf: Buffer, data: seq<Byte>) returns (ok: bool)
    requires buf.Valid()
    modifies buf, buf.list.chains
    ensures buf.Valid()
    ensures ok == !old(buf.freezeEnd)
    ensures buf.Contents() == if ok then old(buf.Contents()) + data else old(buf.Contents())
    ensures buf.Acct() == if ok then Invoke(old(buf.Acct()).Added(|data|)) else old(buf.Acct())
    ensures buf.freezeStart == old(buf.freezeStart) && buf.freezeEnd == old(buf.freezeEnd)
    ensures forall c | c in buf.list.chains :: c in old(buf.list.chains) || fresh(c)
    ensures if ok then old(buf.Ahead()).Added(|data|, buf.Ahead()) else buf.Ahead() == old(buf.Ahead())
  {
    hide Join, Chain.Data, Buffer.Shape, Books, Invoke;
    buf.ShapeFacts();
    if buf.freezeEnd {
      return false;
    }
    if buf.last == null {
      FirstChain(buf, |data|);
    }
    AddToLast(buf, data);
    buf.Settle();
    ok := true;
  }

  /** Stores data in front of the data of the first chain. */
  method TopUpFront(buf: Buffer, data: seq<Byte>)
    requires buf.Valid() && buf.first != null && |data| <= buf.first.misalign
    modifies buf`totalLen, buf`list, buf`nAdd, buf.first`off, buf.first`misalign, buf.first`buffer
    ensures buf.Valid() && buf.list.chains == old(buf.list.chains)
    ensures buf.first.misalign == old(buf.first.misalign) - |data| && buf.first.off == old(buf.first.off) + |data|
    ensures |buf.first.buffer| == |old(buf.first.buffer)|
    ensures data != [] ==> buf.list.parts != [[]]
    ensures buf.Contents() == data + old(buf.Contents())
    ensures buf.Acct() == old(buf.Acct()).Added(|data|)
  {
    hide Join, Chain.Data, Buffer.Shape, Books;
    buf.ShapeFacts();
    AddedKeeps(buf.Acct(), |data|);
    buf.FillFirst(data);
    buf.nAdd := buf.nAdd + |data|;
  }

  /** Puts a new chain, filled from its far end, in front. */
  method LinkFilledFirst(buf: Buffer, data: seq<Byte>)
    requires buf.Shape() && buf.first != null && data != [] && buf.list.parts != [[]]
    modifies buf`first, buf`lwdp, buf`totalLen, buf`list
    ensures buf.Shape() && buf.first != null && buf.first.off == |data| && buf.first != buf.last
    ensures buf.Contents() == data + old(buf.Contents()) && buf.totalLen == old(buf.totalLen) + |data|
    ensures forall c | c in buf.list.chains :: c in old(buf.list.chains) || fresh(c)
  {
    hide Join, Chain.Data, Buffer.Shape;
    buf.ShapeFacts();
    var tmp := new Chain(|data|);
    tmp.FillBack(data);
    buf.LinkFirst(tmp);
  }

  /** The part of evbuffer_prepend that needs a new chain, filled from its far end.  The
      counter is advanced by the headroom of the old first chain, which is used up. */
  method PushFront(buf: Buffer, data: seq<Byte>)
    requires buf.Valid() && buf.first != null && buf.first.misalign == 0
    requires data != [] && buf.list.parts != [[]]
    modifies buf`first, buf`lwdp, buf`totalLen, buf`list, buf`nAdd, buf`missed
    ensures buf.Valid()
    ensures buf.Contents() == data + old(buf.Contents())
    ensures buf.Acct() == old(buf.Acct()).Spilled(|data|)
    ensures buf.first != null && buf.first.off == |data| && buf.first != buf.last
    ensures forall c | c in buf.list.chains :: c in old(buf.list.chains) || fresh(c)
  {
    hide Join, Chain.Data, Chain.Ok, Buffer.Shape, Books;
    AddedKeeps(buf.Acct(), |data|);
    var chain := buf.first;
    LinkFilledFirst(buf, data);
    buf.nAdd := buf.nAdd + chain.misalign;
    buf.missed := buf.missed + |data|;
  }

  /** The part of evbuffer_prepend that stores the data, once there is a first chain. */
  method PrependToFirst(buf: Buffer, data: seq<Byte>)
    requires buf.Valid() && buf.first != null
    modifies buf`first, buf`lwdp, buf`totalLen, buf`list, buf`nAdd, buf`missed, buf.list.chains
    ensures buf.Valid()
    ensures buf.Contents() == data + old(buf.Contents())
    ensures var spill := old(buf.Spill(|data|));
            buf.Acct() == old(buf.Acct()).Added(|data| - spill).Spilled(spill)
    ensures old(buf.Ahead()).Prepended(|data|, buf.Ahead())
    ensures forall c | c in buf.list.chains :: c in old(buf.list.chains) || fresh(c)
  {
    hide Join, Chain.Data, Buffer.Shape, Books, Invoke;
    buf.ShapeFacts();
    buf.PartAt(0);
    buf.EmptyFirst();
    if buf.first.off == 0 {
      buf.SlideEmptyFirst();
    }
    var room := buf.first.misalign;
    if room >= |data| {
      TopUpFront(buf, data);
    } else {
      var rest := |data| - room;
      if room > 0 {
        TopUpFront(buf, data[rest..]);
      }
      assert buf.Contents() == data[rest..] + old(buf.Contents());
      assert data == data[..rest] + data[rest..];
      PushFront(buf, data[..rest]);
    }
  }

  /** evbuffer_prepend */
  method Prepend(buf: Buffer, data: seq<Byte>) returns (ok: bool)
    requires buf.Valid()
    modifies buf, buf.list.chains
    ensures buf.Valid()
    ensures ok == !old(buf.freezeStart)
    ensures buf.Contents() == if ok then data + old(buf.Contents()) else old(buf.Contents())
    ensures var spill := old(buf.Spill(|data|));
            buf.Acct() == if ok then Invoke(old(buf.Acct()).Added(|data| - spill).Spilled(spill)) else old(buf.Acct())
    ensures if ok then old(buf.Ahead()).Prepended(|data|, buf.Ahead()) else buf.Ahead() == old(buf.Ahead())
    ensures buf.freezeStart == old(buf.freezeStart) && buf.freezeEnd == old(buf.freezeEnd)
    ensures forall c | c in buf.list.chains :: c in old(buf.list.chains) || fresh(c)
  {
    hide Join, Chain.Data, Buffer.Shape, Books, Invoke;
    buf.ShapeFacts();
    if buf.freezeStart {
      return false;
    }
    if buf.first == null {
      FirstChain(buf, |data|);
    }
    PrependToFirst(buf, data);
    buf.Settle();
    ok := true;
  }

  /** Forgets the first len bytes. */
  method DropBytes(buf: Buffer, len: nat)
    requires buf.Shape() && len <= buf.totalLen
    modifies buf`first, buf`last, buf`lwdp, buf`totalLen, buf`list
    modifies buf.list.chains`off, buf.list.chains`misalign
    ensures buf.Shape() && buf.totalLen == old(buf.totalLen) - len
    ensures |old(buf.Contents())| == old(buf.totalLen) && buf.Contents() == old(buf.Contents())[len..]
    ensures forall c | c in buf.list.chains :: c in old(buf.list.chains)
    ensures old(buf.totalLen) > 0 ==> old(buf.Ahead()).Drained(len, old(buf.totalLen), buf.Ahead())
  {
    hide Join, Chain.Data, Buffer.Shape;
    buf.ShapeFacts();
    if len >= buf.totalLen {
      buf.ZeroChain();
      buf.ShapeFacts();
    } else {
      buf.DropFront(len);
    }
  }

  /** The part of evbuffer_drain that removes len bytes, without the callbacks. */
  method Discard(buf: Buffer, len: nat)
    requires buf.Valid() && len <= buf.totalLen
    modifies buf`first, buf`last, buf`lwdp, buf`totalLen, buf`list, buf`nDel
    modifies buf.list.chains`off, buf.list.chains`misalign
    ensures buf.Valid()
    ensures |old(buf.Contents())| == old(buf.totalLen) && buf.Contents() == old(buf.Contents())[len..]
    ensures buf.Acct() == old(buf.Acct()).Removed(len)
    ensures forall c | c in buf.list.chains :: c in old(buf.list.chains)
    ensures old(buf.totalLen) > 0 ==> old(buf.Ahead()).Drained(len, old(buf.totalLen), buf.Ahead())
  {
    hide Join, Chain.Data, Buffer.Shape, Books;
    AddedKeeps(buf.Acct(), len);
    DropBytes(buf, len);
    buf.nDel := buf.nDel + len;
  }

  /** evbuffer_drain */
  method Drain(buf: Buffer, len: nat) returns (ok: bool)
    requires buf.Valid()
    modifies buf, buf.list.chains
    ensures buf.Valid()
    ensures ok == (old(buf.Contents()) == [] || !old(buf.freezeStart))
    ensures buf.Contents() == if ok then DropUpTo(old(buf.Contents()), len) else old(buf.Contents())
    ensures buf.Acct() == if ok && old(buf.Contents()) != []
                          then Invoke(old(buf.Acct()).Removed(Min(len, old(buf.totalLen))))
                          else old(buf.Acct())
    ensures buf.freezeStart == old(buf.freezeStart) && buf.freezeEnd == old(buf.freezeEnd)
    ensures forall c | c in buf.list.chains :: c in old(buf.list.chains)
    ensures if ok then old(buf.Ahead()).Drained(len, old(buf.totalLen), buf.Ahead())
            else buf.Ahead() == old(buf.Ahead())
  {
    hide Join, Chain.Data, Buffer.Shape, Books, Invoke;
    buf.ShapeFacts();
    if buf.totalLen == 0 {
      return true;
    }
    if buf.freezeStart {
      return false;
    }
    Discard(buf, if len >= buf.totalLen then buf.totalLen else len);
    buf.Settle();
    ok := true;
  }

  /** The loop of evbuffer_copyout: the first want bytes, chain by chain. */
  method Gather(buf: Buffer, want: nat) returns (data: seq<Byte>)
    requires buf.Shape() && want <= buf.totalLen
    ensures |buf.Contents()| == buf.totalLen && data == buf.Contents()[..want]
  {
    hide Join, NoGaps, Chain.Data, Chain.Front;
    ghost var ps, cs := buf.list.parts, buf.list.chains;
    buf.ShapeFacts();
    JoinEmpty();
    data := [];
    var chain := buf.first;
    var datlen: nat := want;
    ghost var k := 0;
    assert ps[..0] == [];
    while datlen > 0 && datlen >= chain.off
      invariant 0 <= k <= |cs| && data == Join(ps[..k]) && |data| + datlen == want
      invariant chain == if k < |cs| then cs[k] else null
      invariant datlen > 0 ==> k < |cs|
      decreases |cs| - k
    {
      assert ps[k] == chain.Data();
      JoinTake(ps, k);
      data := data + chain.Front(chain.off);
      datlen := datlen - chain.off;
      k := k + 1;
      chain := chain.next;
      if k == |cs| {
        JoinWhole(ps);
      } else {
        assert cs[k - 1].next == cs[k];
      }
      assert chain != null || datlen == 0;
    }
    if datlen > 0 {
      assert ps[k] == chain.Data();
      JoinPrefix(ps, k, datlen);
      data := data + chain.Front(datlen);
    } else {
      JoinFirst(ps, k);
    }
  }

  /** evbuffer_copyout: the number of bytes copied, or -1, and the bytes copied. */
  method CopyOut(buf: Buffer, datlen: nat) returns (n: int, data: seq<Byte>)
    requires buf.Valid()
    ensures n == -1 <==> buf.freezeStart && datlen > 0 && buf.Contents() != []
    ensures n != -1 ==> n == |data| && data == TakeUpTo(buf.Contents(), datlen)
    ensures n == -1 ==> data == []
  {
    hide Join, Chain.Data, Buffer.Shape, Books;
    buf.ShapeFacts();
    var want := if datlen >= buf.totalLen then buf.totalLen else datlen;
    if want == 0 {
      return 0, [];
    }
    if buf.freezeStart {
      return -1, [];
    }
    data := Gather(buf, want);
    n := want;
  }

  /** evbuffer_remove */
  method Remove(buf: Buffer, datlen: nat) returns (n: int, data: seq<Byte>)
    requires buf.Valid()
    modifies buf, buf.list.chains
    ensures buf.Valid()
    ensures n == -1 <==> old(buf.freezeStart) && datlen > 0 && old(buf.Contents()) != []
    ensures n != -1 ==> n == |data| && data == TakeUpTo(old(buf.Contents()), datlen)
    ensures n != -1 ==> buf.Contents() == DropUpTo(old(buf.Contents()), datlen)
    ensures n == -1 ==> buf.Contents() == old(buf.Contents()) && data == []
    ensures buf.Acct() == if n > 0 then Invoke(old(buf.Acct()).Removed(Min(datlen, old(buf.totalLen))))
                          else old(buf.Acct())
    ensures buf.freezeStart == old(buf.freezeStart) && buf.freezeEnd == old(buf.freezeEnd)
    ensures forall c | c in buf.list.chains :: c in old(buf.list.chains)
    ensures if n > 0 then old(buf.Ahead()).Drained(datlen, old(buf.totalLen), buf.Ahead())
            else buf.Ahead() == old(buf.Ahead())
  {
    hide Join, Chain.Data, Buffer.Shape, Books, Invoke;
    buf.ShapeFacts();
    n, data := CopyOut(buf, datlen);
    if n > 0 {
      var ok := Drain(buf, n);
      assert ok;
    }
  }

  function Min(a: nat, b: nat): (r: nat) {
    if a <= b then a else b
  }

  function DropUpTo(s: seq<Byte>, n: nat): (r: seq<Byte>) {
    s[Min(n, |s|)..]
  }

  function TakeUpTo(s: seq<Byte>, n: nat): (r: seq<Byte>) {
    s[..Min(n, |s|)]
  }

  /** What is taken and what is left when n bytes are asked for. */
  lemma Amounts(s: seq<Byte>, n: nat)
    ensures |TakeUpTo(s, n)| == Min(n, |s|) <= |s|
    ensures TakeUpTo(s, n) == [] <==> n == 0 || s == []
    ensures TakeUpTo(s, n) == s[..Min(n, |s|)] && DropUpTo(s, n) == s[Min(n, |s|)..]
    ensures n == 0 || s == [] ==> DropUpTo(s, n) == s
  {}

  /** The account after a removal, in the terms of the operations. */
  lemma CutIs(a: Account, n: nat)
    ensures Min(n, a.total) <= a.total && Cut(a, n) == Invoke(a.Removed(Min(n, a.total)))
    ensures Cut(a, Min(n, a.total)) == Cut(a, n)
  {
    hide Invoke;
  }
}
