/** evbuffer_pullup: makes the first bytes of a buffer contiguous. */
module EvBufferPullup {
  import opened Basics
  import opened Chains
  import opened Accounting
  import opened EvBuffer

  /** The copying loop: tmp receives, from position start on, every chain that is needed
      in full.  Reports whether the last chain with data, and the chain whose next field
      last_with_datap points at, were among them. */
  method CopyWhole(buf: Buffer, tmp: Chain, start: nat, need: nat,
                   ghost cs: seq<Chain>, ghost ps: seq<seq<Byte>>, ghost low: int, head: Chain)
    returns (chain: Chain?, at: nat, size: nat, removedLast: bool, removedLastP: bool, ghost m: nat)
    requires Sound(buf, cs, ps, low) && cs != [] && head == cs[0] && tmp !in cs
    requires start + need <= |tmp.buffer| && 0 < need <= |Join(ps)|
    requires buf.lwdp != null && buf.lwdp.next == cs[|cs| - 1]
    modifies tmp`buffer
    ensures |tmp.buffer| == |old(tmp.buffer)| && tmp.buffer[..start] == old(tmp.buffer)[..start]
    ensures m <= |cs| == |ps| && chain == (if m < |cs| then cs[m] else null)
    ensures start <= at <= |tmp.buffer| && tmp.buffer[start..at] == Join(ps[..m])
    ensures at - start + size == need
    ensures if m < |cs| then size < |ps[m]| else size == 0
    ensures removedLast == (m == |cs|)
    ensures removedLastP == (exists i | 0 <= i < m :: cs[i] == buf.lwdp)
    ensures Sound(buf, cs, ps, low)
  {
    hide Join, Chain.Data, Chain.Front;
    var lastWithData := buf.LastWithData();
    chain, at, size := head, start, need;
    removedLast, removedLastP := false, false;
    m := 0;
    assert ps[..0] == [];
    JoinEmpty();
    while chain != null && size >= chain.off
      invariant 0 <= m <= |cs| && chain == (if m < |cs| then cs[m] else null)
      invariant |tmp.buffer| == |old(tmp.buffer)| && tmp.buffer[..start] == old(tmp.buffer)[..start]
      invariant start <= at <= |tmp.buffer| && tmp.buffer[start..at] == Join(ps[..m])
      invariant at - start + size == need
      invariant removedLast == (m == |cs|)
      invariant removedLastP == (exists i | 0 <= i < m :: cs[i] == buf.lwdp)
      decreases |cs| - m
    {
      assert ps[m] == chain.Data();
      JoinTake(ps, m);
      var next := chain.next;
      tmp.Write(at, chain.Front(chain.off));
      size := size - chain.off;
      at := at + chain.off;
      if chain == lastWithData {
        removedLast := true;
      }
      if chain == buf.lwdp {
        removedLastP := true;
      }
      m := m + 1;
      chain := next;
    }
    if m == |cs| {
      JoinWhole(ps);
    }
  }

  /** The list once tmp, holding d, stands in front of the sound rest. */
  lemma Headed(b: object, tmp: Chain, d: seq<Byte>, cs: seq<Chain>, ps: seq<seq<Byte>>, low: int)
    requires Sound(b, cs, ps, low) && |d| > 0
    requires tmp.seat == Seat(b, low - 1) && tmp.Ok() && tmp.Data() == d
    requires tmp.next == if cs == [] then null else cs[0]
    ensures Holds(b, [tmp] + cs, [d] + ps, low - 1) && Links([tmp] + cs) && NoGaps([d] + ps)
    ensures ([tmp] + cs)[|cs|].next == null
  {}

  /** The first chain of a sound list gives up n bytes, but not all. */
  method Trim(b: object, chain: Chain, n: nat, ghost cs: seq<Chain>, ghost ps: seq<seq<Byte>>, ghost low: int)
    requires Sound(b, cs, ps, low) && cs != [] && chain == cs[0] && n < chain.off
    modifies chain`off, chain`misalign
    ensures Sound(b, cs, ps[0 := ps[0][n..]], low)
  {
    hide Chain.Data;
    chain.Advance(n);
    forall i | 0 < i < |cs|
      ensures cs[i].seat == Seat(b, low + i) && cs[i].Ok() && cs[i].Data() == ps[i]
    {
      assert cs[i] != chain;
    }
  }

  /** The pointers as the rest of evbuffer_pullup leaves them. */
  method Relink(buf: Buffer, tmp: Chain, chain: Chain?, removedLast: bool, removedLastP: bool,
                ghost d: seq<Byte>, ghost cs: seq<Chain>, ghost ps: seq<seq<Byte>>, ghost low: int)
    requires Sound(buf, cs, ps, low) && |d| > 0 && tmp !in cs && buf.first == tmp
    requires tmp.Ok() && tmp.Data() == d && chain == if cs == [] then null else cs[0]
    requires cs == [] ==> removedLast
    requires cs != [] ==> buf.last == cs[|cs| - 1] && !removedLast
    requires |cs| == 1 ==> removedLastP || buf.lwdp == tmp
    requires |cs| > 1 ==> !removedLastP && buf.lwdp == cs[|cs| - 2]
    requires buf.totalLen == |d + Join(ps)|
    modifies buf`last, buf`lwdp, buf`list, tmp`next, tmp`seat
    ensures buf.Shape()
    ensures buf.list.chains == [tmp] + cs && buf.Contents() == d + Join(ps)
  {
    hide Join, Chain.Data, Holds, Links, NoGaps;
    HeadHolds(buf, cs, ps, low);
    if chain == null {
      buf.last := tmp;
    }
    tmp.next := chain;
    tmp.seat := Seat(buf, low - 1);
    if removedLast {
      buf.lwdp := null;
    } else if removedLastP {
      buf.lwdp := if buf.first.next != null && buf.first.next.off > 0 then buf.first else null;
    }
    Headed(buf, tmp, d, cs, ps, low);
    JoinConcat([d], ps);
    JoinOne(d);
    buf.list := List([tmp] + cs, [d] + ps, low - 1);
  }

  lemma HeadHolds(b: object, cs: seq<Chain>, ps: seq<seq<Byte>>, low: int)
    requires Sound(b, cs, ps, low)
    ensures |cs| == |ps|
    ensures cs != [] ==> cs[0].Ok() && cs[0].Data() == ps[0] && cs[0].off == |ps[0]| > 0
  {}

  /** Memory s1 is s0 with tail written behind two adjacent pieces. */
  lemma Assembled(s0: seq<Byte>, s1: seq<Byte>, i: nat, start: nat, at: nat,
                  pre: seq<Byte>, mid: seq<Byte>, tail: seq<Byte>)
    requires i <= start <= at <= at + |tail| <= |s0| && s0[i..start] == pre && s0[start..at] == mid
    requires s1 == s0[..at] + tail + s0[at + |tail|..]
    ensures |s1| == |s0| && s1[i..at + |tail|] == pre + mid + tail
  {}

  /** Whether the chain before the last is among the first m. */
  lemma Removal(b: object, cs: seq<Chain>, ps: seq<seq<Byte>>, low: int, m: nat)
    requires Sound(b, cs, ps, low) && m <= |cs|
    ensures |cs| > 1 ==> ((exists i | 0 <= i < m :: cs[i] == cs[|cs| - 2]) <==> m > |cs| - 2)
  {}

  /** The end of the copying: tmp receives the last size bytes from the chain that stays. */
  method CopyPart(buf: Buffer, tmp: Chain, chain: Chain?, at: nat, size: nat, ghost start: nat,
                  ghost pre: seq<Byte>, ghost mid: seq<Byte>,
                  ghost cs: seq<Chain>, ghost ps: seq<seq<Byte>>, ghost low: int)
    returns (ghost d: seq<Byte>, ghost qs: seq<seq<Byte>>)
    requires Sound(buf, cs, ps, low) && tmp !in cs && chain == if cs == [] then null else cs[0]
    requires if cs == [] then size == 0 else size < |ps[0]|
    requires tmp.Ok() && tmp.misalign <= start <= at && at + size == tmp.misalign + tmp.off
    requires tmp.buffer[tmp.misalign..start] == pre && tmp.buffer[start..at] == mid
    modifies tmp`buffer, cs`off, cs`misalign
    ensures |tmp.buffer| == |old(tmp.buffer)| && tmp.Ok() && tmp.Data() == d
    ensures Sound(buf, cs, qs, low) && d + Join(qs) == pre + mid + Join(ps)
  {
    hide Join, Holds, Links, Chain.Front;
    HeadHolds(buf, cs, ps, low);
    if chain == null {
      Assembled(tmp.buffer, tmp.buffer, tmp.misalign, start, at, pre, mid, []);
      d, qs := pre + mid, ps;
    } else {
      var tail := chain.Front(size);
      ghost var s0 := tmp.buffer;
      tmp.Write(at, tail);
      Assembled(s0, tmp.buffer, tmp.misalign, start, at, pre, mid, tail);
      JoinTrimFirst(ps, size);
      d, qs := pre + mid + tail, ps[0 := ps[0][size..]];
      assert Join(ps) == tail + Join(qs) by {
        JoinHead(ps, size);
      }
      Trim(buf, chain, size, cs, ps, low);
    }
  }

  lemma JoinHead(ps: seq<seq<Byte>>, n: nat)
    requires ps != [] && n <= |ps[0]|
    ensures Join(ps) == ps[0][..n] + Join(ps[0 := ps[0][n..]])
  {}

  /** tmp, which holds pre already, takes need more bytes from the chains cs. */
  method Absorb(buf: Buffer, tmp: Chain, need: nat, head: Chain,
                ghost pre: seq<Byte>, ghost cs: seq<Chain>, ghost ps: seq<seq<Byte>>, ghost low: int)
    requires Sound(buf, cs, ps, low) && cs != [] && head == cs[0] && tmp !in cs
    requires tmp.Ok() && tmp.off == |pre| + need
    requires tmp.buffer[tmp.misalign..tmp.misalign + |pre|] == pre
    requires 0 < need <= |Join(ps)|
    requires buf.first == tmp && buf.last == cs[|cs| - 1]
    requires buf.lwdp == (if |cs| > 1 then cs[|cs| - 2] else tmp) && buf.lwdp.next == cs[|cs| - 1]
    requires buf.totalLen == |pre + Join(ps)|
    modifies buf`last, buf`lwdp, buf`list, tmp`next, tmp`seat, tmp`buffer, cs`off, cs`misalign
    ensures buf.Shape()
    ensures buf.Contents() == pre + Join(ps)
    ensures tmp.Ok() && tmp.Data() == (pre + Join(ps))[..tmp.off]
    ensures forall c | c in buf.list.chains :: c in cs || c == tmp
  {
    hide Join, Holds, Links, Chain.Data;
    var start := tmp.misalign + tmp.off - need;
    ghost var s0 := tmp.buffer;
    var chain, at, size, removedLast, removedLastP, m := CopyWhole(buf, tmp, start, need, cs, ps, low, head);
    assert tmp.buffer[tmp.misalign..start] == tmp.buffer[..start][tmp.misalign..];
    SoundSlice(buf, cs, ps, low, m);
    Removal(buf, cs, ps, low, m);
    JoinSplit(ps, m);
    ghost var rest := cs[m..];
    ghost var d, qs := CopyPart(buf, tmp, chain, at, size, start, pre, Join(ps[..m]), rest, ps[m..], low + m);
    assert d + Join(qs) == pre + Join(ps);
    Relink(buf, tmp, chain, removedLast, removedLastP, d, rest, qs, low + m);
  }

  /** A list of several chains has no empty one. */
  lemma Several(buf: Buffer)
    requires buf.Shape() && |buf.list.chains| > 1
    ensures Sound(buf, buf.list.chains, buf.list.parts, buf.list.low)
    ensures buf.lwdp != null && buf.lwdp.next == buf.last && buf.first != buf.last
    ensures buf.list.chains[0].next == buf.list.chains[1]
  {}

  /** The first bytes of a buffer are split over several chains. */
  lemma Split(buf: Buffer, size: nat)
    requires buf.Shape() && buf.first != null && buf.first.off < size <= buf.totalLen
    ensures |buf.list.chains| > 1
  {
    if |buf.list.chains| == 1 {
      assert buf.list.parts == [buf.list.parts[0]];
      JoinOne(buf.list.parts[0]);
    }
  }

  /** The case of evbuffer_pullup where the first chain has room for size bytes. */
  method PullIntoFirst(buf: Buffer, size: nat)
    requires buf.Shape() && buf.first != null && buf.first.off < size <= buf.totalLen
    requires size <= |buf.first.buffer| - buf.first.misalign
    modifies buf`last, buf`lwdp, buf`list, buf.list.chains
    ensures buf.Shape() && buf.first == old(buf.first) && buf.first.off == size && buf.first.Ok()
    ensures |buf.Contents()| == buf.totalLen && buf.Contents() == old(buf.Contents())
    ensures buf.first.Data() == buf.Contents()[..size]
    ensures forall c | c in buf.list.chains :: c in old(buf.list.chains)
  {
    hide Join, Chain.Data;
    Split(buf, size);
    Several(buf);
    ghost var cs, ps, low := buf.list.chains, buf.list.parts, buf.list.low;
    var tmp := buf.first;
    var head := tmp.next;
    var oldOff := tmp.off;
    ghost var pre := tmp.Front(oldOff);
    SoundSlice(buf, cs, ps, low, 1);
    JoinSplit(ps, 1);
    assert ps[..1] == [ps[0]];
    JoinOne(ps[0]);
    assert forall i | 0 < i < |cs| :: cs[i] != tmp;
    tmp.off := size;
    Absorb(buf, tmp, size - oldOff, head, pre, cs[1..], ps[1..], low + 1);
    buf.ShapeFacts();
  }

  /** The case of evbuffer_pullup where a new chain is needed. */
  method PullIntoNew(buf: Buffer, size: nat)
    requires buf.Shape() && buf.first != null && buf.first.off < size <= buf.totalLen
    modifies buf`first, buf`last, buf`lwdp, buf`list, buf.list.chains
    ensures buf.Shape() && buf.first != null && buf.first.off == size && buf.first.Ok()
    ensures |buf.Contents()| == buf.totalLen && buf.Contents() == old(buf.Contents())
    ensures buf.first.Data() == buf.Contents()[..size]
    ensures forall c | c in buf.list.chains :: c in old(buf.list.chains) || fresh(c)
  {
    hide Join, Chain.Data;
    Split(buf, size);
    Several(buf);
    ghost var cs, ps, low := buf.list.chains, buf.list.parts, buf.list.low;
    var head := buf.first;
    var tmp := new Chain(size);
    tmp.off := size;
    buf.first := tmp;
    assert [] + Join(ps) == Join(ps);
    Absorb(buf, tmp, size, head, [], cs, ps, low);
    buf.ShapeFacts();
  }

  /** evbuffer_pullup: the chain whose first size bytes are the first size bytes of the
      buffer, or null. A negative size stands for the whole buffer. */
  method PullUp(buf: Buffer, size: int) returns (p: Chain?, want: nat)
    requires buf.Valid()
    modifies buf`first, buf`last, buf`lwdp, buf`list, buf.list.chains
    ensures buf.Valid()
    ensures want == if size < 0 then |old(buf.Contents())| else size
    ensures p == null <==> want == 0 || want > |old(buf.Contents())|
    ensures p != null ==> p == buf.first && p.Ok() && want <= p.off && p.Front(want) == buf.Contents()[..want]
    ensures buf.Contents() == old(buf.Contents())
    ensures buf.Acct() == old(buf.Acct())
    ensures forall c | c in buf.list.chains :: c in old(buf.list.chains) || fresh(c)
    ensures p == null || (old(buf.first) != null && want <= old(buf.first.off)) ==> buf.Ahead() == old(buf.Ahead())
  {
    hide Join, Chain.Data, Chain.Front, Buffer.Shape, Books;
    buf.ShapeFacts();
    want := if size < 0 then buf.totalLen else size;
    if want == 0 || want > buf.totalLen {
      return null, want;
    }
    buf.NotEmpty();
    if buf.first.off >= want {
      FirstIsPrefix(buf, want);
      return buf.first, want;
    }
    if |buf.first.buffer| - buf.first.misalign >= want {
      PullIntoFirst(buf, want);
    } else {
      PullIntoNew(buf, want);
    }
    p := buf.first;
  }

  lemma FirstIsPrefix(buf: Buffer, n: nat)
    requires buf.Shape() && buf.first != null && buf.first.Ok() && n <= buf.first.off
    ensures n <= |buf.Contents()| && buf.first.Data()[..n] == buf.Contents()[..n]
  {}
}
