/** Searching an evbuffer across its chains, and reading lines from it. */
module EvBufferSearch {
  import opened Basics
  import opened Chains
  import opened EvBuffer

  /** evbuffer_ptr: a place in a buffer, with the chain that holds it. */
  datatype Ptr = Ptr(pos: int, chain: Chain?, inChain: nat)

  /** p is k chains and inChain bytes into the buffer. */
  ghost predicate At(buf: Buffer, p: Ptr, k: nat)
    reads buf`list
  {
    && k < |buf.list.chains| == |buf.list.parts|
    && p.chain == buf.list.chains[k]
    && p.inChain <= |buf.list.parts[k]|
    && p.pos == |Join(buf.list.parts[..k])| + p.inChain
  }

  /** p was set in the buffer, or is past its end. */
  ghost predicate In(buf: Buffer, p: Ptr)
    reads buf`list
  {
    p.chain == null || exists k :: At(buf, p, k)
  }

  /** what occurs in s at place i. */
  predicate Occurs(s: seq<Byte>, what: seq<Byte>, i: int) {
    0 <= i && i + |what| <= |s| && s[i..i + |what|] == what
  }

  /** memchr: the place of the first b, or -1. */
  function MemChr(s: seq<Byte>, b: Byte): (r: int)
    ensures -1 <= r < |s|
    ensures r >= 0 ==> s[r] == b && b !in s[..r]
    ensures r < 0 ==> b !in s
  {
    if s == [] then -1
    else if s[0] == b then 0
    else
      var r := MemChr(s[1..], b);
      assert r >= 0 ==> s[..r + 1] == [s[0]] + s[1..][..r];
      if r < 0 then -1 else r + 1
  }

  /** The bytes of block k are in place in the whole. */
  lemma JoinWindow(parts: seq<seq<Byte>>, k: nat, a: nat, n: nat)
    requires k < |parts| && a + n <= |parts[k]|
    ensures |Join(parts[..k])| + a + n <= |Join(parts)|
    ensures Join(parts)[|Join(parts[..k])| + a..|Join(parts[..k])| + a + n] == parts[k][a..a + n]
  {
    hide Join;
    var p := |Join(parts[..k])|;
    JoinPrefix(parts, k, a + n);
    assert Join(parts)[p + a..p + a + n] == Join(parts)[..p + a + n][p + a..];
  }

  /** The memory of chain k from place i on. */
  method Tail(buf: Buffer, chain: Chain, i: nat, ghost k: nat) returns (d: seq<Byte>)
    requires buf.Shape() && k < |buf.list.chains| == |buf.list.parts| && chain == buf.list.chains[k]
    requires i <= |buf.list.parts[k]|
    ensures d == buf.list.parts[k][i..] && chain.off == |buf.list.parts[k]|
    ensures |Join(buf.list.parts[..k])| + chain.off <= |buf.Contents()|
    ensures d == buf.Contents()[|Join(buf.list.parts[..k])| + i..|Join(buf.list.parts[..k])| + chain.off]
    ensures chain.next == if k + 1 < |buf.list.chains| then buf.list.chains[k + 1] else null
    ensures k + 1 < |buf.list.chains| ==> |Join(buf.list.parts[..k + 1])| == |Join(buf.list.parts[..k])| + chain.off
    ensures k + 1 == |buf.list.chains| ==> |buf.Contents()| == |Join(buf.list.parts[..k])| + chain.off
  {
    hide Join;
    buf.PartAt(k);
    JoinWindow(buf.list.parts, k, i, chain.off - i);
    JoinTake(buf.list.parts, k);
    JoinWhole(buf.list.parts);
    assert buf.list.parts[k][i..] == buf.list.parts[k][i..i + (chain.off - i)];
    d := chain.buffer[chain.misalign + i..chain.misalign + chain.off];
  }

  /** The first m bytes of what are in s at place i. */
  predicate Agrees(s: seq<Byte>, what: seq<Byte>, i: nat, m: nat)
    requires m <= |what| && i + m <= |s|
  {
    s[i..i + m] == what[..m]
  }

  lemma Subslice(s: seq<Byte>, a: nat, b: nat, m: nat, n: nat)
    requires a <= b <= |s| && m <= n <= b - a
    ensures s[a..b][m..n] == s[a + m..a + n]
  {
    assert forall k | 0 <= k < n - m :: s[a..b][m..n][k] == s[a..b][m + k] == s[a + m + k];
  }

  lemma AgreesMore(s: seq<Byte>, what: seq<Byte>, i: nat, m: nat, n: nat)
    requires m + n <= |what| && i + |what| <= |s| && Agrees(s, what, i, m)
    ensures s[i + m..i + m + n] == what[m..m + n] ==> Agrees(s, what, i, m + n)
    ensures s[i + m..i + m + n] != what[m..m + n] ==> !Occurs(s, what, i)
  {
    assert s[i..i + m + n] == s[i..i + m] + s[i + m..i + m + n];
    assert what[..m + n] == what[..m] + what[m..m + n];
    Subslice(s, i, i + |what|, m, m + n);
  }

  lemma AgreesWhole(s: seq<Byte>, what: seq<Byte>, i: nat)
    requires i + |what| <= |s|
    ensures Agrees(s, what, i, |what|) <==> Occurs(s, what, i)
    ensures Agrees(s, what, i, 0)
  {}

  /** memcmp: the sign of the first difference. */
  function MemCmp(a: seq<Byte>, b: seq<Byte>): (r: int)
    requires |a| == |b|
    ensures r == 0 <==> a == b
  {
    if a == [] then 0
    else if a[0] != b[0] then (if a[0] < b[0] then -1 else 1)
    else
      assert a == [a[0]] + a[1..] && b == [b[0]] + b[1..];
      MemCmp(a[1..], b[1..])
  }

  /** The first byte that differs decides: below if it is smaller, above if it is greater. */
  lemma {:induction false} MemCmpSign(a: seq<Byte>, b: seq<Byte>, i: nat)
    requires |a| == |b| && i < |a| && a[..i] == b[..i] && a[i] != b[i]
    ensures if a[i] < b[i] then MemCmp(a, b) < 0 else MemCmp(a, b) > 0
  {
    if i > 0 {
      assert a[0] == a[..i][0] == b[..i][0] == b[0];
      assert a[1..][..i - 1] == a[..i][1..] == b[..i][1..] == b[1..][..i - 1];
      MemCmpSign(a[1..], b[1..], i - 1);
    }
  }

  /** Pieces compare one after the other. */
  lemma {:induction false} MemCmpConcat(a: seq<Byte>, b: seq<Byte>, x: seq<Byte>, y: seq<Byte>)
    requires |a| == |x| && |b| == |y|
    ensures MemCmp(a + b, x + y) == if a != x then MemCmp(a, x) else MemCmp(b, y)
  {
    if a == [] {
      assert a + b == b && x + y == y;
    } else {
      assert (a + b)[1..] == a[1..] + b && (x + y)[1..] == x[1..] + y;
      MemCmpConcat(a[1..], b, x[1..], y);
      assert a == [a[0]] + a[1..] && x == [x[0]] + x[1..];
    }
  }

  lemma ThreePieces(a: seq<Byte>, m: nat, n: nat)
    requires m + n <= |a|
    ensures a == a[..m] + (a[m..m + n] + a[m + n..])
  {}

  /** The first piece that differs decides the comparison. */
  lemma FirstDifference(a: seq<Byte>, b: seq<Byte>, m: nat, n: nat)
    requires |a| == |b| && m + n <= |a| && a[..m] == b[..m] && a[m..m + n] != b[m..m + n]
    ensures MemCmp(a, b) == MemCmp(a[m..m + n], b[m..m + n])
  {
    hide MemCmp;
    ThreePieces(a, m, n);
    ThreePieces(b, m, n);
    MemCmpConcat(a[..m], a[m..m + n] + a[m + n..], b[..m], b[m..m + n] + b[m + n..]);
    MemCmpConcat(a[m..m + n], a[m + n..], b[m..m + n], b[m + n..]);
  }

  lemma Differs(s: seq<Byte>, what: seq<Byte>, i: nat, m: nat, n: nat, a: seq<Byte>, piece: seq<Byte>)
    requires m + n <= |what| && i + |what| <= |s| && Agrees(s, what, i, m)
    requires a == s[i..i + |what|] && piece == s[i + m..i + m + n] && piece != what[m..m + n]
    ensures MemCmp(a, what) == MemCmp(piece, what[m..m + n])
  {
    hide MemCmp;
    assert forall k | 0 <= k < |what| :: a[k] == s[i + k];
    assert a[..m] == s[i..i + m];
    assert a[m..m + n] == piece;
    FirstDifference(a, what, m, n);
  }

  /** The comparison of the next n bytes, which are in the chain of p, with mem from m on. */
  method ComparePiece(buf: Buffer, p: Ptr, mem: seq<Byte>, m: nat, ghost pos: nat, ghost k: nat)
    returns (r: int, n: nat)
    requires buf.Shape() && At(buf, p, k) && p.pos == pos + m && m < |mem| && pos + |mem| <= |buf.Contents()|
    requires Agrees(buf.Contents(), mem, pos, m)
    ensures m + n <= |mem| && k < |buf.list.chains|
    ensures r == 0 ==> Agrees(buf.Contents(), mem, pos, m + n)
    ensures r != 0 ==> !Occurs(buf.Contents(), mem, pos) && r == MemCmp(buf.Contents()[pos..pos + |mem|], mem)
    ensures r == 0 && m + n < |mem| ==> p.chain.next != null && At(buf, Ptr(pos + m + n, p.chain.next, 0), k + 1)
  {
    hide Join, Occurs, Agrees, Buffer.Shape, MemCmp;
    ghost var s := buf.Contents();
    var d := Tail(buf, p.chain, p.inChain, k);
    n := if |mem| - m + p.inChain > p.chain.off then p.chain.off - p.inChain else |mem| - m;
    assert d[..n] == s[p.pos..p.pos + n];
    AgreesMore(s, mem, pos, m, n);
    r := MemCmp(d[..n], mem[m..m + n]);
    if r != 0 {
      Differs(s, mem, pos, m, n, s[pos..pos + |mem|], d[..n]);
    }
  }

  /** evbuffer_ptr_memcmp: the comparison of the bytes at p with mem, -1 if there are too few. */
  method PtrMemcmp(buf: Buffer, p: Ptr, mem: seq<Byte>, ghost at: nat) returns (r: int)
    requires buf.Shape() && At(buf, p, at)
    ensures r == 0 <==> Occurs(buf.Contents(), mem, p.pos)
    ensures r == if p.pos + |mem| > |buf.Contents()| then -1
                 else MemCmp(buf.Contents()[p.pos..p.pos + |mem|], mem)
  {
    hide Join, Occurs, Agrees, Buffer.Shape, MemCmp, At;
    buf.ShapeFacts();
    AtBound(buf, p, at);
    ghost var s, k := buf.Contents(), at;
    if p.pos + |mem| > buf.totalLen {
      TooLong(s, mem, p.pos);
      return -1;
    }
    AgreesWhole(s, mem, p.pos);
    OccursIs(s, mem, p.pos);
    var chain, position := p.chain, p.inChain;
    var m: nat := 0;
    while m < |mem| && chain != null
      invariant m <= |mem| && Agrees(s, mem, p.pos, m)
      invariant m < |mem| ==> chain != null && At(buf, Ptr(p.pos + m, chain, position), k)
      decreases |buf.list.chains| - k
    {
      var n: nat;
      r, n := ComparePiece(buf, Ptr(p.pos + m, chain, position), mem, m, p.pos, k);
      if r != 0 {
        return;
      }
      m := m + n;
      position := 0;
      chain := chain.next;
      k := k + 1;
    }
    r := 0;
  }

  lemma OccursIs(s: seq<Byte>, what: seq<Byte>, i: nat)
    requires i + |what| <= |s|
    ensures Occurs(s, what, i) <==> MemCmp(s[i..i + |what|], what) == 0
  {}

  lemma TooLong(s: seq<Byte>, what: seq<Byte>, i: int)
    requires i + |what| > |s|
    ensures !Occurs(s, what, i)
  {}

  /** what does not occur in s at the places from a up to b. */
  ghost predicate Absent(s: seq<Byte>, what: seq<Byte>, a: int, b: int) {
    forall j | a <= j < b :: !Occurs(s, what, j)
  }

  /** r is the first occurrence of what from place from on, or -1 if there is none that ends
      by the limit. */
  ghost predicate Found(s: seq<Byte>, what: seq<Byte>, from: int, limit: Option<int>, r: int) {
    if r >= 0 then
      && from <= r && Occurs(s, what, r) && Absent(s, what, from, r)
      && (limit.Some? ==> r + |what| <= limit.value)
    else
      && r == -1
      && forall j | from <= j && Occurs(s, what, j) :: limit.Some? && j + |what| > limit.value
  }

  /** Scanning a window d of s, from place a on, for the first byte of what. */
  lemma AbsentWindow(s: seq<Byte>, what: seq<Byte>, from: int, a: nat, d: seq<Byte>)
    requires what != [] && a + |d| <= |s| && d == s[a..a + |d|] && Absent(s, what, from, a)
    ensures var p := MemChr(d, what[0]); Absent(s, what, from, a + if p >= 0 then p else |d|)
  {
    var p := MemChr(d, what[0]);
    var n := if p >= 0 then p else |d|;
    forall j | a <= j < a + n
      ensures !Occurs(s, what, j)
    {
      assert s[j] == d[j - a] == d[..n][j - a];
    }
  }

  lemma AbsentNext(s: seq<Byte>, what: seq<Byte>, from: int, a: int)
    requires Absent(s, what, from, a) && !Occurs(s, what, a)
    ensures Absent(s, what, from, a + 1)
  {}

  /** The three ways a search ends. */
  lemma SearchEnds(s: seq<Byte>, what: seq<Byte>, from: int, limit: Option<int>, a: int)
    requires what != [] && from <= a && Absent(s, what, from, a)
    ensures a >= |s| ==> Found(s, what, from, limit, -1)
    ensures limit.Some? && limit.value <= a ==> Found(s, what, from, limit, -1)
    ensures limit.Some? && a + |what| > limit.value ==> Found(s, what, from, limit, -1)
    ensures 0 <= a && Occurs(s, what, a) && (limit.Some? ==> a + |what| <= limit.value) ==>
              Found(s, what, from, limit, a)
  {}

  /** The place of end is not past the chain that holds it. */
  lemma EndInChain(buf: Buffer, end: Ptr, k: nat)
    requires buf.Shape() && In(buf, end) && k < |buf.list.chains| == |buf.list.parts|
    requires end.chain == buf.list.chains[k]
    ensures forall pos: Ptr | At(buf, pos, k) :: end.pos <= pos.pos + end.chain.off - pos.inChain
  {}

  lemma AtBound(buf: Buffer, p: Ptr, k: nat)
    requires buf.Shape() && At(buf, p, k)
    ensures 0 <= p.pos <= |buf.Contents()| && p.chain != null && k < |buf.list.chains| == |buf.list.parts| && In(buf, p)
    ensures p.chain == buf.list.chains[k]
  {
    hide Join;
    JoinPrefix(buf.list.parts, k, p.inChain);
  }

  /** The memchr of the search, in the chain of pos. */
  method Scan(buf: Buffer, pos: Ptr, what: seq<Byte>, ghost from: int, ghost k: nat) returns (p: int)
    requires buf.Shape() && At(buf, pos, k) && what != [] && Absent(buf.Contents(), what, from, pos.pos)
    ensures -1 <= p && pos.inChain <= pos.chain.off
    ensures p >= 0 ==> At(buf, Ptr(pos.pos + p, pos.chain, pos.inChain + p), k) && pos.inChain + p < pos.chain.off
    ensures p >= 0 ==> Absent(buf.Contents(), what, from, pos.pos + p)
    ensures p < 0 ==> Absent(buf.Contents(), what, from, pos.pos + pos.chain.off - pos.inChain)
  {
    hide Join, Occurs, Buffer.Shape, Absent;
    var d := Tail(buf, pos.chain, pos.inChain, k);
    p := MemChr(d, what[0]);
    AbsentWindow(buf.Contents(), what, from, pos.pos, d);
  }

  /** On to place n of the chain, or to the start of the next chain if that is its end. */
  method Onward(buf: Buffer, pos: Ptr, n: nat, ghost k: nat) returns (r: Ptr, ghost k': nat)
    requires buf.Shape() && At(buf, pos, k) && pos.inChain <= n <= pos.chain.off
    ensures r.pos == pos.pos + n - pos.inChain <= |buf.Contents()|
    ensures r.chain != null ==> At(buf, r, k') && k <= k'
    ensures r.chain == null ==> r.pos == |buf.Contents()|
    ensures n == pos.chain.off ==> k' == k + 1 <= |buf.list.chains|
    ensures n < pos.chain.off ==> k' == k && r.chain == pos.chain && r.inChain == n
  {
    hide Join, Buffer.Shape;
    var d := Tail(buf, pos.chain, pos.inChain, k);
    r := Ptr(pos.pos + n - pos.inChain, pos.chain, n);
    k' := k;
    if n == pos.chain.off {
      r := Ptr(r.pos, pos.chain.next, 0);
      k' := k + 1;
    }
  }

  /** The limit that the end of a search sets. */
  function Limit(end: Option<Ptr>): (r: Option<int>) {
    if end.Some? then Some(end.value.pos) else None
  }

  /** The loop of evbuffer_search_range, from place start in chain k on. */
  method SearchFrom(buf: Buffer, what: seq<Byte>, start: Ptr, end: Option<Ptr>, ghost at: nat) returns (pos: Ptr)
    requires buf.Shape() && what != [] && At(buf, start, at) && (end.Some? ==> In(buf, end.value))
    ensures In(buf, pos) && (pos.pos >= 0 ==> pos.chain != null)
    ensures Found(buf.Contents(), what, start.pos, Limit(end), pos.pos)
  {
    hide Join, Occurs, Buffer.Shape, Absent, Found, At;
    ghost var s, from, limit, k := buf.Contents(), start.pos, Limit(end), at;
    pos := start;
    AtBound(buf, pos, k);
    AbsentNone(s, what, from);
    while pos.chain != null
      invariant pos.chain != null ==> At(buf, pos, k)
      invariant from <= pos.pos <= |s| && Absent(s, what, from, pos.pos)
      invariant pos.chain == null ==> pos.pos == |s|
      decreases |buf.list.chains| - k, |s| - pos.pos
    {
      AtBound(buf, pos, k);
      var chain: Chain := pos.chain;
      var p := Scan(buf, pos, what, from, k);
      if p >= 0 {
        pos := Ptr(pos.pos + p, chain, pos.inChain + p);
        SearchEnds(s, what, from, limit, pos.pos);
        var order := PtrMemcmp(buf, pos, what, k);
        if order == 0 {
          if end.Some? && pos.pos + |what| > end.value.pos {
            return Ptr(-1, null, 0);
          }
          AtBound(buf, pos, k);
          return;
        }
        AbsentNext(s, what, from, pos.pos);
        pos, k := Onward(buf, pos, pos.inChain + 1, k);
      } else {
        if end.Some? && chain == end.value.chain {
          EndInChain(buf, end.value, k);
          SearchEnds(s, what, from, limit, pos.pos + chain.off - pos.inChain);
          return Ptr(-1, null, 0);
        }
        pos, k := Onward(buf, pos, chain.off, k);
      }
    }
    SearchEnds(s, what, from, limit, pos.pos);
    pos := Ptr(-1, null, 0);
  }

  /** evbuffer_search_range */
  method SearchRange(buf: Buffer, what: seq<Byte>, start: Option<Ptr>, end: Option<Ptr>) returns (pos: Ptr)
    requires buf.Shape()
    requires start.Some? ==> In(buf, start.value)
    requires end.Some? ==> In(buf, end.value)
    ensures In(buf, pos)
    ensures var from := if start.Some? then start.value.pos else 0;
            if what == [] then pos.pos == from
            else if start.Some? && start.value.chain == null then pos == Ptr(-1, null, 0)
            else Found(buf.Contents(), what, from, Limit(end), pos.pos)
    ensures what != [] && pos.pos >= 0 ==> pos.chain != null
  {
    hide Join, Occurs, Buffer.Shape, Found, At;
    pos := if start.Some? then start.value else Ptr(0, buf.first, 0);
    FirstIn(buf);
    if what == [] {
      return;
    }
    if pos.chain == null {
      NothingFound(what, Limit(end));
      return Ptr(-1, null, 0);
    }
    ghost var k: nat :| At(buf, pos, k);
    pos := SearchFrom(buf, what, pos, end, k);
  }

  lemma NothingFound(what: seq<Byte>, limit: Option<int>)
    requires what != []
    ensures Found([], what, 0, limit, -1)
  {}

  lemma AbsentNone(s: seq<Byte>, what: seq<Byte>, a: int)
    ensures Absent(s, what, a, a)
  {}

  /** The place a search starts from when none is given. */
  lemma FirstIn(buf: Buffer)
    requires buf.Shape()
    ensures In(buf, Ptr(0, buf.first, 0))
    ensures buf.first == null ==> buf.Contents() == []
  {
    if buf.first != null {
      assert buf.list.parts[..0] == [];
      assert At(buf, Ptr(0, buf.first, 0), 0);
    }
  }
}
