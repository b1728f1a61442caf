/** Bytes, the flattening of a list of byte blocks, and a single evbuffer chain. */
module Chains {
  import opened Basics

  // ------------------------------------------------------------------
  // Flattening
  // ------------------------------------------------------------------

  /** The bytes of a list of blocks, in order. */
  function Join(parts: seq<seq<Byte>>): (r: seq<Byte>) {
    if parts == [] then [] else parts[0] + Join(parts[1..])
  }

  lemma {:induction false} JoinConcat(a: seq<seq<Byte>>, b: seq<seq<Byte>>)
    ensures Join(a + b) == Join(a) + Join(b)
  {
    if a == [] {
      assert a + b == b;
    } else {
      JoinConcat(a[1..], b);
      assert (a + b)[1..] == a[1..] + b;
    }
  }

  lemma JoinEmpty()
    ensures Join([]) == []
  {}

  lemma JoinOne(p: seq<Byte>)
    ensures Join([p]) == p
  {}

  /** Splitting the list of blocks at block k splits the bytes. */
  lemma JoinSplit(parts: seq<seq<Byte>>, k: nat)
    requires k <= |parts|
    ensures Join(parts) == Join(parts[..k]) + Join(parts[k..])
  {
    assert parts == parts[..k] + parts[k..];
    JoinConcat(parts[..k], parts[k..]);
  }

  /** The first k + 1 blocks are the first k blocks followed by block k. */
  lemma JoinTake(parts: seq<seq<Byte>>, k: nat)
    requires k < |parts|
    ensures Join(parts[..k + 1]) == Join(parts[..k]) + parts[k]
    ensures |Join(parts[..k + 1])| <= |Join(parts)|
  {
    assert parts[..k + 1] == parts[..k] + [parts[k]];
    JoinConcat(parts[..k], [parts[k]]);
    JoinOne(parts[k]);
    JoinSplit(parts, k + 1);
  }

  lemma JoinDrop(parts: seq<seq<Byte>>, k: nat)
    requires k < |parts|
    ensures Join(parts[k..]) == parts[k] + Join(parts[k + 1..])
  {}

  /** Growing the last block grows the bytes at the end. */
  lemma JoinGrowLast(parts: seq<seq<Byte>>, more: seq<Byte>)
    requires parts != []
    ensures Join(parts[|parts| - 1 := parts[|parts| - 1] + more]) == Join(parts) + more
  {
    var k := |parts| - 1;
    var qs := parts[k := parts[k] + more];
    JoinSplit(qs, k);
    JoinSplit(parts, k);
    assert qs[..k] == parts[..k] && qs[k..] == [parts[k] + more] && parts[k..] == [parts[k]];
    JoinOne(parts[k] + more);
    JoinOne(parts[k]);
  }

  /** Growing the first block grows the bytes at the start. */
  lemma JoinGrowFirst(parts: seq<seq<Byte>>, more: seq<Byte>)
    requires parts != []
    ensures Join(parts[0 := more + parts[0]]) == more + Join(parts)
  {}

  /** Trimming the first block trims the bytes at the start. */
  lemma JoinTrimFirst(parts: seq<seq<Byte>>, n: nat)
    requires parts != [] && n <= |parts[0]|
    ensures n <= |Join(parts)| && Join(parts[0 := parts[0][n..]]) == Join(parts)[n..]
  {}

  /** The first k blocks are a prefix of the bytes. */
  lemma JoinFirst(parts: seq<seq<Byte>>, k: nat)
    requires k <= |parts|
    ensures |Join(parts[..k])| <= |Join(parts)|
    ensures Join(parts)[..|Join(parts[..k])|] == Join(parts[..k])
  {
    JoinSplit(parts, k);
  }

  /** The first k blocks and n bytes of block k are a prefix of the bytes. */
  lemma JoinPrefix(parts: seq<seq<Byte>>, k: nat, n: nat)
    requires k < |parts| && n <= |parts[k]|
    ensures |Join(parts[..k])| + n <= |Join(parts)|
    ensures Join(parts)[..|Join(parts[..k])| + n] == Join(parts[..k]) + parts[k][..n]
  {
    JoinSplit(parts, k);
    JoinDrop(parts, k);
  }

  lemma JoinWhole(parts: seq<seq<Byte>>)
    ensures parts[..|parts|] == parts
    ensures Join(parts[..|parts|]) == Join(parts)
  {}

  lemma DropDrop(s: seq<Byte>, a: nat, b: nat)
    requires a + b <= |s|
    ensures s[a..][b..] == s[a + b..]
  {}

  // ------------------------------------------------------------------
  // Chain allocation
  // ------------------------------------------------------------------

  const MIN_BUFFER_SIZE: nat := 1024
  const EVBUFFER_CHAIN_SIZE: nat := 48
  const EVBUFFER_CHAIN_MAX_AUTO_SIZE: nat := 4096
  const MAX_TO_REALIGN_IN_EXPAND: nat := 2048

  /** n is reached from MIN_BUFFER_SIZE by doubling. */
  predicate IsDoubling(n: nat) {
    n == MIN_BUFFER_SIZE || (n > MIN_BUFFER_SIZE && n % 2 == 0 && IsDoubling(n / 2))
  }

  /** The allocation of evbuffer_chain_new: the least doubling of the minimum
      that holds the header and the data. */
  method AllocSize(size: nat) returns (toAlloc: nat)
    ensures IsDoubling(toAlloc)
    ensures toAlloc >= size + EVBUFFER_CHAIN_SIZE
    ensures toAlloc == MIN_BUFFER_SIZE || toAlloc / 2 < size + EVBUFFER_CHAIN_SIZE
  {
    toAlloc := MIN_BUFFER_SIZE;
    while toAlloc < size + EVBUFFER_CHAIN_SIZE
      invariant IsDoubling(toAlloc) && toAlloc >= MIN_BUFFER_SIZE
      invariant toAlloc == MIN_BUFFER_SIZE || toAlloc / 2 < size + EVBUFFER_CHAIN_SIZE
      decreases size + EVBUFFER_CHAIN_SIZE - toAlloc
    {
      assert (toAlloc * 2) / 2 == toAlloc;
      toAlloc := toAlloc * 2;
    }
  }

  datatype Seat = Seat(owner: object, place: int)

  /** A block of an evbuffer: off bytes of data starting at misalign.  The source
      allocates a chain and its memory in one piece, so the memory is a field of the
      chain; its length is the source's buffer_len and never changes. */
  class Chain {
    var next: Chain?
    var buffer: seq<Byte>
    var misalign: nat
    var off: nat

    // the buffer whose list the chain is in, and its place there
    ghost var seat: Seat

    ghost predicate Ok()
      reads this`misalign, this`off, this`buffer
    {
      misalign + off <= |buffer| && |buffer| > 0
    }

    /** The data of the chain. */
    ghost function Data(): (r: seq<Byte>)
      requires Ok()
      reads this`misalign, this`off, this`buffer
      ensures |r| == off
    {
      buffer[misalign..misalign + off]
    }

    /** The first n bytes of the data, read from the memory. */
    function Front(n: nat): (r: seq<Byte>)
      requires Ok() && n <= off
      reads this`misalign, this`off, this`buffer
      ensures r == Data()[..n] && (n == off ==> r == Data())
    {
      buffer[misalign..misalign + n]
    }

    /** evbuffer_chain_new, with a successful allocation. */
    constructor (size: nat)
      ensures Ok() && Data() == []
      ensures next == null && misalign == 0 && off == 0 && seat.owner == this
      ensures |buffer| >= size
      ensures IsDoubling(|buffer| + EVBUFFER_CHAIN_SIZE)
    {
      var n := AllocSize(size);
      buffer := seq(n - EVBUFFER_CHAIN_SIZE, _ => 0);
      next := null;
      misalign := 0;
      off := 0;
      seat := Seat(this, 0);
    }

    /** memcpy into the memory of the chain. */
    method Write(at: nat, data: seq<Byte>)
      requires at + |data| <= |buffer|
      modifies this`buffer
      ensures |buffer| == |old(buffer)|
      ensures buffer == old(buffer)[..at] + data + old(buffer)[at + |data|..]
    {
      buffer := buffer[..at] + data + buffer[at + |data|..];
    }

    /** Writes data after the bytes already held. */
    method Fill(data: seq<Byte>)
      requires Ok() && misalign + off + |data| <= |buffer|
      modifies this`off, this`buffer
      ensures Ok() && |buffer| == |old(buffer)| && off == old(off) + |data|
      ensures Data() == old(Data()) + data
    {
      Write(misalign + off, data);
      off := off + |data|;
    }

    /** Writes data in front of the bytes already held. */
    method FillFront(data: seq<Byte>)
      requires Ok() && |data| <= misalign
      modifies this`off, this`misalign, this`buffer
      ensures Ok() && |buffer| == |old(buffer)|
      ensures off == old(off) + |data| && misalign == old(misalign) - |data|
      ensures Data() == data + old(Data())
    {
      Write(misalign - |data|, data);
      off := off + |data|;
      misalign := misalign - |data|;
    }

    /** Fills an unused chain from the far end of its memory. */
    method FillBack(data: seq<Byte>)
      requires Ok() && misalign == off == 0 && |data| <= |buffer|
      modifies this`off, this`misalign, this`buffer
      ensures Ok() && off == |data| && Data() == data
    {
      off := |data|;
      misalign := |buffer| - |data|;
      Write(misalign, data);
    }

    /** evbuffer_chain_align: moves the data to the start of the block. */
    method Align()
      requires Ok()
      modifies this`misalign, this`buffer
      ensures Ok() && |buffer| == |old(buffer)| && misalign == 0
      ensures Data() == old(Data())
    {
      Write(0, buffer[misalign..misalign + off]);
      misalign := 0;
    }

    /** Forgets the first n bytes. */
    method Advance(n: nat)
      requires Ok() && n <= off
      modifies this`off, this`misalign
      ensures Ok() && off == old(off) - n && misalign == old(misalign) + n
      ensures Data() == old(Data())[n..]
    {
      misalign := misalign + n;
      off := off - n;
    }

    /** evbuffer_chain_should_realign */
    predicate ShouldRealign(datlen: nat)
      requires off <= |buffer|
      reads this`off, this`buffer
    {
      |buffer| - off >= datlen && off < |buffer| / 2 && off <= MAX_TO_REALIGN_IN_EXPAND
    }
  }
}
