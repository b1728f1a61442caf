/** Line ends: finding them across the chains of an evbuffer, and reading lines. */
module EvBufferLines {
  import opened Basics
  import opened Chains
  import opened Accounting
  import opened EvBuffer
  import opened EvBufferOps
  import opened EvBufferSearch

  const CR: Byte := 13
  const LF: Byte := 10
  const CHUNK_SZ: nat := 128

  datatype EolStyle = Any | Crlf | CrlfStrict | LfOnly

  // ------------------------------------------------------------------
  // Where lines end
  // ------------------------------------------------------------------

  /** Whether a line end of the given style starts at place j. */
  predicate EndsAt(s: seq<Byte>, style: EolStyle, j: int)
    requires 0 <= j < |s|
  {
    match style
    case Any => s[j] == CR || s[j] == LF
    case Crlf => s[j] == LF || Occurs(s, [CR, LF], j)
    case CrlfStrict => Occurs(s, [CR, LF], j)
    case LfOnly => s[j] == LF
  }

  /** The number of bytes from place j on that are all CR or LF. */
  function RunLength(s: seq<Byte>, j: nat): (r: nat)
    requires j <= |s|
    ensures j + r <= |s|
    ensures forall i | j <= i < j + r :: s[i] == CR || s[i] == LF
    ensures j + r < |s| ==> s[j + r] != CR && s[j + r] != LF
    decreases |s| - j
  {
    if j < |s| && (s[j] == CR || s[j] == LF) then 1 + RunLength(s, j + 1) else 0
  }

  /** The length of the line end that starts at place j. */
  function EolLength(s: seq<Byte>, style: EolStyle, j: nat): (r: nat)
    requires j < |s| && EndsAt(s, style, j)
    ensures 0 < r && j + r <= |s|
  {
    match style
    case Any => RunLength(s, j)
    case Crlf => if s[j] == LF then 1 else 2
    case CrlfStrict => 2
    case LfOnly => 1
  }

  /** No line end starts at the places from a up to b. */
  ghost predicate NoEnd(s: seq<Byte>, style: EolStyle, a: int, b: int) {
    forall j | a <= j < b && 0 <= j < |s| :: !EndsAt(s, style, j)
  }

  /** r is the place of the first line end from place from on, or -1. */
  ghost predicate FirstEnd(s: seq<Byte>, style: EolStyle, from: int, r: int) {
    if r >= 0 then from <= r < |s| && EndsAt(s, style, r) && NoEnd(s, style, from, r)
    else r == -1 && NoEnd(s, style, from, |s|)
  }

  // ------------------------------------------------------------------
  // What a line is
  // ------------------------------------------------------------------

  predicate Breaks(b: Byte) {
    b == CR || b == LF
  }

  /** line and eol are a line of the given style and its end, if rest follows: what each style
      promises, said of the bytes alone. */
  ghost predicate IsLine(style: EolStyle, line: seq<Byte>, eol: seq<Byte>, rest: seq<Byte>) {
    match style
    case Any => (forall b | b in line :: !Breaks(b)) && eol != [] && (forall b | b in eol :: Breaks(b))
                && (rest != [] ==> !Breaks(rest[0]))
    case Crlf => LF !in line && (eol == [CR, LF] || (eol == [LF] && (line != [] ==> line[|line| - 1] != CR)))
    case CrlfStrict => eol == [CR, LF] && forall i | 0 <= i < |line| - 1 :: !(line[i] == CR && line[i + 1] == LF)
    case LfOnly => LF !in line && eol == [LF]
  }

  /** Nothing in s ends a line. */
  ghost predicate NoLine(style: EolStyle, s: seq<Byte>) {
    match style
    case Any => forall b | b in s :: !Breaks(b)
    case CrlfStrict => forall i | 0 <= i < |s| - 1 :: !(s[i] == CR && s[i + 1] == LF)
    case _ => LF !in s
  }

  lemma CrlfAt(s: seq<Byte>, j: nat)
    ensures Occurs(s, [CR, LF], j) <==> j + 1 < |s| && s[j] == CR && s[j + 1] == LF
  {
    if j + 1 < |s| {
      assert s[j..j + 2] == [s[j], s[j + 1]];
    }
  }

  /** A line end of the style starts at place j, byte by byte. */
  ghost predicate EndHere(s: seq<Byte>, style: EolStyle, j: int)
    requires 0 <= j < |s|
  {
    match style
    case Any => Breaks(s[j])
    case Crlf => s[j] == LF || (s[j] == CR && j + 1 < |s| && s[j + 1] == LF)
    case CrlfStrict => s[j] == CR && j + 1 < |s| && s[j + 1] == LF
    case LfOnly => s[j] == LF
  }

  lemma EndsAll(s: seq<Byte>, style: EolStyle)
    ensures forall j {:trigger s[j]} {:trigger EndsAt(s, style, j)} | 0 <= j < |s| ::
              EndsAt(s, style, j) <==> EndHere(s, style, j)
  {
    forall j | 0 <= j < |s|
      ensures EndsAt(s, style, j) <==> EndHere(s, style, j)
    {
      CrlfAt(s, j);
    }
  }

  /** There is no line end exactly if nothing ends a line. */
  lemma NoneIsNoLine(s: seq<Byte>, style: EolStyle)
    ensures FirstEnd(s, style, 0, -1) <==> NoLine(style, s)
  {
    hide EndsAt;
    EndsAll(s, style);
  }

  /** The place and the length of the first line end split s as the style has it, and nothing
      else does. */
  lemma LineIs(s: seq<Byte>, style: EolStyle, n: nat, len: nat)
    requires n + len <= |s|
    ensures IsLine(style, s[..n], s[n..n + len], s[n + len..]) <==>
            FirstEnd(s, style, 0, n) && len == EolLength(s, style, n)
  {
    hide IsLine, FirstEnd;
    match style
    case Any => AnyLineIs(s, n, len);
    case Crlf => CrlfLineIs(s, n, len);
    case CrlfStrict => StrictLineIs(s, n, len);
    case LfOnly => LfLineIs(s, n, len);
  }

  lemma AnyLineIs(s: seq<Byte>, n: nat, len: nat)
    requires n + len <= |s|
    ensures IsLine(Any, s[..n], s[n..n + len], s[n + len..]) <==>
            FirstEnd(s, Any, 0, n) && len == EolLength(s, Any, n)
  {
    hide EndsAt, Occurs;
    EndsAll(s, Any);
    var line, eol, rest := s[..n], s[n..n + len], s[n + len..];
    assert forall j | 0 <= j < n :: line[j] == s[j];
    assert forall j | 0 <= j < len :: eol[j] == s[n + j];
    assert rest != [] ==> rest[0] == s[n + len];
    if IsLine(Any, line, eol, rest) {
      assert Breaks(eol[0]);
    }
  }

  lemma CrlfLineIs(s: seq<Byte>, n: nat, len: nat)
    requires n + len <= |s|
    ensures IsLine(Crlf, s[..n], s[n..n + len], s[n + len..]) <==>
            FirstEnd(s, Crlf, 0, n) && len == EolLength(s, Crlf, n)
  {
    hide EndsAt, Occurs;
    EndsAll(s, Crlf);
    var line, eol, rest := s[..n], s[n..n + len], s[n + len..];
    assert forall j | 0 <= j < n :: line[j] == s[j];
    assert forall j | 0 <= j < len :: eol[j] == s[n + j];
  }

  lemma StrictLineIs(s: seq<Byte>, n: nat, len: nat)
    requires n + len <= |s|
    ensures IsLine(CrlfStrict, s[..n], s[n..n + len], s[n + len..]) <==>
            FirstEnd(s, CrlfStrict, 0, n) && len == EolLength(s, CrlfStrict, n)
  {
    hide EndsAt, Occurs;
    EndsAll(s, CrlfStrict);
    var line, eol, rest := s[..n], s[n..n + len], s[n + len..];
    assert forall j | 0 <= j < n :: line[j] == s[j];
    assert forall j | 0 <= j < len :: eol[j] == s[n + j];
  }

  lemma LfLineIs(s: seq<Byte>, n: nat, len: nat)
    requires n + len <= |s|
    ensures IsLine(LfOnly, s[..n], s[n..n + len], s[n + len..]) <==>
            FirstEnd(s, LfOnly, 0, n) && len == EolLength(s, LfOnly, n)
  {
    hide EndsAt, Occurs;
    EndsAll(s, LfOnly);
    var line, eol, rest := s[..n], s[n..n + len], s[n + len..];
    assert forall j | 0 <= j < n :: line[j] == s[j];
    assert forall j | 0 <= j < len :: eol[j] == s[n + j];
  }

  /** Looking from a place on is looking in what follows it. */
  lemma EndsShift(s: seq<Byte>, style: EolStyle, from: nat, r: int)
    requires from <= |s| && FirstEnd(s, style, from, r) && (r >= 0 ==> r >= from)
    ensures FirstEnd(s[from..], style, 0, if r < 0 then -1 else r - from)
    ensures r >= 0 ==> EolLength(s[from..], style, r - from) == EolLength(s, style, r)
  {
    hide EndsAt, RunLength;
    var t := s[from..];
    forall j | 0 <= j < |t|
      ensures EndsAt(t, style, j) <==> EndsAt(s, style, from + j)
    {
      EndShift(s, style, from, j);
    }
    if r >= 0 {
      assert t[r - from] == s[r];
      RunShift(s, from, r);
    }
  }

  lemma EndShift(s: seq<Byte>, style: EolStyle, from: nat, j: nat)
    requires from + j < |s|
    ensures EndsAt(s[from..], style, j) <==> EndsAt(s, style, from + j)
  {
    var t := s[from..];
    CrlfAt(s, from + j);
    CrlfAt(t, j);
    assert t[j] == s[from + j] && (j + 1 < |t| ==> t[j + 1] == s[from + j + 1]);
  }

  lemma {:induction false} RunShift(s: seq<Byte>, from: nat, j: nat)
    requires from <= j <= |s|
    ensures RunLength(s[from..], j - from) == RunLength(s, j)
    decreases |s| - j
  {
    if j < |s| {
      RunShift(s, from, j + 1);
    }
  }

  /** What was found from a place on, said of the bytes alone. */
  lemma FoundLine(s: seq<Byte>, style: EolStyle, from: nat, r: int)
    requires from <= |s| && FirstEnd(s, style, from, r)
    ensures r < 0 ==> NoLine(style, s[from..])
    ensures r >= 0 ==>
              && from <= r < |s| && EndsAt(s, style, r)
              && var n := r + EolLength(s, style, r); IsLine(style, s[from..r], s[r..n], s[n..])
  {
    hide EndsAt, EolLength, IsLine, NoLine;
    var t := s[from..];
    EndsShift(s, style, from, r);
    if r < 0 {
      NoneIsNoLine(t, style);
    } else {
      var n, len := r - from, EolLength(s, style, r);
      LineIs(t, style, n, len);
      assert t[..n] == s[from..r] && t[n..n + len] == s[r..r + len] && t[n + len..] == s[r + len..];
    }
  }

  // ------------------------------------------------------------------
  // Scanning
  // ------------------------------------------------------------------

  /** The first CR or LF in a piece of d, found with a search for each. */
  method ScanPiece(d: seq<Byte>, i: nat, chunk: nat) returns (r: int)
    requires i + chunk <= |d|
    ensures r < 0 ==> r == -1 && NoEnd(d, Any, i, i + chunk)
    ensures r >= 0 ==> i <= r < i + chunk && EndsAt(d, Any, r) && NoEnd(d, Any, i, r)
  {
    hide MemChr;
    var piece := d[i..i + chunk];
    var cr := MemChr(piece, CR);
    var lf := MemChr(piece, LF);
    PieceLacks(d, i, piece, CR, if cr >= 0 then cr else |piece|);
    PieceLacks(d, i, piece, LF, if lf >= 0 then lf else |piece|);
    if cr >= 0 {
      if lf >= 0 && lf < cr {
        return i + lf;
      }
      return i + cr;
    } else if lf >= 0 {
      return i + lf;
    }
    r := -1;
  }

  /** A byte that is not among the first n of a piece of d is not there in d. */
  lemma PieceLacks(d: seq<Byte>, i: nat, piece: seq<Byte>, b: Byte, n: nat)
    requires i + |piece| <= |d| && piece == d[i..i + |piece|] && n <= |piece| && b !in piece[..n]
    ensures forall j | i <= j < i + n :: d[j] != b
  {
    forall j | i <= j < i + n
      ensures d[j] != b
    {
      assert piece[..n][j - i] == d[j];
    }
  }

  /** find_eol_char: looks for CR and for LF in pieces of CHUNK_SZ bytes. */
  method FindEolChar(d: seq<Byte>) returns (r: int)
    ensures FirstEnd(d, Any, 0, r)
  {
    hide EndsAt;
    var i: nat := 0;
    while i < |d|
      invariant NoEnd(d, Any, 0, i)
    {
      var chunk := if i + CHUNK_SZ < |d| then CHUNK_SZ else |d| - i;
      r := ScanPiece(d, i, chunk);
      if r >= 0 {
        return;
      }
      i := i + CHUNK_SZ;
    }
    r := -1;
  }

  /** Line ends of single bytes are found chain by chain. */
  predicate ByteWise(style: EolStyle) {
    style == Any || style == LfOnly
  }

  /** The scan of one chain, for either kind of byte. */
  method ScanChain(d: seq<Byte>, style: EolStyle) returns (p: int)
    requires ByteWise(style)
    ensures FirstEnd(d, style, 0, p)
  {
    if style == Any {
      p := FindEolChar(d);
    } else {
      p := MemChr(d, LF);
      assert p >= 0 ==> forall j | 0 <= j < p :: d[j] == d[..p][j];
    }
  }

  /** What is found in a window of s holds of s. */
  lemma WindowEnds(s: seq<Byte>, style: EolStyle, from: int, a: nat, d: seq<Byte>, p: int)
    requires ByteWise(style) && a + |d| <= |s| && d == s[a..a + |d|] && from <= a
    requires NoEnd(s, style, from, a) && FirstEnd(d, style, 0, p)
    ensures p >= 0 ==> FirstEnd(s, style, from, a + p)
    ensures p < 0 ==> NoEnd(s, style, from, a + |d|)
  {
    forall j | a <= j < a + |d|
      ensures EndsAt(s, style, j) == EndsAt(d, style, j - a)
    {
      assert s[j] == d[j - a];
    }
  }

  /** evbuffer_find_eol_char and, for LF alone, evbuffer_strchr. */
  method FindEnd(buf: Buffer, it: Ptr, style: EolStyle, ghost at: nat) returns (r: Ptr, ghost k: nat)
    requires buf.Shape() && ByteWise(style) && (it.chain != null ==> At(buf, it, at))
    requires it.chain == null ==> it.pos == |buf.Contents()|
    ensures FirstEnd(buf.Contents(), style, it.pos, r.pos)
    ensures if r.pos >= 0 then r.chain != null && At(buf, r, k) && r.inChain < r.chain.off
            else r == Ptr(-1, null, 0)
  {
    hide Join, Buffer.Shape, NoEnd, FirstEnd, At;
    ghost var s := buf.Contents();
    r, k := it, at;
    NoEndNone(s, style, it.pos);
    while r.chain != null
      invariant r.chain != null ==> At(buf, r, k)
      invariant r.chain == null ==> r.pos == |s|
      invariant it.pos <= r.pos && NoEnd(s, style, it.pos, r.pos)
      decreases |buf.list.chains| - k
    {
      AtBound(buf, r, k);
      var p := ScanAt(buf, r, style, it.pos, k);
      if p >= 0 {
        r := Ptr(r.pos + p, r.chain, r.inChain + p);
        return;
      }
      r, k := Onward(buf, r, r.chain.off, k);
    }
    EndScan(s, style, it.pos);
    r := Ptr(-1, null, 0);
  }

  lemma NoEndNone(s: seq<Byte>, style: EolStyle, a: int)
    ensures NoEnd(s, style, a, a)
  {}

  lemma EndScan(s: seq<Byte>, style: EolStyle, from: int)
    requires NoEnd(s, style, from, |s|)
    ensures FirstEnd(s, style, from, -1)
  {}

  method ScanAt(buf: Buffer, it: Ptr, style: EolStyle, ghost from: int, ghost k: nat) returns (p: int)
    requires buf.Shape() && At(buf, it, k) && ByteWise(style) && from <= it.pos
    requires NoEnd(buf.Contents(), style, from, it.pos)
    ensures -1 <= p && it.inChain <= it.chain.off && k < |buf.list.chains|
    ensures p >= 0 ==> At(buf, Ptr(it.pos + p, it.chain, it.inChain + p), k) && it.inChain + p < it.chain.off
    ensures p >= 0 ==> FirstEnd(buf.Contents(), style, from, it.pos + p)
    ensures p < 0 ==> NoEnd(buf.Contents(), style, from, it.pos + it.chain.off - it.inChain)
  {
    hide Join, Buffer.Shape, NoEnd;
    var d := Tail(buf, it.chain, it.inChain, k);
    p := ScanChain(d, style);
    WindowEnds(buf.Contents(), style, from, it.pos, d, p);
  }

  /** evbuffer_getchr */
  method GetChr(buf: Buffer, it: Ptr, ghost k: nat) returns (b: Byte)
    requires buf.Shape() && At(buf, it, k) && it.inChain < it.chain.off
    ensures it.pos < |buf.Contents()| && b == buf.Contents()[it.pos]
  {
    hide Join;
    var d := Tail(buf, it.chain, it.inChain, k);
    assert d[0] == buf.list.parts[k][it.inChain];
    b := it.chain.buffer[it.chain.misalign + it.inChain];
  }

  /** evbuffer_ptr_set, to a place counted from the start or from pos. */
  method PtrSet(buf: Buffer, pos: Ptr, position: nat, add: bool) returns (ok: bool, r: Ptr, ghost k: nat)
    requires buf.Shape() && (add ==> In(buf, pos))
    ensures ok <==> (add ==> pos.chain != null) && position + (if add then pos.pos else 0) < |buf.Contents()|
    ensures ok ==> At(buf, r, k) && r.pos == position + (if add then pos.pos else 0) && r.inChain < r.chain.off
    ensures !ok ==> r.chain == null && r.pos == -1
  {
    hide Join, Buffer.Shape, At;
    buf.ShapeFacts();
    FirstIn(buf);
    r := if add then pos else Ptr(0, buf.first, 0);
    k := 0;
    if r.chain != null {
      k :| At(buf, r, k);
    }
    var left: nat := position;
    ghost var target := r.pos + position;
    while r.chain != null && r.inChain + left >= r.chain.off
      invariant r.chain != null ==> At(buf, r, k) && r.pos + left == target
      invariant r.chain == null ==> (add && pos.chain == null) || target >= |buf.Contents()|
      invariant add && pos.chain == null ==> r.chain == null
      decreases |buf.list.chains| - k
    {
      var d := TailAt(buf, r, k);
      left := left - (r.chain.off - r.inChain);
      r, k := Onward(buf, r, r.chain.off, k);
    }
    ok := r.chain != null;
    if ok {
      var d := TailAt(buf, r, k);
      r, k := Onward(buf, r, r.inChain + left, k);
    } else {
      r := Ptr(-1, null, 0);
    }
  }

  /** The leading bytes of d that are CR or LF. */
  method Span(d: seq<Byte>) returns (n: nat)
    ensures n == RunLength(d, 0)
  {
    n := 0;
    while n < |d| && (d[n] == CR || d[n] == LF)
      invariant n <= |d| && RunLength(d, 0) == n + RunLength(d, n)
    {
      n := n + 1;
    }
  }

  /** A run in a window of s goes on behind the window only if it fills the window. */
  lemma {:induction false} RunWindow(s: seq<Byte>, a: nat, d: seq<Byte>, i: nat)
    requires i <= |d| && a + |d| <= |s| && d == s[a..a + |d|]
    ensures RunLength(s, a + i) ==
            RunLength(d, i) + if i + RunLength(d, i) == |d| then RunLength(s, a + |d|) else 0
    decreases |d| - i
  {}

  /** evbuffer_strspn for the set of CR and LF. */
  method StrSpn(buf: Buffer, it: Ptr, ghost at: nat) returns (count: nat)
    requires buf.Shape() && At(buf, it, at)
    ensures it.pos <= |buf.Contents()| && count == RunLength(buf.Contents(), it.pos)
  {
    hide Join, Buffer.Shape, RunLength, At;
    AtBound(buf, it, at);
    ghost var s, k := buf.Contents(), at;
    var cur := it;
    count := 0;
    while true
      invariant cur.chain != null && At(buf, cur, k) && cur.pos == it.pos + count <= |s|
      invariant RunLength(s, it.pos) == count + RunLength(s, it.pos + count)
      decreases |buf.list.chains| - k
    {
      var d := TailAt(buf, cur, k);
      var n := Span(d);
      RunWindow(s, cur.pos, d, 0);
      count := count + n;
      if n < |d| {
        return;
      }
      cur, k := Onward(buf, cur, cur.chain.off, k);
      if cur.chain == null {
        RunEnd(s);
        return;
      }
    }
  }

  lemma RunEnd(s: seq<Byte>)
    ensures RunLength(s, |s|) == 0
  {}

  /** The bytes of the chain of it, from its place on. */
  method TailAt(buf: Buffer, it: Ptr, ghost k: nat) returns (d: seq<Byte>)
    requires buf.Shape() && At(buf, it, k)
    ensures k < |buf.list.chains| && it.pos + |d| <= |buf.Contents()| && it.inChain + |d| == it.chain.off
    ensures d == buf.Contents()[it.pos..it.pos + |d|]
  {
    hide Join, Buffer.Shape;
    d := Tail(buf, it.chain, it.inChain, k);
  }

  // ------------------------------------------------------------------
  // evbuffer_search_eol
  // ------------------------------------------------------------------

  /** A place without CR or LF ends no line of style Crlf; nor does a CR that is not
      followed by LF. */
  lemma CrlfStep(s: seq<Byte>, from: int, a: int, r: int)
    requires from <= a && NoEnd(s, Crlf, from, a) && FirstEnd(s, Any, a, r)
    ensures r < 0 ==> FirstEnd(s, Crlf, from, -1)
    ensures r >= 0 && EndsAt(s, Crlf, r) ==> FirstEnd(s, Crlf, from, r)
    ensures r >= 0 && !EndsAt(s, Crlf, r) ==> NoEnd(s, Crlf, from, r + 1)
  {
    forall j | a <= j < (if r < 0 then |s| else r) && 0 <= j < |s|
      ensures !EndsAt(s, Crlf, j)
    {
      assert !EndsAt(s, Any, j);
    }
  }

  /** The loop of the style Crlf: at each CR or LF, stop if a line end starts there. */
  method SearchCrlf(buf: Buffer, start: Ptr, ghost at: nat) returns (it: Ptr, len: nat)
    requires buf.Shape() && (start.chain != null ==> At(buf, start, at))
    requires start.chain == null ==> start.pos == |buf.Contents()|
    ensures FirstEnd(buf.Contents(), Crlf, start.pos, it.pos)
    ensures len == if it.pos < 0 then 0 else EolLength(buf.Contents(), Crlf, it.pos)
    ensures In(buf, it)
  {
    hide Join, Buffer.Shape, At, NoEnd, FirstEnd, Occurs;
    ghost var s, k, from := buf.Contents(), at, start.pos;
    it := start;
    NoEndNone(s, Crlf, from);
    while true
      invariant it.chain != null ==> At(buf, it, k)
      invariant it.chain == null ==> it.pos == |s|
      invariant from <= it.pos && NoEnd(s, Crlf, from, it.pos)
      decreases |s| - it.pos
    {
      ghost var a := it.pos;
      it, k := FindEnd(buf, it, Any, k);
      FirstEndBounds(s, Any, a, it.pos);
      CrlfStep(s, from, a, it.pos);
      if it.pos < 0 {
        return Ptr(-1, null, 0), 0;
      }
      AtBound(buf, it, k);
      var b := GetChr(buf, it, k);
      if b == LF {
        return it, 1;
      }
      var order := PtrMemcmp(buf, it, [CR, LF], k);
      if order == 0 {
        return it, 2;
      }
      var ok: bool;
      ghost var next := it.pos + 1;
      ok, it, k := PtrSet(buf, it, 1, true);
      if !ok {
        NoEndFull(s, Crlf, from, next);
        return Ptr(-1, null, 0), 0;
      }
      AtBound(buf, it, k);
    }
  }

  lemma FirstEndBounds(s: seq<Byte>, style: EolStyle, from: int, r: int)
    requires FirstEnd(s, style, from, r)
    ensures r == -1 || (from <= r < |s| && (r >= 0 ==> EndsAt(s, style, r)))
  {}

  lemma NoEndFull(s: seq<Byte>, style: EolStyle, from: int, a: int)
    requires NoEnd(s, style, from, a) && a >= |s|
    ensures FirstEnd(s, style, from, -1)
  {}

  /** An empty buffer ends no line. */
  lemma EmptyEnds(s: seq<Byte>, style: EolStyle)
    requires s == []
    ensures FirstEnd(s, style, 0, -1) && Found(s, [CR, LF], 0, None, -1)
  {}

  lemma StrictFound(s: seq<Byte>, from: int, r: int)
    requires Found(s, [CR, LF], from, None, r)
    ensures FirstEnd(s, CrlfStrict, from, r)
  {}

  /** The line end of len bytes at place r is the first from place from on, or there is none:
      said of the bytes alone. */
  ghost predicate Reports(s: seq<Byte>, style: EolStyle, from: int, r: int, len: nat) {
    && 0 <= from <= |s|
    && if r < 0 then r == -1 && len == 0 && NoLine(style, s[from..])
       else from <= r && r + len <= |s| && IsLine(style, s[from..r], s[r..r + len], s[r + len..])
  }

  lemma InBound(buf: Buffer, p: Ptr)
    requires buf.Shape() && In(buf, p) && p.chain != null
    ensures 0 <= p.pos <= |buf.Contents()|
  {
    hide Buffer.Shape, At, Join;
    var k: nat :| At(buf, p, k);
    AtBound(buf, p, k);
  }

  /** evbuffer_search_eol */
  method SearchEol(buf: Buffer, start: Option<Ptr>, style: EolStyle) returns (it: Ptr, len: nat)
    requires buf.Shape() && (start.Some? ==> In(buf, start.value))
    ensures if start.Some? && start.value.chain == null then it.pos == -1
            else FirstEnd(buf.Contents(), style, if start.Some? then start.value.pos else 0, it.pos)
    ensures len == if it.pos < 0 then 0 else EolLength(buf.Contents(), style, it.pos)
    ensures In(buf, it)
    ensures start.Some? && start.value.chain == null ==> len == 0
    ensures !(start.Some? && start.value.chain == null) ==>
              Reports(buf.Contents(), style, if start.Some? then start.value.pos else 0, it.pos, len)
  {
    hide Join, Buffer.Shape, At, NoEnd, FirstEnd, EndsAt, EolLength, NoLine, IsLine;
    it, len := FindEol(buf, start, style);
    if start.None? {
      FoundLine(buf.Contents(), style, 0, it.pos);
      FirstEndBounds(buf.Contents(), style, 0, it.pos);
    } else if start.value.chain != null {
      InBound(buf, start.value);
      FoundLine(buf.Contents(), style, start.value.pos, it.pos);
      FirstEndBounds(buf.Contents(), style, start.value.pos, it.pos);
    }
  }

  /** The search itself, style by style. */
  method FindEol(buf: Buffer, start: Option<Ptr>, style: EolStyle) returns (it: Ptr, len: nat)
    requires buf.Shape() && (start.Some? ==> In(buf, start.value))
    ensures if start.Some? && start.value.chain == null then it.pos == -1
            else FirstEnd(buf.Contents(), style, if start.Some? then start.value.pos else 0, it.pos)
    ensures len == if it.pos < 0 then 0 else EolLength(buf.Contents(), style, it.pos)
    ensures In(buf, it)
  {
    hide Join, Buffer.Shape, At, NoEnd, FirstEnd, Found;
    FirstIn(buf);
    it := if start.Some? then start.value else Ptr(0, buf.first, 0);
    if start.Some? && it.chain == null {
      return Ptr(-1, null, 0), 0;
    }
    ghost var from := it.pos;
    ghost var k: nat := 0;
    if it.chain != null {
      k :| At(buf, it, k);
    }
    match style {
      case Any =>
        it, k := FindEnd(buf, it, style, k);
        FirstEndBounds(buf.Contents(), style, from, it.pos);
        len := 0;
        if it.pos >= 0 {
          AtBound(buf, it, k);
          len := StrSpn(buf, it, k);
        }
      case CrlfStrict =>
        if it.chain == null {
          EmptyEnds(buf.Contents(), style);
        }
        it := SearchRange(buf, [CR, LF], Some(it), None);
        StrictFound(buf.Contents(), from, it.pos);
        len := if it.pos < 0 then 0 else 2;
      case Crlf =>
        it, len := SearchCrlf(buf, it, k);
      case LfOnly =>
        it, k := FindEnd(buf, it, style, k);
        FirstEndBounds(buf.Contents(), style, from, it.pos);
        len := 0;
        if it.pos >= 0 {
          AtBound(buf, it, k);
          len := 1;
        }
    }
  }

  // ------------------------------------------------------------------
  // Reading lines
  // ------------------------------------------------------------------

  /** The account after a line of n bytes and its end of len bytes were removed, one after the
      other; removing an empty line is not told. */
  function AfterLine(a: Account, n: nat, len: nat): (r: Account) {
    Cut(if n > 0 then Cut(a, n) else a, len)
  }

  /** The front of a buffer of total bytes that lost n bytes, if any, and then len more. */
  ghost predicate DrainedTwice(before: Head, n: nat, len: nat, total: nat, after: Head) {
    n <= total && exists h: Head ::
      (if n == 0 then h == before else before.Drained(n, total, h)) && h.Drained(len, total - n, after)
  }

  lemma DrainedOnceMore(before: Head, n: nat, h: Head, len: nat, total: nat, after: Head)
    requires n <= total && (if n == 0 then h == before else before.Drained(n, total, h))
    requires h.Drained(len, total - n, after)
    ensures DrainedTwice(before, n, len, total, after)
  {}

  /** The part of evbuffer_readln that removes n bytes and then len more. */
  method TakeLine(buf: Buffer, n: nat, len: nat) returns (data: seq<Byte>)
    requires buf.Valid() && !buf.freezeStart && len > 0 && n + len <= |buf.Contents()|
    modifies buf, buf.list.chains
    ensures buf.Valid()
    ensures buf.freezeStart == old(buf.freezeStart) && buf.freezeEnd == old(buf.freezeEnd)
    ensures data == old(buf.Contents())[..n] && buf.Contents() == old(buf.Contents())[n + len..]
    ensures buf.Acct() == AfterLine(old(buf.Acct()), n, len)
    ensures DrainedTwice(old(buf.Ahead()), n, len, |old(buf.Contents())|, buf.Ahead())
    ensures forall c | c in buf.list.chains :: c in old(buf.list.chains)
  {
    hide Join, Buffer.Shape, Buffer.Ahead, Head.Drained, DrainedTwice, Books, Invoke, Cut, Min, TakeUpTo, DropUpTo;
    ghost var s := buf.Contents();
    buf.ShapeLength();
    Amounts(s, n);
    CutIs(buf.Acct(), n);
    MinIs(n, |s|);
    var m: int;
    m, data := Remove(buf, n);
    assert forall i | 0 <= i < |buf.list.chains| :: buf.list.chains[i] in old(buf.list.chains);
    buf.ShapeLength();
    Amounts(buf.Contents(), len);
    CutIs(buf.Acct(), len);
    MinIs(len, |s| - n);
    ghost var h := buf.Ahead();
    var ok := Drain(buf, len);
    DrainedOnceMore(old(buf.Ahead()), n, h, len, |s|, buf.Ahead());
  }

  /** evbuffer_readln: the line up to the first line end, which is removed with it. */
  method ReadLn(buf: Buffer, style: EolStyle) returns (line: Option<seq<Byte>>)
    requires buf.Valid()
    modifies buf, buf.list.chains
    ensures buf.Valid()
    ensures buf.freezeStart == old(buf.freezeStart) && buf.freezeEnd == old(buf.freezeEnd)
    ensures line.None? ==>
              buf.Contents() == old(buf.Contents()) && buf.Acct() == old(buf.Acct()) && buf.Ahead() == old(buf.Ahead())
    ensures line.None? <==> old(buf.freezeStart) || FirstEnd(old(buf.Contents()), style, 0, -1)
    ensures line.None? <==> old(buf.freezeStart) || NoLine(style, old(buf.Contents()))
    ensures line.Some? ==>
              var s, n := old(buf.Contents()), |line.value|;
              && FirstEnd(s, style, 0, n)
              && line.value == s[..n] && buf.Contents() == s[n + EolLength(s, style, n)..]
              && IsLine(style, line.value, s[n..|s| - |buf.Contents()|], buf.Contents())
              && buf.Acct() == AfterLine(old(buf.Acct()), n, EolLength(s, style, n))
              && DrainedTwice(old(buf.Ahead()), n, EolLength(s, style, n), |s|, buf.Ahead())
    ensures forall c | c in buf.list.chains :: c in old(buf.list.chains)
  {
    hide Join, Buffer.Shape, Buffer.Ahead, DrainedTwice, Books, AfterLine, NoEnd, FirstEnd, EndsAt, EolLength;
    hide NoLine, IsLine;
    if buf.freezeStart {
      return None;
    }
    ghost var s := buf.Contents();
    NoneIsNoLine(s, style);
    buf.ShapeFacts();
    var it, len := SearchEol(buf, None, style);
    FirstEndBounds(s, style, 0, it.pos);
    FirstEndOne(s, style, it.pos);
    if it.pos < 0 {
      return None;
    }
    assert s[0..it.pos] == s[..it.pos];
    var data := TakeLine(buf, it.pos, len);
    line := Some(data);
  }

  lemma MinIs(a: nat, b: nat)
    requires a <= b
    ensures Min(a, b) == a
  {}

  /** A buffer that has a line end has no other reading. */
  lemma FirstEndOne(s: seq<Byte>, style: EolStyle, r: int)
    requires FirstEnd(s, style, 0, r)
    ensures r >= 0 ==> !FirstEnd(s, style, 0, -1)
  {}

  /** The first line end from place from on, or -1. */
  function EndFrom(s: seq<Byte>, style: EolStyle, from: nat): (r: int)
    requires from <= |s|
    ensures FirstEnd(s, style, from, r)
    decreases |s| - from
  {
    if from == |s| then -1
    else if EndsAt(s, style, from) then from
    else EndFrom(s, style, from + 1)
  }

  datatype Reading = Reading(lines: seq<seq<Byte>>, rest: seq<Byte>)

  /** The lines of s, and what is left when no line end remains. */
  function Lines(s: seq<Byte>, style: EolStyle): (r: Reading)
    decreases |s|
  {
    var n := EndFrom(s, style, 0);
    if n < 0 then Reading([], s)
    else
      var t := Lines(s[n + EolLength(s, style, n)..], style);
      Reading([s[..n]] + t.lines, t.rest)
  }

  lemma FirstEndUnique(s: seq<Byte>, style: EolStyle, from: nat, r: int)
    requires from <= |s| && FirstEnd(s, style, from, r)
    ensures EndFrom(s, style, from) == r
  {}

  /** The effect of one evbuffer_readln on the lines still to be read. */
  lemma LinesStep(s: seq<Byte>, style: EolStyle, n: int)
    requires FirstEnd(s, style, 0, n)
    ensures n < 0 ==> Lines(s, style) == Reading([], s)
    ensures n >= 0 ==>
              var t := Lines(s[n + EolLength(s, style, n)..], style);
              Lines(s, style) == Reading([s[..n]] + t.lines, t.rest)
  {}

  lemma OneLineMore(lines: seq<seq<Byte>>, line: seq<Byte>, rest: seq<seq<Byte>>)
    ensures lines + ([line] + rest) == (lines + [line]) + rest
  {}

  /** Calling evbuffer_readln until it returns no line. */
  method ReadAll(buf: Buffer, style: EolStyle) returns (lines: seq<seq<Byte>>)
    requires buf.Valid() && !buf.freezeStart
    modifies buf, buf.list.chains
    ensures buf.Valid()
    ensures Lines(old(buf.Contents()), style) == Reading(lines, buf.Contents())
  {
    hide Join, Buffer.Valid, Buffer.Ahead, AfterLine, DrainedTwice, NoEnd, FirstEnd, EndsAt, EolLength, Lines;
    hide NoLine, IsLine;
    ghost var s, t := buf.Contents(), Lines(buf.Contents(), style);
    lines := [];
    var more := true;
    while more
      invariant buf.Valid() && !buf.freezeStart
      invariant forall c | c in buf.list.chains :: c in old(buf.list.chains)
      invariant t == Lines(buf.Contents(), style) && Lines(s, style) == Reading(lines + t.lines, t.rest)
      invariant !more ==> t == Reading([], buf.Contents())
      decreases more, |buf.Contents()|
    {
      assert forall i | 0 <= i < |buf.list.chains| :: buf.list.chains[i] in old(buf.list.chains);
      ghost var before := buf.Contents();
      var line := ReadLn(buf, style);
      LinesStep(before, style, if line.None? then -1 else |line.value|);
      if line.None? {
        more := false;
      } else {
        FirstEndBounds(before, style, 0, |line.value|);
        OneLineMore(lines, line.value, Lines(buf.Contents(), style).lines);
        lines := lines + [line.value];
      }
      t := Lines(buf.Contents(), style);
    }
    assert lines + [] == lines;
  }

  // ------------------------------------------------------------------
  // Lines written with a terminator are read back
  // ------------------------------------------------------------------

  /** What a writer of lines of the given style puts behind each line. */
  function Eol(style: EolStyle): (r: seq<Byte>) {
    if style == Any || style == LfOnly then [LF] else [CR, LF]
  }

  function Unlines(lines: seq<seq<Byte>>, style: EolStyle): (r: seq<Byte>) {
    if lines == [] then [] else lines[0] + Eol(style) + Unlines(lines[1..], style)
  }

  /** Lines that hold no line end themselves. */
  ghost predicate Clean(lines: seq<seq<Byte>>, style: EolStyle) {
    forall i | 0 <= i < |lines| :: NoEnd(lines[i], style, 0, |lines[i]|)
  }

  /** A clean line is followed by its own terminator. */
  lemma LineEnds(line: seq<Byte>, tail: seq<Byte>, style: EolStyle)
    requires NoEnd(line, style, 0, |line|)
    ensures FirstEnd(line + Eol(style) + tail, style, 0, |line|)
  {
    var s, n := line + Eol(style) + tail, |line|;
    assert s[n] == Eol(style)[0];
    assert style.Crlf? || style.CrlfStrict? ==> s[n..n + 2] == [CR, LF];
    forall j | 0 <= j < n
      ensures !EndsAt(s, style, j)
    {
      assert s[j] == line[j] && !EndsAt(line, style, j);
      CrlfAt(s, j);
      CrlfAt(line, j);
      if j + 1 < n {
        assert s[j + 1] == line[j + 1];
      }
    }
  }

  lemma NoLines(rest: seq<Byte>, style: EolStyle)
    requires NoEnd(rest, style, 0, |rest|)
    ensures Lines(rest, style) == Reading([], rest)
  {}

  /** Lines of every style but Any are read back as they were written. */
  lemma {:induction false} LinesRoundTrip(lines: seq<seq<Byte>>, rest: seq<Byte>, style: EolStyle)
    requires !style.Any? && Clean(lines, style) && NoEnd(rest, style, 0, |rest|)
    ensures Lines(Unlines(lines, style) + rest, style) == Reading(lines, rest)
  {
    hide Lines, NoEnd;
    var s := Unlines(lines, style) + rest;
    if lines == [] {
      assert s == rest;
      NoLines(rest, style);
    } else {
      var tail := Unlines(lines[1..], style) + rest;
      LinesRoundTrip(lines[1..], rest, style);
      ReadOne(lines[0], tail, style);
      assert s == lines[0] + Eol(style) + tail;
      assert [lines[0]] + lines[1..] == lines;
    }
  }

  /** Reading takes one written line off. */
  lemma ReadOne(line: seq<Byte>, tail: seq<Byte>, style: EolStyle)
    requires NoEnd(line, style, 0, |line|)
    requires style.Any? ==> tail == [] || (tail[0] != CR && tail[0] != LF)
    ensures Lines(line + Eol(style) + tail, style) ==
            Reading([line] + Lines(tail, style).lines, Lines(tail, style).rest)
  {
    var s, n := line + Eol(style) + tail, |line|;
    LineEnds(line, tail, style);
    FirstEndUnique(s, style, 0, n);
    assert s[n] == Eol(style)[0];
    if style.Any? && tail != [] {
      assert s[n + 1] == tail[0];
    }
    assert EolLength(s, style, n) == |Eol(style)|;
    assert s[..n] == line && s[n + |Eol(style)|..] == tail;
  }

  /** With style Any, no line but the first is read as empty. */
  lemma {:induction false} AnyLinesNotEmpty(s: seq<Byte>, i: nat)
    requires i < |Lines(s, Any).lines|
    requires i > 0 || (s != [] && s[0] != CR && s[0] != LF)
    ensures Lines(s, Any).lines[i] != []
    decreases |s|
  {
    var n := EndFrom(s, Any, 0);
    var len := EolLength(s, Any, n);
    var t := s[n + len..];
    if i > 0 {
      assert t != [] ==> t[0] == s[n + len];
      assert t == [] ==> Lines(t, Any).lines == [] by { FirstEndUnique([], Any, 0, -1); }
      AnyLinesNotEmpty(t, i - 1);
    }
  }

  /** Lines written with LF are read back with style Any exactly if none but the first is
      empty. */
  lemma AnyRoundTrip(lines: seq<seq<Byte>>, rest: seq<Byte>)
    requires Clean(lines, Any) && NoEnd(rest, Any, 0, |rest|)
    ensures Lines(Unlines(lines, Any) + rest, Any) == Reading(lines, rest)
            <==> forall i | 1 <= i < |lines| :: lines[i] != []
  {
    var s := Unlines(lines, Any) + rest;
    if forall i | 1 <= i < |lines| :: lines[i] != [] {
      AnyReadBack(lines, rest);
    } else {
      var i :| 1 <= i < |lines| && lines[i] == [];
      if Lines(s, Any) == Reading(lines, rest) {
        AnyLinesNotEmpty(s, i);
        assert false;
      }
    }
  }

  /** An empty line between two others is not read back. */
  lemma AnyWitness(lines: seq<seq<Byte>>)
    requires lines == [[65], [], [66]]
    ensures Lines(Unlines(lines, Any), Any) != Reading(lines, [])
  {
    AnyRoundTrip(lines, []);
    assert Unlines(lines, Any) + [] == Unlines(lines, Any);
  }

  lemma {:induction false} AnyReadBack(lines: seq<seq<Byte>>, rest: seq<Byte>)
    requires Clean(lines, Any) && NoEnd(rest, Any, 0, |rest|)
    requires forall i | 1 <= i < |lines| :: lines[i] != []
    ensures Lines(Unlines(lines, Any) + rest, Any) == Reading(lines, rest)
  {
    hide Lines;
    var s := Unlines(lines, Any) + rest;
    if lines == [] {
      assert s == rest;
      NoLines(rest, Any);
    } else {
      var tail := Unlines(lines[1..], Any) + rest;
      AnyReadBack(lines[1..], rest);
      if |lines| > 1 {
        assert tail[0] == lines[1][0] && !EndsAt(lines[1], Any, 0);
      } else if tail != [] {
        assert tail[0] == rest[0] && !EndsAt(rest, Any, 0);
      }
      ReadOne(lines[0], tail, Any);
      assert s == lines[0] + Eol(Any) + tail;
      assert [lines[0]] + lines[1..] == lines;
    }
  }

  // ------------------------------------------------------------------
  // Lines that end in either way
  // ------------------------------------------------------------------

  /** Lines, each with LF behind it if bare[i], else with CR and LF. */
  function Mixed(lines: seq<seq<Byte>>, bare: seq<bool>): (r: seq<Byte>)
    requires |bare| == |lines|
  {
    if lines == [] then []
    else lines[0] + (if bare[0] then [LF] else [CR, LF]) + Mixed(lines[1..], bare[1..])
  }

  /** A line that would read its CR as part of a bare line end. */
  predicate Swallowed(line: seq<Byte>, bare: bool) {
    bare && line != [] && line[|line| - 1] == CR
  }

  /** Reading takes one line off, whatever its end. */
  lemma ReadEither(line: seq<Byte>, bare: bool, tail: seq<Byte>)
    requires LF !in line && !Swallowed(line, bare)
    ensures var t := Lines(tail, Crlf);
            Lines(line + (if bare then [LF] else [CR, LF]) + tail, Crlf) == Reading([line] + t.lines, t.rest)
  {
    hide EndsAt, EolLength, Lines;
    var eol := if bare then [LF] else [CR, LF];
    var s, n := line + eol + tail, |line|;
    assert s[..n] == line && s[n..n + |eol|] == eol && s[n + |eol|..] == tail;
    LineIs(s, Crlf, n, |eol|);
    LinesStep(s, Crlf, n);
  }

  /** A CR before a bare LF goes with it: the line read is shorter. */
  lemma ReadSwallowed(line: seq<Byte>, tail: seq<Byte>)
    requires LF !in line && Swallowed(line, true)
    ensures var r := Lines(line + [LF] + tail, Crlf); r.lines != [] && r.lines[0] != line
  {
    hide EndsAt, EolLength, Lines;
    var s, n := line + [LF] + tail, |line| - 1;
    assert s[..n] == line[..n] && s[n..n + 2] == [CR, LF] && s[n + 2..] == tail;
    LineIs(s, Crlf, n, 2);
    LinesStep(s, Crlf, n);
  }

  /** With style Crlf, lines without LF that each end in LF or in CR and LF are read back as
      they were written exactly if no line before a bare LF ends in CR. */
  lemma {:induction false} CrlfRoundTrip(lines: seq<seq<Byte>>, bare: seq<bool>, rest: seq<Byte>)
    requires |bare| == |lines| && (forall i | 0 <= i < |lines| :: LF !in lines[i]) && LF !in rest
    ensures Lines(Mixed(lines, bare) + rest, Crlf) == Reading(lines, rest)
            <==> forall i | 0 <= i < |lines| :: !Swallowed(lines[i], bare[i])
    decreases |lines|
  {
    hide Lines, Swallowed, EndsAt;
    var s := Mixed(lines, bare) + rest;
    if lines == [] {
      assert s == rest;
      NoneIsNoLine(rest, Crlf);
      LinesStep(rest, Crlf, -1);
    } else {
      var tail := Mixed(lines[1..], bare[1..]) + rest;
      assert s == lines[0] + (if bare[0] then [LF] else [CR, LF]) + tail;
      if Swallowed(lines[0], bare[0]) {
        assert bare[0] by { SwallowedBare(lines[0], bare[0]); }
        ReadSwallowed(lines[0], tail);
      } else {
        CrlfRoundTrip(lines[1..], bare[1..], rest);
        ReadEither(lines[0], bare[0], tail);
        assert [lines[0]] + lines[1..] == lines;
        assert forall i | 1 <= i < |lines| :: lines[i] == lines[1..][i - 1] && bare[i] == bare[1..][i - 1];
        RestRead(lines, Lines(tail, Crlf), rest);
      }
    }
  }

  lemma SwallowedBare(line: seq<Byte>, bare: bool)
    requires Swallowed(line, bare)
    ensures bare
  {}

  lemma RestRead(lines: seq<seq<Byte>>, t: Reading, rest: seq<Byte>)
    requires lines != []
    ensures Reading([lines[0]] + t.lines, t.rest) == Reading(lines, rest) <==> t == Reading(lines[1..], rest)
  {
    assert ([lines[0]] + t.lines)[1..] == t.lines;
    assert [lines[0]] + lines[1..] == lines;
  }
}
