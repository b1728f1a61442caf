/** The slot of a key in a Redis cluster, with hash tags. */
module HashSlot {
  import opened Basics
  import opened Crc16

  const OPEN: Byte := 0x7B
  const CLOSE: Byte := 0x7D

  type Key = seq<Byte>

  predicate Without(key: Key, b: Byte, lo: nat, hi: nat)
    requires hi <= |key|
  {
    forall i | lo <= i < hi :: key[i] != b
  }

  /** The tag of a key is what stands between the first { and the first } after it, if that
      is not empty. */
  ghost predicate IsTag(key: Key, s: int, e: int) {
    && 0 <= s && s + 1 < e < |key|
    && key[s] == OPEN && Without(key, OPEN, 0, s)
    && key[e] == CLOSE && Without(key, CLOSE, s + 1, e)
  }

  ghost predicate HasTag(key: Key) {
    exists s, e :: IsTag(key, s, e)
  }

  /** What is hashed for a key: its tag if it has one, else all of it. */
  ghost function Hashed(key: Key): (r: Key)
    ensures forall s, e | IsTag(key, s, e) :: r == key[s + 1..e]
    ensures !HasTag(key) ==> r == key
  {
    if HasTag(key) then
      var s, e :| IsTag(key, s, e);
      OneTag(key, s, e);
      key[s + 1..e]
    else key
  }

  lemma OneTag(key: Key, s: int, e: int)
    requires IsTag(key, s, e)
    ensures forall s', e' | IsTag(key, s', e') :: s' == s && e' == e
  {}

  /** What is hashed of a key written in parts: with {tag} in it the tag, whatever stands before
      and behind, and with {} or without a closed brace all of it. */
  lemma HashedParts(a: Key, tag: Key, b: Key)
    requires OPEN !in a
    ensures CLOSE !in tag ==>
              var key := a + [OPEN] + tag + [CLOSE] + b; Hashed(key) == if tag == [] then key else tag
    ensures CLOSE !in tag ==> Hashed(a + [OPEN] + tag) == a + [OPEN] + tag
    ensures Hashed(a) == a
  {
    var n := |a|;
    if CLOSE !in tag {
      var key := a + [OPEN] + tag + [CLOSE] + b;
      var e := n + 1 + |tag|;
      assert key[n] == OPEN && key[e] == CLOSE && key[n + 1..e] == tag;
      assert forall i | 0 <= i < n :: key[i] == a[i];
      assert forall i | n + 1 <= i < e :: key[i] == tag[i - n - 1];
      if tag != [] {
        assert IsTag(key, n, e);
      }
      var open := a + [OPEN] + tag;
      assert open[n] == OPEN && (forall i | 0 <= i < n :: open[i] == a[i]);
      assert forall i | n + 1 <= i < |open| :: open[i] == tag[i - n - 1];
    }
  }

  function Slot(crc: bv16): (r: bv16)
    ensures r < 16384
  {
    crc & 16383
  }

  /** The slot that the cluster specification assigns to a key. */
  ghost function SlotOf(key: Key): (r: bv16)
    ensures r < 16384
  {
    Slot(BitCrc(0, Hashed(key)))
  }

  /** The low fourteen bits and the two above them, as numbers. */
  lemma LowBits(crc: bv16, low: bv16, high: bv16)
    requires low == crc & 16383 && high == crc >> 14
    ensures crc as int == 16384 * high as int + low as int
  {}

  lemma LowBound(low: bv16)
    requires low < 16384
    ensures 0 <= low as int < 16384
  {}

  lemma LowIsRest(x: int, q: int, m: int)
    requires 0 <= m < 16384 && x == 16384 * q + m
    ensures x % 16384 == m
  {}

  lemma SlotBits(crc: bv16)
    ensures Slot(crc) == crc & 16383
  {}

  /** The rule of the cluster specification: the checksum of what is hashed, modulo 16384. */
  lemma SlotIsRest(key: Key)
    ensures SlotOf(key) as int == BitCrc(0, Hashed(key)) as int % 16384
  {
    hide BitCrc, Slot;
    var crc := BitCrc(0, Hashed(key));
    var low, high := Slot(crc), crc >> 14;
    SlotBits(crc);
    LowBits(crc, low, high);
    LowBound(low);
    LowIsRest(crc as int, high as int, low as int);
  }

  /** HASH_SLOT */
  method Compute(key: Key) returns (slot: bv16)
    ensures slot == SlotOf(key)
    ensures slot as int == BitCrc(0, Hashed(key)) as int % 16384
  {
    hide BitCrc, Slot, SlotOf, IsTag;
    SlotIsRest(key);
    slot := ComputeTagged(key);
  }

  /** The two scans and the checksum. */
  method ComputeTagged(key: Key) returns (slot: bv16)
    ensures slot == SlotOf(key)
  {
    hide BitCrc, Slot;
    var start := 0;
    while start < |key| && key[start] != OPEN
      invariant 0 <= start <= |key| && Without(key, OPEN, 0, start)
    {
      start := start + 1;
    }
    var crc: bv16;
    if start == |key| {
      assert !HasTag(key);
      crc := Crc16.Compute(key);
      return Slot(crc);
    }
    var end := start + 1;
    while end < |key| && key[end] != CLOSE
      invariant start < end <= |key| && Without(key, CLOSE, start + 1, end)
    {
      end := end + 1;
    }
    if end == |key| || end == start + 1 {
      assert !HasTag(key);
      crc := Crc16.Compute(key);
      return Slot(crc);
    }
    assert IsTag(key, start, end);
    crc := Crc16.Compute(key[start + 1..end]);
    slot := Slot(crc);
  }

  /** Keys with the same tag have the same slot. */
  lemma SameTagSameSlot(a: Key, b: Key, s: int, e: int, t: int, f: int)
    requires IsTag(a, s, e) && IsTag(b, t, f) && a[s + 1..e] == b[t + 1..f]
    ensures SlotOf(a) == SlotOf(b)
  {}

  /** The slot of a key is the slot of its tag taken as a key. */
  lemma SlotOfTag(key: Key)
    ensures SlotOf(Hashed(key)) == SlotOf(key)
  {}
}
