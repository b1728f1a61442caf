/** The session cache: a list of nodes in the order of their insertion, and a map from keys to
    the nodes of the list. */
module SessionCache {
  import opened Basics

  /** A node of the list.  The map holds it as the iterator that designates it. */
  class Node<K, V> {
    const key: K
    const value: V
    const timestamp: int

    constructor (key: K, value: V, timestamp: int)
      ensures this.key == key && this.value == value && this.timestamp == timestamp
    {
      this.key, this.value, this.timestamp := key, value, timestamp;
    }
  }

  /** What the cache is to its users: keys with a value and the time of insertion. */
  datatype Entry<V> = Entry(value: V, timestamp: int)

  type Dict<K, V> = map<K, Entry<V>>

  /** Dropping what is older than the timeout. */
  function Fresh<K, V>(d: Dict<K, V>, now: int, timeout: int): (r: Dict<K, V>) {
    map k | k in d && now - d[k].timestamp < timeout :: d[k]
  }

  /** The keys of a sequence that are in a set. */
  function Within<K>(order: seq<K>, keys: set<K>): (r: seq<K>) {
    if order == [] then []
    else
      var n := |order| - 1;
      Within(order[..n], keys) + if order[n] in keys then [order[n]] else []
  }

  lemma {:induction false} WithinKeys<K>(order: seq<K>, keys: set<K>)
    ensures forall k | k in Within(order, keys) :: k in keys
  {
    if order != [] {
      WithinKeys(order[..|order| - 1], keys);
    }
  }

  lemma {:induction false} WithinConcat<K>(a: seq<K>, b: seq<K>, keys: set<K>)
    ensures Within(a + b, keys) == Within(a, keys) + Within(b, keys)
  {
    if b == [] {
      assert a + b == a;
    } else {
      WithinConcat(a, b[..|b| - 1], keys);
      assert (a + b)[..|a + b| - 1] == a + b[..|b| - 1];
    }
  }

  lemma {:induction false} WithinAll<K>(a: seq<K>, keys: set<K>)
    requires forall k | k in a :: k in keys
    ensures Within(a, keys) == a
  {
    if a != [] {
      WithinAll(a[..|a| - 1], keys);
      assert a == a[..|a| - 1] + [a[|a| - 1]];
    }
  }

  lemma {:induction false} WithinNone<K>(a: seq<K>, keys: set<K>)
    requires forall k | k in a :: k !in keys
    ensures Within(a, keys) == []
  {
    if a != [] {
      WithinNone(a[..|a| - 1], keys);
    }
  }

  // ------------------------------------------------------------------
  // The list and the map
  // ------------------------------------------------------------------

  function KeysOf<K, V>(ns: seq<Node<K, V>>): (r: seq<K>) {
    seq(|ns|, i requires 0 <= i < |ns| => ns[i].key)
  }

  lemma KeysAgree<K, V>(ns: seq<Node<K, V>>, index: map<K, Node<K, V>>)
    requires Agree(ns, index)
    ensures forall k | k in KeysOf(ns) :: k in AsDict(index)
    ensures forall k | k in AsDict(index) :: k in KeysOf(ns)
  {
    forall k | k in index
      ensures k in KeysOf(ns)
    {
      var i :| 0 <= i < |ns| && ns[i] == index[k];
      assert KeysOf(ns)[i] == k;
    }
  }

  predicate Sorted<K, V>(ns: seq<Node<K, V>>) {
    forall i, j | 0 <= i < j < |ns| :: ns[i].timestamp <= ns[j].timestamp
  }

  predicate Distinct<K(==), V>(ns: seq<Node<K, V>>) {
    forall i, j | 0 <= i < j < |ns| :: ns[i].key != ns[j].key
  }

  /** The map and the list hold the same keys, and each key designates its own node. */
  predicate Agree<K(==), V>(ns: seq<Node<K, V>>, index: map<K, Node<K, V>>) {
    && (forall i | 0 <= i < |ns| :: ns[i].key in index && index[ns[i].key] == ns[i])
    && (forall k | k in index :: index[k] in ns && index[k].key == k)
  }

  function AsDict<K, V>(index: map<K, Node<K, V>>): (r: Dict<K, V>) {
    map k | k in index :: Entry(index[k].value, index[k].timestamp)
  }

  predicate Expired<K, V>(n: Node<K, V>, now: int, timeout: int) {
    now - n.timestamp >= timeout
  }

  /** How many nodes the loop of ClearTimeout erases before it stops. */
  function Run<K, V>(ns: seq<Node<K, V>>, now: int, timeout: int): (r: nat)
    ensures r <= |ns|
    ensures forall i | 0 <= i < r :: Expired(ns[i], now, timeout)
    ensures r < |ns| ==> !Expired(ns[r], now, timeout)
  {
    if ns == [] || !Expired(ns[0], now, timeout) then 0 else 1 + Run(ns[1..], now, timeout)
  }

  /** Stopping at the first fresh node erases every expired one if and only if no fresh node
      comes before an expired one. */
  lemma EarlyExit<K, V>(ns: seq<Node<K, V>>, now: int, timeout: int)
    ensures (forall i | Run(ns, now, timeout) <= i < |ns| :: !Expired(ns[i], now, timeout)) <==>
            (forall i, j | 0 <= i < j < |ns| :: Expired(ns[j], now, timeout) ==> Expired(ns[i], now, timeout))
  {}

  /** In a sorted list it does so for any timeout. */
  lemma SortedEarlyExit<K, V>(ns: seq<Node<K, V>>, now: int, timeout: int)
    requires Sorted(ns)
    ensures forall i | 0 <= i < |ns| :: Expired(ns[i], now, timeout) <==> i < Run(ns, now, timeout)
  {}

  /** A list without the node at place i. */
  function Without<K, V>(ns: seq<Node<K, V>>, i: nat): (r: seq<Node<K, V>>)
    requires i < |ns|
  {
    ns[..i] + ns[i + 1..]
  }

  lemma WithoutKeeps<K, V>(ns: seq<Node<K, V>>, index: map<K, Node<K, V>>, i: nat)
    requires i < |ns| && Sorted(ns) && Distinct(ns) && Agree(ns, index)
    ensures var r := Without(ns, i); Sorted(r) && Distinct(r) && Agree(r, index - {ns[i].key})
  {}

  lemma WithoutFirst<K, V>(ns: seq<Node<K, V>>, index: map<K, Node<K, V>>)
    requires ns != [] && Sorted(ns) && Distinct(ns) && Agree(ns, index)
    ensures Sorted(ns[1..]) && Distinct(ns[1..]) && Agree(ns[1..], index - {ns[0].key})
  {
    hide Sorted, Distinct, Agree;
    WithoutKeeps(ns, index, 0);
    assert Without(ns, 0) == ns[1..];
  }

  /** A key of the map designates a node of the list that has that key. */
  lemma Designates<K, V>(ns: seq<Node<K, V>>, index: map<K, Node<K, V>>, key: K)
    requires Agree(ns, index) && key in index
    ensures index[key] in ns && index[key].key == key
  {}

  lemma WithoutWithin<K, V>(ns: seq<Node<K, V>>, i: nat, clock: int)
    requires i < |ns| && forall j | 0 <= j < |ns| :: ns[j].timestamp <= clock
    ensures forall j | 0 <= j < |Without(ns, i)| :: Without(ns, i)[j].timestamp <= clock
  {}

  lemma AppendKeeps<K, V>(ns: seq<Node<K, V>>, index: map<K, Node<K, V>>, n: Node<K, V>)
    requires Sorted(ns) && Distinct(ns) && Agree(ns, index) && n.key !in index
    requires forall i | 0 <= i < |ns| :: ns[i].timestamp <= n.timestamp
    ensures Sorted(ns + [n]) && Distinct(ns + [n]) && Agree(ns + [n], index[n.key := n])
  {}

  class Cache<K(!new, ==), V> {
    var timeout: int
    var maxSize: nat
    var list: seq<Node<K, V>>
    var index: map<K, Node<K, V>>

    // the latest time at which the cache was used
    ghost var clock: int

    ghost predicate Valid()
      reads this
    {
      && Sorted(list) && Distinct(list) && Agree(list, index)
      && forall i | 0 <= i < |list| :: list[i].timestamp <= clock
    }

    ghost function Contents(): (r: Dict<K, V>)
      reads this
    {
      AsDict(index)
    }

    /** The keys, in the order of their insertion. */
    ghost function Order(): (r: seq<K>)
      reads this
    {
      KeysOf(list)
    }

    constructor (timeout: int)
      ensures Valid() && Contents() == map[] && Order() == [] && this.timeout == timeout && maxSize == 100
    {
      this.timeout, maxSize, list, index := timeout, 100, [], map[];
    }

    /** The size of the map, which the source asserts to be that of the list. */
    method Size() returns (n: nat)
      requires Valid()
      ensures n == |Contents()| == |list|
    {
      SameSize(list, index);
      AsDictSize(index);
      n := |index|;
    }

    /** The loop of the ClearTimeout functions: nodes are erased from the front until one is
        fresh. */
    method EraseFront(now: int, timeout: int) returns (values: seq<V>, keys: seq<K>)
      requires Valid()
      modifies this`list, this`index
      ensures Valid()
      ensures var n := Run(old(list), now, timeout); Reported(old(list)[..n], values, keys) && list == old(list)[n..]
      ensures forall k | k in index :: k in old(index) && index[k] == old(index)[k]
    {
      hide Sorted, Distinct, Agree, Run, Reported, Without;
      ghost var ns, n := list, Run(list, now, timeout);
      SortedEarlyExit(ns, now, timeout);
      values, keys := [], [];
      NoneReported(ns[..0], values, keys);
      while list != [] && !(now - list[0].timestamp < timeout)
        invariant Sorted(list) && Distinct(list) && Agree(list, index)
        invariant |keys| <= n <= |ns| && list == ns[|keys|..] && Reported(ns[..|keys|], values, keys)
        invariant forall k | k in index :: k in old(index) && index[k] == old(index)[k]
        decreases |list|
      {
        var node := list[0];
        assert node == ns[|keys|] && Expired(node, now, timeout);
        WithoutFirst(list, index);
        NextReported(ns, |keys|, values, keys);
        values, keys := values + [node.value], keys + [node.key];
        list := list[1..];
        index := index - {node.key};
      }
      assert list != [] ==> list[0] == ns[|keys|];
      assert |keys| == n;
    }

    /** ClearTimeout, with the values and keys that the vector overload returns. */
    method Expire(now: int, timeout: int) returns (values: seq<V>, keys: seq<K>)
      requires Valid()
      modifies this`list, this`index
      ensures Valid() && Contents() == Fresh(old(Contents()), now, timeout)
      ensures Order() == Within(old(Order()), Contents().Keys)
      ensures keys == Within(old(Order()), old(Contents()).Keys - Contents().Keys)
      ensures |values| == |keys| && forall i, j | 0 <= i < j < |keys| :: keys[i] != keys[j]
      ensures forall i | 0 <= i < |keys| :: keys[i] in old(Contents()) && values[i] == old(Contents())[keys[i]].value
      ensures forall i, j | 0 <= i < j < |keys| ::
                old(Contents())[keys[i]].timestamp <= old(Contents())[keys[j]].timestamp
    {
      hide Fresh, Run, Sorted, Distinct, Agree, AsDict, KeysOf, Within, Reported;
      ghost var ns, n := list, Run(list, now, timeout);
      values, keys := EraseFront(now, timeout);
      SortedEarlyExit(ns, now, timeout);
      ErasedExactly(ns, old(index), n, index, now, timeout);
      ErasedOrder(ns, old(index), n, index, keys, values);
      ReportedOnce(ns, old(index), n, values, keys);
    }

    /** AutoClearTimeout */
    method AutoClear(now: int)
      requires Valid()
      modifies this`list, this`index
      ensures Valid()
      ensures Contents() ==
              if |old(Contents())| > maxSize then Fresh(old(Contents()), now, timeout) else old(Contents())
      ensures Order() == Within(old(Order()), Contents().Keys)
    {
      hide Fresh, Sorted, Distinct, Agree, AsDict, KeysOf, Within;
      AsDictSize(index);
      if |index| <= maxSize {
        KeysAgree(list, index);
        WithinAll(Order(), Contents().Keys);
        return;
      }
      var values, keys := Expire(now, timeout);
    }

    /** PushSession at time now. */
    method PushSession(key: K, value: V, now: int) returns (ok: bool)
      requires Valid() && clock <= now
      modifies this`list, this`index, this`clock
      ensures Valid() && clock == now
      ensures var d := if |old(Contents())| > maxSize then Fresh(old(Contents()), now, timeout) else old(Contents());
              && ok == (key !in d) && Contents() == (if ok then d[key := Entry(value, now)] else d)
              && var order := Within(old(Order()), d.Keys); Order() == if ok then order + [key] else order
    {
      hide Fresh, Sorted, Distinct, Agree, Within;
      AutoClear(now);
      clock := now;
      ok := key !in index;
      if ok {
        var node := new Node(key, value, now);
        AppendKeeps(list, index, node);
        list := list + [node];
        index := index[key := node];
      }
    }

    /** FindSession */
    method FindSession(key: K) returns (r: Option<V>)
      requires Valid()
      ensures r == if key in Contents() then Some(Contents()[key].value) else None
    {
      if key !in index {
        return None;
      }
      // the source asserts that the node has the key
      Designates(list, index, key);
      r := Some(index[key].value);
    }

    /** PopSession, and DelSession for callers that ignore the value. */
    method PopSession(key: K) returns (r: Option<V>)
      requires Valid()
      modifies this`list, this`index
      ensures Valid() && Contents() == old(Contents()) - {key}
      ensures Order() == Within(old(Order()), Contents().Keys)
      ensures r == if key in old(Contents()) then Some(old(Contents())[key].value) else None
    {
      hide Sorted, Distinct, Agree, Without, Within, KeysOf;
      if key !in index {
        assert Contents() - {key} == Contents();
        KeysAgree(list, index);
        WithinAll(Order(), Contents().Keys);
        return None;
      }
      Designates(list, index, key);
      var node := index[key];
      var i :| 0 <= i < |list| && list[i] == node;
      WithoutKeeps(list, index, i);
      WithoutWithin(list, i, clock);
      WithoutOrder(list, index, i);
      r := Some(node.value);
      list := Without(list, i);
      index := index - {key};
      assert Contents() == old(Contents()) - {key};
    }

    method ClearAll()
      modifies this`list, this`index
      ensures Valid() && Contents() == map[] && Order() == []
    {
      list, index := [], map[];
    }
  }

  /** The values and keys of the nodes, in order. */
  ghost predicate Reported<K, V>(ns: seq<Node<K, V>>, values: seq<V>, keys: seq<K>)
  {
    |values| == |keys| == |ns| && forall i | 0 <= i < |ns| :: keys[i] == ns[i].key && values[i] == ns[i].value
  }

  lemma NoneReported<K, V>(ns: seq<Node<K, V>>, values: seq<V>, keys: seq<K>)
    requires ns == [] && values == [] && keys == []
    ensures Reported(ns, values, keys)
  {}

  lemma NextReported<K, V>(ns: seq<Node<K, V>>, n: nat, values: seq<V>, keys: seq<K>)
    requires n < |ns| && Reported(ns[..n], values, keys)
    ensures Reported(ns[..n + 1], values + [ns[n].value], keys + [ns[n].key])
  {
    forall i | 0 <= i < n
      ensures keys[i] == ns[i].key && values[i] == ns[i].value
    {
      assert ns[..n][i] == ns[i];
    }
  }

  lemma {:induction false} SameSize<K, V>(ns: seq<Node<K, V>>, index: map<K, Node<K, V>>)
    requires Sorted(ns) && Distinct(ns) && Agree(ns, index)
    ensures |index| == |ns|
  {
    if ns == [] {
      assert index.Keys == {};
    } else {
      WithoutKeeps(ns, index, 0);
      SameSize(Without(ns, 0), index - {ns[0].key});
      assert index.Keys == (index - {ns[0].key}).Keys + {ns[0].key};
    }
  }

  lemma AsDictSize<K, V>(index: map<K, Node<K, V>>)
    ensures |AsDict(index)| == |index|
  {
    assert AsDict(index).Keys == index.Keys;
  }

  /** The keys that are left, in order, when the node at place i is taken out. */
  lemma WithoutOrder<K, V>(ns: seq<Node<K, V>>, index: map<K, Node<K, V>>, i: nat)
    requires i < |ns| && Distinct(ns) && Agree(ns, index)
    ensures KeysOf(Without(ns, i)) == Within(KeysOf(ns), AsDict(index).Keys - {ns[i].key})
  {
    hide Within;
    var a, b, keys := KeysOf(ns[..i]), KeysOf(ns[i + 1..]), AsDict(index).Keys - {ns[i].key};
    assert KeysOf(ns) == a + ([ns[i].key] + b) && KeysOf(Without(ns, i)) == a + b;
    WithinConcat(a, [ns[i].key] + b, keys);
    WithinConcat([ns[i].key], b, keys);
    WithinNone([ns[i].key], keys);
    WithinAll(a, keys);
    WithinAll(b, keys);
  }

  /** The keys that are left and those that were erased, in order. */
  lemma ErasedOrder<K, V>(ns: seq<Node<K, V>>, before: map<K, Node<K, V>>, n: nat,
                          after: map<K, Node<K, V>>, keys: seq<K>, values: seq<V>)
    requires n <= |ns| && Distinct(ns) && Agree(ns, before) && Agree(ns[n..], after)
    requires Reported(ns[..n], values, keys)
    ensures KeysOf(ns[n..]) == Within(KeysOf(ns), AsDict(after).Keys)
    ensures keys == Within(KeysOf(ns), AsDict(before).Keys - AsDict(after).Keys)
  {
    hide Within, AsDict;
    var a, b := KeysOf(ns[..n]), KeysOf(ns[n..]);
    assert KeysOf(ns) == a + b && keys == a;
    KeysAgree(ns, before);
    KeysAgree(ns[n..], after);
    assert forall k | k in a :: k !in b;
    var gone := AsDict(before).Keys - AsDict(after).Keys;
    assert forall k | k in a :: k in KeysOf(ns);
    WithinConcat(a, b, AsDict(after).Keys);
    WithinNone(a, AsDict(after).Keys);
    WithinAll(b, AsDict(after).Keys);
    WithinConcat(a, b, gone);
    WithinAll(a, gone);
    WithinNone(b, gone);
    assert a + [] == a && [] + b == b;
  }

  /** The values and keys of the first n nodes: each key once, with its value, in order of time. */
  lemma ReportedOnce<K, V>(ns: seq<Node<K, V>>, index: map<K, Node<K, V>>, n: nat, values: seq<V>, keys: seq<K>)
    requires n <= |ns| && Sorted(ns) && Distinct(ns) && Agree(ns, index) && Reported(ns[..n], values, keys)
    ensures |values| == |keys| && forall i, j | 0 <= i < j < |keys| :: keys[i] != keys[j]
    ensures forall i | 0 <= i < |keys| :: keys[i] in AsDict(index) && values[i] == AsDict(index)[keys[i]].value
    ensures forall i, j | 0 <= i < j < |keys| ::
              AsDict(index)[keys[i]].timestamp <= AsDict(index)[keys[j]].timestamp
  {
    assert forall i | 0 <= i < n :: keys[i] == ns[i].key && values[i] == ns[i].value && index[keys[i]] == ns[i];
  }

  /** What is left when the first n nodes are erased, which are the expired ones. */
  lemma ErasedExactly<K, V>(ns: seq<Node<K, V>>, before: map<K, Node<K, V>>, n: nat,
                            after: map<K, Node<K, V>>, now: int, timeout: int)
    requires n <= |ns| && Agree(ns, before) && Agree(ns[n..], after)
    requires forall i | 0 <= i < |ns| :: Expired(ns[i], now, timeout) <==> i < n
    requires forall k | k in after :: k in before && after[k] == before[k]
    ensures AsDict(after) == Fresh(AsDict(before), now, timeout)
  {}

  // ------------------------------------------------------------------
  // Runs
  // ------------------------------------------------------------------

  datatype Op<K, V> =
    | Push(key: K, value: V)
    | Find(key: K)
    | Pop(key: K)
    | ClearTimeout
    | ClearTimeoutOf(timeout: int)
    | ClearTimeoutInto
    | ClearAll
    | SetTimeout(timeout: int)
    | SetMaxSize(size: nat)

  datatype Timed<K, V> = Timed(op: Op<K, V>, now: int)

  /** The cache as a plain dictionary that knows the order of insertion. */
  datatype Model<K, V> = Model(dict: Dict<K, V>, order: seq<K>, timeout: int, maxSize: nat) {
    /** Only the keys of d are left. */
    function Only(d: Dict<K, V>): (r: Model<K, V>) {
      this.(dict := d, order := Within(order, d.Keys))
    }
  }

  /** What an operation returns; keys and values are what ClearTimeout hands out. */
  datatype Out<K, V> = Out(ok: bool, value: Option<V>, keys: seq<K>, values: seq<V>)

  function Plain<K, V>(ok: bool, value: Option<V>): (r: Out<K, V>) {
    Out(ok, value, [], [])
  }

  /** The values of keys. */
  function ValuesAt<K, V>(d: Dict<K, V>, keys: seq<K>): (r: seq<V>)
    requires forall k | k in keys :: k in d
  {
    seq(|keys|, i requires 0 <= i < |keys| => assert keys[i] in keys; d[keys[i]].value)
  }

  function Meaning<K, V>(m: Model<K, V>, t: Timed<K, V>): (r: (Model<K, V>, Out<K, V>)) {
    match t.op
    case Push(k, v) =>
      var n := m.Only(if |m.dict| > m.maxSize then Fresh(m.dict, t.now, m.timeout) else m.dict);
      if k in n.dict then (n, Plain(false, None))
      else (n.(dict := n.dict[k := Entry(v, t.now)], order := n.order + [k]), Plain(true, None))
    case Find(k) =>
      (m, if k in m.dict then Plain(true, Some(m.dict[k].value)) else Plain(false, None))
    case Pop(k) =>
      (m.Only(m.dict - {k}), if k in m.dict then Plain(true, Some(m.dict[k].value)) else Plain(false, None))
    case ClearTimeout => (m.Only(Fresh(m.dict, t.now, m.timeout)), Plain(true, None))
    case ClearTimeoutOf(timeout) => (m.Only(Fresh(m.dict, t.now, timeout)), Plain(true, None))
    case ClearTimeoutInto =>
      var d := Fresh(m.dict, t.now, m.timeout);
      var gone := Within(m.order, m.dict.Keys - d.Keys);
      WithinKeys(m.order, m.dict.Keys - d.Keys);
      (m.Only(d), Out(true, None, gone, ValuesAt(m.dict, gone)))
    case ClearAll => (m.Only(map[]), Plain(true, None))
    case SetTimeout(timeout) => (if timeout > 0 then m.(timeout := timeout) else m, Plain(true, None))
    case SetMaxSize(size) => (m.(maxSize := size), Plain(true, None))
  }

  /** The entry of key k is dropped for its age by the step: the timeout in force, or the one
      given, has passed, at a push only if the cache is beyond its maximum size. */
  predicate Expires<K(==), V>(m: Model<K, V>, t: Timed<K, V>, k: K)
    requires k in m.dict
  {
    var age := t.now - m.dict[k].timestamp;
    match t.op
    case Push(_, _) => |m.dict| > m.maxSize && age >= m.timeout
    case ClearTimeout => age >= m.timeout
    case ClearTimeoutInto => age >= m.timeout
    case ClearTimeoutOf(timeout) => age >= timeout
    case _ => false
  }

  /** After a step exactly those keys are there that were and did not expire, were not popped
      and not cleared, each with its entry, and a key that was pushed when it was free. */
  lemma StepKeys<K, V>(m: Model<K, V>, t: Timed<K, V>, k: K)
    ensures var r := Meaning(m, t).0;
            var stays := k in m.dict && !Expires(m, t, k);
            match t.op
            case Push(key, v) =>
              if key == k && !stays then k in r.dict && r.dict[k] == Entry(v, t.now)
              else (k in r.dict <==> stays) && (stays ==> r.dict[k] == m.dict[k])
            case Pop(key) => (k in r.dict <==> stays && k != key) && (k in r.dict ==> r.dict[k] == m.dict[k])
            case ClearAll => k !in r.dict
            case _ => (k in r.dict <==> stays) && (stays ==> r.dict[k] == m.dict[k])
  {}

  /** What a step returns: whether the key was entered or there, its value, and what expired. */
  lemma StepOut<K, V>(m: Model<K, V>, t: Timed<K, V>)
    ensures var out := Meaning(m, t).1;
            match t.op
            case Push(k, _) =>
              && out.value == None
              && (out.ok <==> !(k in m.dict && !Expires(m, t, k)))
            case Find(k) => (out.ok <==> k in m.dict) && out.value == if out.ok then Some(m.dict[k].value) else None
            case Pop(k) => (out.ok <==> k in m.dict) && out.value == if out.ok then Some(m.dict[k].value) else None
            case _ => out.ok && out.value == None
    ensures var out := Meaning(m, t).1;
            !t.op.ClearTimeoutInto? ==> out.keys == [] && out.values == []
  {}

  /** The vector overload of ClearTimeout hands out exactly the keys that expire, each with its
      value. */
  lemma ExpiredOut<K, V>(m: Model<K, V>, now: int, k: K)
    requires forall key | key in m.dict :: key in m.order
    ensures var out := Meaning(m, Timed(ClearTimeoutInto, now)).1;
            && (k in out.keys <==> k in m.dict && now - m.dict[k].timestamp >= m.timeout)
            && |out.values| == |out.keys|
            && forall i | 0 <= i < |out.keys| :: out.keys[i] in m.dict && out.values[i] == m.dict[out.keys[i]].value
  {
    var gone := m.dict.Keys - Fresh(m.dict, now, m.timeout).Keys;
    WithinKeys(m.order, gone);
    if k in gone {
      WithinHas(m.order, gone, k);
    }
    forall i | 0 <= i < |Within(m.order, gone)|
      ensures Within(m.order, gone)[i] in gone
    {}
  }

  lemma {:induction false} WithinHas<K>(order: seq<K>, keys: set<K>, k: K)
    requires k in order && k in keys
    ensures k in Within(order, keys)
  {
    var n := |order| - 1;
    assert order == order[..n] + [order[n]];
    if k in order[..n] {
      WithinHas(order[..n], keys, k);
    }
  }

  /** The settings change as told: a timeout only if it is positive. */
  lemma StepSettings<K, V>(m: Model<K, V>, t: Timed<K, V>)
    ensures var r := Meaning(m, t).0;
            && r.timeout == (if t.op.SetTimeout? && t.op.timeout > 0 then t.op.timeout else m.timeout)
            && r.maxSize == (if t.op.SetMaxSize? then t.op.size else m.maxSize)
  {}

  function RunMeaning<K, V>(m: Model<K, V>, ts: seq<Timed<K, V>>): (r: (Model<K, V>, seq<Out<K, V>>)) {
    if ts == [] then (m, [])
    else
      var before := RunMeaning(m, ts[..|ts| - 1]);
      var last := Meaning(before.0, ts[|ts| - 1]);
      (last.0, before.1 + [last.1])
  }

  ghost function ModelOf<K(!new), V>(c: Cache<K, V>): (r: Model<K, V>)
    reads c
  {
    Model(c.Contents(), c.Order(), c.timeout, c.maxSize)
  }

  /** The operations on one key. */
  method StepKey<K(!new, ==), V>(c: Cache<K, V>, t: Timed<K, V>) returns (out: Out<K, V>)
    requires c.Valid() && c.clock <= t.now && (t.op.Push? || t.op.Find? || t.op.Pop?)
    modifies c
    ensures c.Valid() && c.clock <= t.now
    ensures (ModelOf(c), out) == Meaning(old(ModelOf(c)), t)
  {
    hide Fresh, AsDict, Within, KeysOf, Cache.Valid;
    match t.op {
      case Push(k, v) =>
        var ok := c.PushSession(k, v, t.now);
        out := Plain(ok, None);
      case Find(k) =>
        var r := c.FindSession(k);
        out := Plain(r.Some?, r);
      case Pop(k) =>
        var r := c.PopSession(k);
        out := Plain(r.Some?, r);
    }
  }

  /** The operations on the whole cache. */
  method StepAll<K(!new, ==), V>(c: Cache<K, V>, t: Timed<K, V>) returns (out: Out<K, V>)
    requires c.Valid() && c.clock <= t.now && !t.op.Push? && !t.op.Find? && !t.op.Pop?
    modifies c`list, c`index, c`timeout, c`maxSize
    ensures c.Valid()
    ensures (ModelOf(c), out) == Meaning(old(ModelOf(c)), t)
  {
    hide Fresh, AsDict, Within, KeysOf, Sorted, Distinct, Agree;
    out := Plain(true, None);
    match t.op {
      case ClearTimeout =>
        var values, keys := c.Expire(t.now, c.timeout);
      case ClearTimeoutOf(timeout) =>
        var values, keys := c.Expire(t.now, timeout);
      case ClearTimeoutInto =>
        ghost var d := c.Contents();
        var values, keys := c.Expire(t.now, c.timeout);
        assert values == ValuesAt(d, keys);
        out := Out(true, None, keys, values);
      case ClearAll =>
        ghost var none: Dict<K, V> := map[];
        WithinNone(c.Order(), none.Keys);
        c.ClearAll();
      case SetTimeout(timeout) =>
        if timeout > 0 {
          c.timeout := timeout;
        }
      case SetMaxSize(size) =>
        c.maxSize := size;
    }
  }

  method Step<K(!new, ==), V>(c: Cache<K, V>, t: Timed<K, V>) returns (out: Out<K, V>)
    requires c.Valid() && c.clock <= t.now
    modifies c
    ensures c.Valid() && c.clock == t.now
    ensures (ModelOf(c), out) == Meaning(old(ModelOf(c)), t)
  {
    hide AsDict, KeysOf, Within, Sorted, Distinct, Agree, Meaning;
    if t.op.Push? || t.op.Find? || t.op.Pop? {
      out := StepKey(c, t);
    } else {
      out := StepAll(c, t);
    }
    c.clock := t.now;
  }

  /** In every run with a clock that does not go back, the cache does what a plain dictionary
      does whose expiry is a filter, hands out what expired in the order of insertion, and its
      list and map stay in agreement. */
  method Play<K(!new, ==), V>(c: Cache<K, V>, ts: seq<Timed<K, V>>) returns (outs: seq<Out<K, V>>)
    requires c.Valid()
    requires forall i | 0 <= i < |ts| :: c.clock <= ts[i].now
    requires forall i, j | 0 <= i < j < |ts| :: ts[i].now <= ts[j].now
    modifies c
    ensures c.Valid()
    ensures (ModelOf(c), outs) == RunMeaning(old(ModelOf(c)), ts)
  {
    hide Meaning, AsDict, KeysOf, Within, Sorted, Distinct, Agree;
    outs := [];
    for n := 0 to |ts|
      invariant c.Valid() && forall i | n <= i < |ts| :: c.clock <= ts[i].now
      invariant (ModelOf(c), outs) == RunMeaning(old(ModelOf(c)), ts[..n])
    {
      assert ts[..n + 1][..n] == ts[..n];
      var out := Step(c, ts[n]);
      outs := outs + [out];
    }
    assert ts[..|ts|] == ts;
  }
}
