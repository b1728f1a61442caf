/** The table of slot regions of a Redis cluster client: loading it and looking a slot up. */
module SlotTable {
  import opened Basics

  /** CRedisServer, as far as routing goes. */
  class Server {
    const host: string
    const port: int
    var master: bool

    constructor (host: string, port: int, master: bool)
      ensures this.host == host && this.port == port && this.master == master
    {
      this.host, this.port, this.master := host, port, master;
    }

    predicate At(host: string, port: int) {
      this.host == host && this.port == port
    }
  }

  datatype Host = Host(name: string, port: int)

  /** SlotRegion */
  datatype Region = Region(start: int, end: int, hosts: seq<Host>, servers: seq<Server>) {
    predicate Contains(slot: int) {
      start <= slot <= end
    }
  }

  predicate WellFormed(rs: seq<Region>) {
    forall i | 0 <= i < |rs| :: rs[i].start <= rs[i].end
  }

  predicate Disjoint(rs: seq<Region>) {
    forall i, j | 0 <= i < j < |rs| :: rs[i].end < rs[j].start || rs[j].end < rs[i].start
  }

  /** Sorted by operator< of the regions. */
  predicate Sorted(rs: seq<Region>) {
    forall i, j | 0 <= i < j < |rs| :: rs[i].start <= rs[j].start
  }

  /** Each region ends before the next one starts. */
  predicate Separated(rs: seq<Region>) {
    forall i, j | 0 <= i < j < |rs| :: rs[i].end < rs[j].start
  }

  lemma SortedDisjoint(rs: seq<Region>)
    requires WellFormed(rs) && Disjoint(rs) && Sorted(rs)
    ensures Separated(rs)
  {}

  // ------------------------------------------------------------------
  // std::equal_range with CompSlot
  // ------------------------------------------------------------------

  /** The first region that does not end before the slot. */
  method LowerBound(rs: seq<Region>, slot: int) returns (k: nat)
    requires WellFormed(rs) && Separated(rs)
    ensures k <= |rs|
    ensures forall i | 0 <= i < k :: rs[i].end < slot
    ensures forall i | k <= i < |rs| :: rs[i].end >= slot
  {
    var first, len := 0, |rs|;
    while len > 0
      invariant 0 <= first <= first + len <= |rs|
      invariant forall i | 0 <= i < first :: rs[i].end < slot
      invariant forall i | first + len <= i < |rs| :: rs[i].end >= slot
    {
      var half := len / 2;
      var mid := first + half;
      if rs[mid].end < slot {
        assert forall i | 0 <= i < mid :: rs[i].end < rs[mid].start;
        first, len := mid + 1, len - half - 1;
      } else {
        assert forall i | mid < i < |rs| :: rs[mid].end < rs[i].start;
        len := half;
      }
    }
    k := first;
  }

  /** The first region that starts behind the slot. */
  method UpperBound(rs: seq<Region>, slot: int) returns (k: nat)
    requires WellFormed(rs) && Separated(rs)
    ensures k <= |rs|
    ensures forall i | 0 <= i < k :: rs[i].start <= slot
    ensures forall i | k <= i < |rs| :: rs[i].start > slot
  {
    var first, len := 0, |rs|;
    while len > 0
      invariant 0 <= first <= first + len <= |rs|
      invariant forall i | 0 <= i < first :: rs[i].start <= slot
      invariant forall i | first + len <= i < |rs| :: rs[i].start > slot
    {
      var half := len / 2;
      var mid := first + half;
      if slot < rs[mid].start {
        assert forall i | mid < i < |rs| :: rs[mid].end < rs[i].start;
        len := half;
      } else {
        assert forall i | 0 <= i < mid :: rs[i].end < rs[mid].start;
        first, len := mid + 1, len - half - 1;
      }
    }
    k := first;
  }

  /** The region that holds the slot, found by going through all of them. */
  function RegionOf(rs: seq<Region>, slot: int): (r: int)
    ensures -1 <= r < |rs|
    ensures r >= 0 ==> rs[r].Contains(slot)
    ensures r < 0 ==> forall i | 0 <= i < |rs| :: !rs[i].Contains(slot)
  {
    if rs == [] then -1
    else if rs[|rs| - 1].Contains(slot) then |rs| - 1
    else RegionOf(rs[..|rs| - 1], slot)
  }

  /** Where the regions are disjoint, the one found is the only one. */
  lemma OnlyRegion(rs: seq<Region>, slot: int, k: nat)
    requires Disjoint(rs) && k < |rs| && rs[k].Contains(slot)
    ensures RegionOf(rs, slot) == k
  {}

  /** Server r is at place j, and no master before it. */
  ghost predicate FirstAt(servers: seq<Server>, r: Server, j: nat)
    reads servers
  {
    j < |servers| && servers[j] == r && forall i | 0 <= i < j :: !servers[i].master
  }

  /** The first master, or null. */
  function FirstMaster(servers: seq<Server>): (r: Server?)
    reads servers
    ensures r == null <==> forall s | s in servers :: !s.master
    ensures r != null ==> r.master && exists j :: FirstAt(servers, r, j)
  {
    if servers == [] then null
    else if servers[0].master then
      assert FirstAt(servers, servers[0], 0);
      servers[0]
    else
      var r := FirstMaster(servers[1..]);
      assert forall i | 0 < i < |servers| :: servers[i] == servers[1..][i - 1];
      if r == null then null
      else
        ghost var j: nat :| FirstAt(servers[1..], r, j);
        assert FirstAt(servers, r, j + 1);
        r
  }

  /** Servers that were added have the role that they answered with. */
  ghost predicate NewRoles(before: seq<Server>, after: seq<Server>, role: Host -> bool)
    reads after
  {
    forall s | s in after && s !in before :: s.master == role(Host(s.host, s.port))
  }

  /** CRedisClient, as far as routing goes. */
  class Client {
    var servers: seq<Server>
    var slots: seq<Region>

    constructor (servers: seq<Server>)
      ensures this.servers == servers && slots == []
    {
      this.servers, slots := servers, [];
    }

    /** FindServer for a slot. */
    method FindServer(slot: int) returns (r: Server?)
      requires WellFormed(slots) && Separated(slots)
      ensures var k := RegionOf(slots, slot);
              r == if k < 0 then null else FirstMaster(slots[k].servers)
    {
      var lo := LowerBound(slots, slot);
      var hi := UpperBound(slots, slot);
      if lo > 0 {
        assert slots[lo - 1].start <= slots[lo - 1].end;
      }
      if lo != |slots| && lo != hi {
        assert slots[lo].Contains(slot);
        OnlyRegion(slots, slot, lo);
        var serv := slots[lo].servers;
        for i := 0 to |serv|
          invariant FirstMaster(serv) == FirstMaster(serv[i..])
        {
          assert serv[i..][0] == serv[i] && serv[i..][1..] == serv[i + 1..];
          if serv[i].master {
            return serv[i];
          }
        }
        return null;
      }
      return null;
    }

    /** GetMatchedServer: without a cluster the first server, else the server of the slot, or
        for a command without a slot the server that the random number picks. */
    method GetMatchedServer(cluster: bool, slot: int, pick: nat) returns (r: Server?)
      requires cluster && slot != -1 ==> WellFormed(slots) && Separated(slots)
      requires cluster && slot == -1 ==> servers != []
      ensures !cluster ==> r == if servers == [] then null else servers[0]
      ensures cluster && slot != -1 ==>
                var k := RegionOf(slots, slot);
                r == if k < 0 then null else FirstMaster(slots[k].servers)
      ensures cluster && slot == -1 ==> r == servers[pick % |servers|]
    {
      if !cluster {
        return if servers == [] then null else servers[0];
      }
      if slot != -1 {
        r := FindServer(slot);
        return;
      }
      r := servers[pick % |servers|];
    }

    /** FindServer for a host and port. */
    method FindAt(host: string, port: int) returns (r: Server?)
      ensures r != null ==> r in servers && r.At(host, port)
      ensures r == null ==> forall s | s in servers :: !s.At(host, port)
    {
      for i := 0 to |servers|
        invariant forall k | 0 <= k < i :: !servers[k].At(host, port)
      {
        if servers[i].At(host, port) {
          return servers[i];
        }
      }
      r := null;
    }

    /** The servers of one region: known ones, or new ones that are added to the list.  role
        stands for what a new server answers about being a master. */
    method Resolve(hosts: seq<Host>, role: Host -> bool) returns (found: seq<Server>)
      modifies this`servers
      ensures Matches(found, hosts)
      ensures forall s | s in found :: s in servers
      ensures old(servers) <= servers && (Distinct(old(servers)) ==> Distinct(servers))
      ensures forall s | s in old(servers) :: s in servers
      ensures forall s | s in servers :: s in old(servers) || s in found
      ensures NewRoles(old(servers), servers, role)
    {
      found := [];
      for j := 0 to |hosts|
        invariant Matches(found, hosts[..j])
        invariant forall s | s in found :: s in servers
        invariant old(servers) <= servers && (Distinct(old(servers)) ==> Distinct(servers))
        invariant forall s | s in servers :: s in old(servers) || s in found
        invariant NewRoles(old(servers), servers, role)
        invariant forall s | s in servers && s !in old(servers) :: fresh(s)
      {
        var serv := FindAt(hosts[j].name, hosts[j].port);
        if serv == null {
          serv := new Server(hosts[j].name, hosts[j].port, role(hosts[j]));
          servers := servers + [serv];
        }
        found := found + [serv];
      }
      assert hosts[..|hosts|] == hosts;
    }

    /** LoadClusterSlots, given the regions of the reply, or that the request failed. */
    method LoadClusterSlots(answer: Option<seq<Region>>, role: Host -> bool)
      returns (ok: bool, ghost loaded: seq<Region>)
      modifies this
      ensures ok == answer.Some?
      ensures !ok ==> slots == old(slots) && servers == old(servers)
      ensures ok ==> Loaded(loaded, answer.value, servers) && Sorted(slots) && multiset(slots) == multiset(loaded)
      ensures ok && WellFormed(answer.value) && Disjoint(answer.value) ==> WellFormed(slots) && Separated(slots)
      ensures old(servers) <= servers && (Distinct(old(servers)) ==> Distinct(servers))
      ensures NewRoles(old(servers), servers, role)
    {
      if answer.None? {
        return false, [];
      }
      var reply := answer.value;
      var vec: seq<Region> := [];
      for i := 0 to |reply|
        invariant Loaded(vec, reply[..i], servers)
        invariant old(servers) <= servers && (Distinct(old(servers)) ==> Distinct(servers))
        invariant NewRoles(old(servers), servers, role)
      {
        var found := Resolve(reply[i].hosts, role);
        vec := vec + [reply[i].(servers := found)];
      }
      assert reply[..|reply|] == reply;
      slots := Sort(vec);
      ok, loaded := true, vec;
      if WellFormed(reply) && Disjoint(reply) {
        PermutedRegions(vec, slots);
        SortedDisjoint(slots);
      }
    }

    /** Loading a reply and looking a slot up gives the first master among the servers at the
        hosts of the region that a scan of the reply itself finds. */
    method LoadAndFind(reply: seq<Region>, role: Host -> bool, slot: int) returns (r: Server?, ghost found: seq<Server>)
      requires WellFormed(reply) && Disjoint(reply)
      modifies this
      ensures var k := RegionOf(reply, slot);
              if k < 0 then r == null
              else Matches(found, reply[k].hosts) && (forall s | s in found :: s in servers) && r == FirstMaster(found)
      ensures NewRoles(old(servers), servers, role)
      ensures var k := RegionOf(reply, slot);
              k >= 0 && r == null ==>
                forall h | h in reply[k].hosts :: (forall s | s in old(servers) :: !s.At(h.name, h.port)) ==> !role(h)
    {
      hide FirstMaster;
      var ok: bool;
      ghost var loaded: seq<Region>;
      ok, loaded := LoadClusterSlots(Some(reply), role);
      r := FindServer(slot);
      SameRegions(loaded, reply, slot);
      LookupThroughSort(loaded, slots, slot);
      ghost var k := RegionOf(reply, slot);
      found := if k < 0 then [] else loaded[k].servers;
    }
  }

  /** Filling in servers does not change which region holds a slot. */
  lemma {:induction false} SameRegions(rs: seq<Region>, reply: seq<Region>, slot: int)
    requires |rs| == |reply| && forall i | 0 <= i < |rs| :: rs[i].start == reply[i].start && rs[i].end == reply[i].end
    ensures RegionOf(rs, slot) == RegionOf(reply, slot)
  {
    if rs != [] {
      SameRegions(rs[..|rs| - 1], reply[..|rs| - 1], slot);
    }
  }

  predicate Distinct(servers: seq<Server>) {
    forall i, j | 0 <= i < j < |servers| :: !servers[i].At(servers[j].host, servers[j].port)
  }

  /** The servers are those at the hosts, one for one. */
  predicate Matches(servers: seq<Server>, hosts: seq<Host>) {
    |servers| == |hosts| && forall j | 0 <= j < |hosts| :: servers[j].At(hosts[j].name, hosts[j].port)
  }

  /** The regions of the reply, with their servers from the list filled in. */
  predicate Loaded(rs: seq<Region>, reply: seq<Region>, servers: seq<Server>) {
    && |rs| == |reply|
    && (forall i | 0 <= i < |rs| :: rs[i] == reply[i].(servers := rs[i].servers))
    && (forall i | 0 <= i < |rs| :: Matches(rs[i].servers, rs[i].hosts))
    && (forall i, s | 0 <= i < |rs| && s in rs[i].servers :: s in servers)
  }

  function Inserted(rs: seq<Region>, k: nat, x: Region): (r: seq<Region>)
    requires k <= |rs|
  {
    rs[..k] + [x] + rs[k..]
  }

  lemma InsertKeeps(rs: seq<Region>, k: nat, x: Region)
    requires k <= |rs| && Sorted(rs)
    requires k < |rs| ==> x.start < rs[k].start
    requires forall i | 0 <= i < k :: rs[i].start <= x.start
    ensures Sorted(Inserted(rs, k, x))
    ensures multiset(Inserted(rs, k, x)) == multiset(rs) + multiset{x}
  {
    assert rs == rs[..k] + rs[k..];
  }

  /** std::sort, by insertion. */
  method Sort(rs: seq<Region>) returns (r: seq<Region>)
    ensures Sorted(r) && multiset(r) == multiset(rs)
  {
    hide Inserted, Sorted;
    r := [];
    NoneSorted();
    for n := 0 to |rs|
      invariant Sorted(r) && multiset(r) == multiset(rs[..n])
    {
      var k := 0;
      while k < |r| && r[k].start <= rs[n].start
        invariant 0 <= k <= |r|
        invariant forall i | 0 <= i < k :: r[i].start <= rs[n].start
      {
        k := k + 1;
      }
      assert rs[..n + 1] == rs[..n] + [rs[n]];
      InsertKeeps(r, k, rs[n]);
      r := Inserted(r, k, rs[n]);
    }
    assert rs[..|rs|] == rs;
  }

  lemma NoneSorted()
    ensures Sorted([])
  {}

  /** A value at two places counts twice. */
  lemma CountsTwice(s: seq<Region>, i: nat, j: nat)
    requires i < j < |s| && s[i] == s[j]
    ensures multiset(s)[s[i]] >= 2
  {
    assert s == s[..j] + s[j..];
    assert s[..j][i] in s[..j] && s[j..][0] in s[j..];
  }

  /** A value that counts twice is at two places. */
  lemma AtTwoPlaces(s: seq<Region>, x: Region, i: nat) returns (j: nat)
    requires i < |s| && s[i] == x && multiset(s)[x] >= 2
    ensures j < |s| && j != i && s[j] == x
  {
    var t := s[..i] + s[i + 1..];
    assert s == s[..i] + [s[i]] + s[i + 1..];
    assert multiset(t)[x] >= 1;
    var k :| 0 <= k < |t| && t[k] == x;
    j := if k < i then k else k + 1;
  }

  /** No two of the regions are equal. */
  lemma NoTwins(rs: seq<Region>, s: seq<Region>, i: nat, j: nat)
    requires multiset(rs) == multiset(s) && WellFormed(rs) && Disjoint(rs) && i < j < |s|
    ensures s[i] != s[j]
  {
    if s[i] == s[j] {
      CountsTwice(s, i, j);
      assert s[i] in multiset(rs);
      var p :| 0 <= p < |rs| && rs[p] == s[i];
      assert rs[p].start <= rs[p].end;
      var q := AtTwoPlaces(rs, s[i], p);
      assert false;
    }
  }

  /** Regions in another order are still disjoint. */
  lemma PermutedRegions(rs: seq<Region>, s: seq<Region>)
    requires multiset(rs) == multiset(s) && WellFormed(rs) && Disjoint(rs)
    ensures WellFormed(s) && Disjoint(s)
  {
    forall i | 0 <= i < |s|
      ensures s[i] in rs
    {
      assert s[i] in multiset(s);
    }
    forall i, j | 0 <= i < j < |s|
      ensures s[i].end < s[j].start || s[j].end < s[i].start
    {
      NoTwins(rs, s, i, j);
      var p :| 0 <= p < |rs| && rs[p] == s[i];
      var q :| 0 <= q < |rs| && rs[q] == s[j];
    }
  }

  /** Looking a slot up in the sorted table finds the region that going through the regions
      as they were loaded would find. */
  lemma LookupThroughSort(loaded: seq<Region>, slots: seq<Region>, slot: int)
    requires multiset(loaded) == multiset(slots) && WellFormed(loaded) && Disjoint(loaded)
    ensures RegionOf(loaded, slot) < 0 <==> RegionOf(slots, slot) < 0
    ensures RegionOf(loaded, slot) >= 0 ==> loaded[RegionOf(loaded, slot)] == slots[RegionOf(slots, slot)]
  {
    PermutedRegions(loaded, slots);
    forall i | 0 <= i < |loaded|
      ensures loaded[i] in slots
    {
      assert loaded[i] in multiset(loaded);
    }
    var q := RegionOf(slots, slot);
    if q >= 0 {
      assert slots[q] in multiset(slots);
      var k :| 0 <= k < |loaded| && loaded[k] == slots[q];
      OnlyRegion(loaded, slot, k);
    }
  }
}
