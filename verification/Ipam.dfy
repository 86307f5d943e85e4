/** The address allocator: two maps that mirror each other, a pool and a block of virtual
    addresses, and circular probing. Addresses are 32-bit numbers. */
module Ipam {
  import opened Basics

  const VIP_CAP: nat := 255

  function Pow2(n: nat): (r: nat)
    ensures r > 0
  {
    if n == 0 then 1 else 2 * Pow2(n - 1)
  }

  // ----- subnets

  datatype Subnet = Subnet(network: nat, prefix: nat) {
    predicate Valid() {
      8 <= prefix <= 30 && network % Size() == 0 && network < U32
    }

    function Size(): nat
      requires prefix <= 32
    {
      Pow2(32 - prefix)
    }

    function Gateway(): nat { network + 1 }

    function Broadcast(): nat
      requires prefix <= 32
    {
      network + (Size() - 1)
    }

    predicate Contains(a: nat)
      requires prefix <= 32
    {
      network <= a <= Broadcast()
    }

    function First(): nat { network + 2 }

    function Last(): int
      requires prefix <= 32
    {
      Broadcast() - 1
    }

    function VipCount(): nat
      requires Valid()
    {
      SizeAtLeastFour(this);
      Min((Last() - First() + 1) / 8, VIP_CAP)
    }

    function PoolEnd(): nat
      requires Valid()
    {
      SizeAtLeastFour(this);
      Last() - VipCount()
    }

    predicate IsVip(a: nat)
      requires Valid()
    {
      VipCount() > 0 && PoolEnd() < a <= Last()
    }

    predicate InPool(a: nat)
      requires Valid()
    {
      First() <= a <= PoolEnd()
    }

    predicate Assignable(a: nat)
      requires Valid()
    {
      First() <= a <= Last()
    }
  }

  /** The largest multiple of the size that is not above the address: its host bits cleared. */
  function AlignDown(address: nat, size: nat): nat
    requires size > 0
  {
    assert address / size >= 0 && address / size * size >= 0;
    address / size * size
  }

  function Parse(address: nat, prefix: nat): Result<Subnet>
    requires address < U32
  {
    if !(8 <= prefix <= 30) then Err(Invalid("invalid subnet"))
    else Ok(Subnet(AlignDown(address, Pow2(32 - prefix)), prefix))
  }

  lemma {:induction false} PowAdd(a: nat, b: nat)
    ensures Pow2(a + b) == Pow2(a) * Pow2(b)
  {
    if a > 0 {
      PowAdd(a - 1, b);
      assert Pow2(a + b) == 2 * (Pow2(a - 1) * Pow2(b));
    }
  }

  lemma {:induction false} PowMonotone(a: nat, b: nat)
    requires a <= b
    ensures Pow2(a) <= Pow2(b)
  {
    if a < b {
      PowMonotone(a, b - 1);
    }
  }

  lemma PowValues()
    ensures Pow2(2) == 4 && Pow2(24) == 0x100_0000 && Pow2(32) == U32
  {
    assert Pow2(8) == 256;
    PowAdd(8, 8);
    PowAdd(16, 8);
    PowAdd(16, 16);
  }

  lemma SizeAtLeastFour(s: Subnet)
    requires s.prefix <= 30
    ensures s.Size() >= 4
  {
    PowMonotone(2, 32 - s.prefix);
    PowValues();
  }

  lemma MulMonotone(a: nat, b: nat, size: nat)
    requires a <= b
    ensures a * size <= b * size
  {
    assert b * size == a * size + (b - a) * size;
  }

  lemma RemainderUnique(x: nat, size: nat, q: nat, r: nat)
    requires r < size && x == q * size + r
    ensures x / size == q && x % size == r
  {
    var q', r' := x / size, x % size;
    assert x == q' * size + r';
    assert (q + 1) * size == q * size + size && (q' + 1) * size == q' * size + size;
    if q < q' {
      MulMonotone(q + 1, q', size);
    } else if q > q' {
      MulMonotone(q' + 1, q, size);
    }
  }

  lemma AlignedDown(address: nat, size: nat)
    requires size > 0
    ensures AlignDown(address, size) % size == 0
    ensures AlignDown(address, size) <= address < AlignDown(address, size) + size
  {
    RemainderUnique(AlignDown(address, size), size, address / size, 0);
  }

  /** The whole block fits 32 bits, because it is aligned to a size that divides 2^32. */
  lemma BlockFits(s: Subnet)
    requires s.Valid()
    ensures s.network + s.Size() <= U32
  {
    var size, blocks := s.Size(), Pow2(s.prefix);
    PowAdd(32 - s.prefix, s.prefix);
    PowValues();
    AlignedBlockFits(s.network, size, blocks);
  }

  lemma AlignedBlockFits(network: nat, size: nat, blocks: nat)
    requires size > 0 && network % size == 0 && network < size * blocks
    ensures network + size <= size * blocks
  {
    var q := network / size;
    assert network == q * size;
    assert (q + 1) * size == network + size;
    if q >= blocks {
      MulMonotone(blocks, q, size);
    } else {
      MulMonotone(q + 1, blocks, size);
    }
  }

  lemma ParseGivesValidSubnet(address: nat, prefix: nat)
    requires address < U32
    ensures Parse(address, prefix).Ok? <==> 8 <= prefix <= 30
    ensures Parse(address, prefix).Ok? ==>
      Parse(address, prefix).value.Valid() && Parse(address, prefix).value.Contains(address)
  {
    if 8 <= prefix <= 30 {
      AlignedDown(address, Pow2(32 - prefix));
    }
  }

  /** Pool and virtual block split the assignable addresses between them; gateway and
      broadcast are outside; nothing overflows, including the probing sums. */
  lemma RangesPartition(s: Subnet)
    requires s.Valid()
    ensures forall a: nat :: s.Assignable(a) <==> s.InPool(a) || s.IsVip(a)
    ensures forall a: nat :: !(s.InPool(a) && s.IsVip(a))
    ensures forall a: nat :: s.Assignable(a) ==> s.Contains(a) && s.Gateway() < a < s.Broadcast() < U32
    ensures s.First() <= s.PoolEnd()
    ensures forall a: nat :: s.IsVip(a) <==> s.PoolEnd() + 1 <= a < s.PoolEnd() + 1 + s.VipCount()
    ensures 2 * (s.PoolEnd() - s.First() + 1) < U32
  {
    SizeAtLeastFour(s);
    BlockFits(s);
    PowMonotone(32 - s.prefix, 24);
    PowValues();
  }

  // ----- the two maps

  datatype Table = Table(byOwner: map<string, nat>, byAddr: map<nat, string>)

  const EMPTY: Table := Table(map[], map[])

  /** The maps are exact inverses and hold assignable addresses only. */
  ghost predicate Consistent(s: Subnet, t: Table)
    requires s.Valid()
  {
    && (forall o :: o in t.byOwner ==> t.byOwner[o] in t.byAddr && t.byAddr[t.byOwner[o]] == o)
    && (forall a :: a in t.byAddr ==> t.byAddr[a] in t.byOwner && t.byOwner[t.byAddr[a]] == a)
    && (forall a :: a in t.byAddr ==> s.Assignable(a))
  }

  datatype Outcome = Outcome(result: Result<nat>, table: Table)

  function Reserve(s: Subnet, t: Table, addr: nat, owner: string): Outcome
    requires s.Valid()
  {
    if !s.Contains(addr) || addr < s.First() || addr > s.Last() then Outcome(Err(Invalid("not assignable")), t)
    else if addr in t.byAddr && t.byAddr[addr] != owner then Outcome(Err(Conflict("already assigned")), t)
    else
      var left := if owner in t.byOwner && t.byOwner[owner] != addr then t.byAddr - {t.byOwner[owner]} else t.byAddr;
      Outcome(Ok(addr), Table(t.byOwner[owner := addr], left[addr := owner]))
  }

  function Release(t: Table, owner: string): Table {
    if owner !in t.byOwner then t
    else Table(t.byOwner - {owner}, t.byAddr - {t.byOwner[owner]})
  }

  /** The lowest free address of lo..=hi. */
  function LowestFree(t: Table, lo: nat, hi: nat): Option<nat>
    decreases hi + 1 - lo
  {
    if lo > hi then None
    else if lo !in t.byAddr then Some(lo)
    else LowestFree(t, lo + 1, hi)
  }

  function Allocate(s: Subnet, t: Table, owner: string): Outcome
    requires s.Valid()
  {
    if owner in t.byOwner then Outcome(Ok(t.byOwner[owner]), t)
    else
      var free := LowestFree(t, s.First(), s.PoolEnd());
      if free.None? then Outcome(Err(Conflict("subnet is exhausted")), t) else Reserve(s, t, free.value, owner)
  }

  /** The address probed at a step of a circular walk. */
  function Probed(base: nat, len: nat, start: nat, step: nat): nat
    requires len > 0
  {
    base + (start + step) % len
  }

  function ProbeFrom(t: Table, base: nat, len: nat, start: nat, step: nat): Option<nat>
    requires step <= len
    decreases len - step
  {
    if step == len then None
    else if Probed(base, len, start, step) !in t.byAddr then Some(Probed(base, len, start, step))
    else ProbeFrom(t, base, len, start, step + 1)
  }

  function Probe(s: Subnet, t: Table, owner: string, start: nat, len: nat, base: nat): Outcome
    requires s.Valid()
  {
    if len == 0 then Outcome(Err(Conflict("no address range available")), t)
    else
      var free := ProbeFrom(t, base, len, start, 0);
      if free.None? then Outcome(Err(Conflict("address range is exhausted")), t) else Reserve(s, t, free.value, owner)
  }

  function PoolSize(s: Subnet): nat
    requires s.Valid()
  {
    RangesPartition(s);
    s.PoolEnd() - s.First() + 1
  }

  /** A service replica's address; the hash of its name says where probing starts. */
  function ForService(s: Subnet, t: Table, owner: string, hash: nat): Outcome
    requires s.Valid()
  {
    if owner in t.byOwner then Outcome(Ok(t.byOwner[owner]), t)
    else Probe(s, t, owner, hash % PoolSize(s), PoolSize(s), s.First())
  }

  /** A load balancer's virtual address. */
  function Vip(s: Subnet, t: Table, owner: string, hash: nat): Outcome
    requires s.Valid()
  {
    if owner in t.byOwner then Outcome(Ok(t.byOwner[owner]), t)
    else if s.VipCount() == 0 then Outcome(Err(Conflict("no room for virtual addresses")), t)
    else Probe(s, t, owner, hash % s.VipCount(), s.VipCount(), s.PoolEnd() + 1)
  }

  // ----- the allocator as the program keeps it

  class Allocator {
    const subnet: Subnet
    var byOwner: map<string, nat>
    var byAddr: map<nat, string>

    function Contents(): Table
      reads this
    {
      Table(byOwner, byAddr)
    }

    constructor (subnet: Subnet)
      ensures this.subnet == subnet && Contents() == EMPTY
    {
      this.subnet := subnet;
      byOwner, byAddr := map[], map[];
    }

    method DoReserve(addr: nat, owner: string) returns (r: Result<nat>)
      requires subnet.Valid()
      modifies this
      ensures Outcome(r, Contents()) == Reserve(subnet, old(Contents()), addr, owner)
    {
      if !subnet.Contains(addr) || addr < subnet.First() || addr > subnet.Last() {
        return Err(Invalid("not assignable"));
      }
      if addr in byAddr && byAddr[addr] != owner {
        return Err(Conflict("already assigned"));
      }
      var before := Lookup(byOwner, owner);
      byOwner := byOwner[owner := addr];
      if before.Some? && before.value != addr {
        byAddr := byAddr - {before.value};
      }
      byAddr := byAddr[addr := owner];
      return Ok(addr);
    }

    method DoRelease(owner: string)
      modifies this
      ensures Contents() == Release(old(Contents()), owner)
    {
      if owner in byOwner {
        var addr := byOwner[owner];
        byOwner := byOwner - {owner};
        byAddr := byAddr - {addr};
      }
    }

    method DoAllocate(owner: string) returns (r: Result<nat>)
      requires subnet.Valid()
      modifies this
      ensures Outcome(r, Contents()) == Allocate(subnet, old(Contents()), owner)
    {
      if owner in byOwner {
        return Ok(byOwner[owner]);
      }
      var cur := subnet.First();
      while cur <= subnet.PoolEnd()
        invariant Contents() == old(Contents())
        invariant LowestFree(Contents(), cur, subnet.PoolEnd()) == LowestFree(Contents(), subnet.First(), subnet.PoolEnd())
      {
        if cur !in byAddr {
          r := DoReserve(cur, owner);
          return;
        }
        cur := cur + 1;
      }
      return Err(Conflict("subnet is exhausted"));
    }

    method DoProbe(owner: string, start: nat, len: nat, base: nat) returns (r: Result<nat>)
      requires subnet.Valid()
      modifies this
      ensures Outcome(r, Contents()) == Probe(subnet, old(Contents()), owner, start, len, base)
    {
      if len == 0 {
        return Err(Conflict("no address range available"));
      }
      for step := 0 to len
        invariant Contents() == old(Contents())
        invariant ProbeFrom(Contents(), base, len, start, step) == ProbeFrom(Contents(), base, len, start, 0)
      {
        var addr := base + (start + step) % len;
        if addr !in byAddr {
          r := DoReserve(addr, owner);
          return;
        }
      }
      return Err(Conflict("address range is exhausted"));
    }

    method DoForService(owner: string, hash: nat) returns (r: Result<nat>)
      requires subnet.Valid()
      modifies this
      ensures Outcome(r, Contents()) == ForService(subnet, old(Contents()), owner, hash)
    {
      if owner in byOwner {
        return Ok(byOwner[owner]);
      }
      RangesPartition(subnet);
      var len := subnet.PoolEnd() - subnet.First() + 1;
      r := DoProbe(owner, hash % len, len, subnet.First());
    }

    method DoVip(owner: string, hash: nat) returns (r: Result<nat>)
      requires subnet.Valid()
      modifies this
      ensures Outcome(r, Contents()) == Vip(subnet, old(Contents()), owner, hash)
    {
      if owner in byOwner {
        return Ok(byOwner[owner]);
      }
      var len := subnet.VipCount();
      if len == 0 {
        return Err(Conflict("no room for virtual addresses"));
      }
      r := DoProbe(owner, hash % len, len, subnet.PoolEnd() + 1);
    }
  }

  // ----- what every sequence of calls keeps

  datatype Call =
    | CallReserve(addr: nat, owner: string)
    | CallRelease(owner: string)
    | CallAllocate(owner: string)
    | CallForService(owner: string, hash: nat)
    | CallVip(owner: string, hash: nat)

  function Do(s: Subnet, t: Table, c: Call): Outcome
    requires s.Valid()
  {
    match c
    case CallReserve(addr, owner) => Reserve(s, t, addr, owner)
    case CallRelease(owner) => Outcome(Ok(0), Release(t, owner))
    case CallAllocate(owner) => Allocate(s, t, owner)
    case CallForService(owner, hash) => ForService(s, t, owner, hash)
    case CallVip(owner, hash) => Vip(s, t, owner, hash)
  }

  function DoAll(s: Subnet, t: Table, calls: seq<Call>): Table
    requires s.Valid()
    decreases calls
  {
    if calls == [] then t else DoAll(s, Do(s, t, calls[0]).table, calls[1..])
  }

  lemma ReserveKeepsConsistent(s: Subnet, t: Table, addr: nat, owner: string)
    requires s.Valid() && Consistent(s, t)
    ensures Consistent(s, Reserve(s, t, addr, owner).table)
  {
  }

  lemma OneCall(s: Subnet, t: Table, c: Call)
    requires s.Valid() && Consistent(s, t)
    ensures Consistent(s, Do(s, t, c).table)
    ensures Do(s, t, c).result.Err? ==> Do(s, t, c).table == t
  {
  }

  /** Whatever is called in whatever order, the two maps stay exact inverses over
      assignable addresses. */
  lemma {:induction false} EveryRunIsConsistent(s: Subnet, t: Table, calls: seq<Call>)
    requires s.Valid() && Consistent(s, t)
    ensures Consistent(s, DoAll(s, t, calls))
    decreases calls
  {
    if calls != [] {
      OneCall(s, t, calls[0]);
      EveryRunIsConsistent(s, Do(s, t, calls[0]).table, calls[1..]);
    }
  }

  // ----- probing

  /** Some step at or after the given one probes the address, and the steps between found
      only taken ones. */
  ghost predicate FoundAtStep(t: Table, base: nat, len: nat, start: nat, step: nat, a: nat)
    requires len > 0
  {
    exists k :: step <= k < len && a == Probed(base, len, start, k) &&
      forall j :: step <= j < k ==> Probed(base, len, start, j) in t.byAddr
  }

  lemma {:induction false} ProbeFromExact(t: Table, base: nat, len: nat, start: nat, step: nat)
    requires len > 0 && step <= len
    ensures match ProbeFrom(t, base, len, start, step)
      case None => forall k :: step <= k < len ==> Probed(base, len, start, k) in t.byAddr
      case Some(a) => a !in t.byAddr && FoundAtStep(t, base, len, start, step, a)
    decreases len - step
  {
    if step < len && Probed(base, len, start, step) in t.byAddr {
      ProbeFromExact(t, base, len, start, step + 1);
    }
  }

  /** A circular walk of len steps passes every slot. */
  lemma WalkCovers(len: nat, start: nat, slot: nat)
    requires slot < len && start < len
    ensures var k := if slot >= start then slot - start else slot + len - start;
      k < len && (start + k) % len == slot
  {
    if slot < start {
      assert start + (slot + len - start) == slot + len;
    }
  }

  ghost predicate AllTaken(t: Table, base: nat, len: nat) {
    forall a: nat :: base <= a < base + len ==> a in t.byAddr
  }

  /** The address is free and comes first on the circular walk from start. */
  ghost predicate FirstFreeFrom(t: Table, base: nat, len: nat, start: nat, a: nat)
    requires len > 0
  {
    base <= a < base + len && a !in t.byAddr && FoundAtStep(t, base, len, start, 0, a)
  }

  lemma ProbeExhaustive(t: Table, base: nat, len: nat, start: nat)
    requires len > 0 && start < len
    ensures match ProbeFrom(t, base, len, start, 0)
      case None => AllTaken(t, base, len)
      case Some(a) => FirstFreeFrom(t, base, len, start, a)
  {
    ProbeFromExact(t, base, len, start, 0);
    if ProbeFrom(t, base, len, start, 0).None? {
      forall a: nat | base <= a < base + len ensures a in t.byAddr {
        var slot := a - base;
        WalkCovers(len, start, slot);
        var k := if slot >= start then slot - start else slot + len - start;
        assert Probed(base, len, start, k) == a;
      }
    }
  }

  /** For a new owner: fails exactly when the whole range is taken, and otherwise records the
      first free address on the circular walk. */
  lemma ForServiceExact(s: Subnet, t: Table, owner: string, hash: nat)
    requires s.Valid() && Consistent(s, t) && owner !in t.byOwner
    ensures var r := ForService(s, t, owner, hash);
      && (r.result.Err? <==> AllTaken(t, s.First(), PoolSize(s)))
      && (r.result.Ok? ==>
          && s.InPool(r.result.value)
          && FirstFreeFrom(t, s.First(), PoolSize(s), hash % PoolSize(s), r.result.value)
          && r.table == Table(t.byOwner[owner := r.result.value], t.byAddr[r.result.value := owner]))
  {
    RangesPartition(s);
    ProbeExhaustive(t, s.First(), PoolSize(s), hash % PoolSize(s));
  }

  lemma VipExact(s: Subnet, t: Table, owner: string, hash: nat)
    requires s.Valid() && Consistent(s, t) && owner !in t.byOwner
    ensures var r := Vip(s, t, owner, hash);
      && (r.result.Err? <==> AllTaken(t, s.PoolEnd() + 1, s.VipCount()))
      && (r.result.Ok? ==>
          && s.IsVip(r.result.value)
          && FirstFreeFrom(t, s.PoolEnd() + 1, s.VipCount(), hash % s.VipCount(), r.result.value)
          && r.table == Table(t.byOwner[owner := r.result.value], t.byAddr[r.result.value := owner]))
  {
    RangesPartition(s);
    if s.VipCount() > 0 {
      ProbeExhaustive(t, s.PoolEnd() + 1, s.VipCount(), hash % s.VipCount());
    }
  }

  lemma {:induction false} LowestFreeExact(t: Table, lo: nat, hi: nat)
    ensures match LowestFree(t, lo, hi)
      case None => forall a: nat :: lo <= a <= hi ==> a in t.byAddr
      case Some(f) => lo <= f <= hi && f !in t.byAddr && forall a: nat :: lo <= a < f ==> a in t.byAddr
    decreases hi + 1 - lo
  {
    if lo <= hi && lo in t.byAddr {
      LowestFreeExact(t, lo + 1, hi);
    }
  }

  lemma AllocateExact(s: Subnet, t: Table, owner: string)
    requires s.Valid() && Consistent(s, t) && owner !in t.byOwner
    ensures var r := Allocate(s, t, owner);
      && (r.result.Err? <==> AllTaken(t, s.First(), PoolSize(s)))
      && (r.result.Ok? ==>
          && s.InPool(r.result.value) && r.result.value !in t.byAddr
          && (forall a: nat :: s.First() <= a < r.result.value ==> a in t.byAddr)
          && r.table == Table(t.byOwner[owner := r.result.value], t.byAddr[r.result.value := owner]))
  {
    RangesPartition(s);
    LowestFreeExact(t, s.First(), s.PoolEnd());
  }

  /** Releasing a newly obtained address restores the maps. */
  lemma ReleaseUndoes(s: Subnet, t: Table, c: Call)
    requires s.Valid() && Consistent(s, t) && !c.CallRelease? && c.owner !in t.byOwner
    requires Do(s, t, c).result.Ok?
    ensures Release(Do(s, t, c).table, c.owner) == t
  {
    var r := Do(s, t, c);
    if c.CallAllocate? {
      AllocateExact(s, t, c.owner);
    } else if c.CallForService? {
      ForServiceExact(s, t, c.owner, c.hash);
    } else if c.CallVip? {
      VipExact(s, t, c.owner, c.hash);
    }
    var a := r.result.value;
    assert a !in t.byAddr;
    assert t.byOwner[c.owner := a] - {c.owner} == t.byOwner;
    assert t.byAddr[a := c.owner] - {a} == t.byAddr;
  }

  // ----- rebuilding

  function RebuildFrom(s: Subnet, t: Table, entries: seq<(string, nat)>): Result<Table>
    requires s.Valid()
    decreases entries
  {
    if entries == [] then Ok(t)
    else
      var r := Reserve(s, t, entries[0].1, entries[0].0);
      if r.result.Err? then Err(r.result.error) else RebuildFrom(s, r.table, entries[1..])
  }

  method Rebuild(subnet: Subnet, entries: seq<(string, nat)>) returns (r: Result<Allocator>)
    requires subnet.Valid()
    ensures match RebuildFrom(subnet, EMPTY, entries)
      case Ok(t) => r.Ok? && r.value.subnet == subnet && r.value.Contents() == t
      case Err(e) => r == Err(e)
  {
    var ipam := new Allocator(subnet);
    for k := 0 to |entries|
      invariant ipam.subnet == subnet
      invariant RebuildFrom(subnet, ipam.Contents(), entries[k..]) == RebuildFrom(subnet, EMPTY, entries)
    {
      assert entries[k..][1..] == entries[k + 1..];
      var one := ipam.DoReserve(entries[k].1, entries[k].0);
      if one.Err? {
        return Err(one.error);
      }
    }
    return Ok(ipam);
  }

  /** The entries say, in some order, exactly who owns what. */
  ghost predicate Lists(entries: seq<(string, nat)>, t: Table) {
    && (forall k :: 0 <= k < |entries| ==> Lookup(t.byOwner, entries[k].0) == Some(entries[k].1))
    && (forall o :: o in t.byOwner ==> (o, t.byOwner[o]) in entries)
  }

  ghost predicate Part(small: Table, t: Table) {
    && (forall o :: o in small.byOwner ==> Lookup(t.byOwner, o) == Some(small.byOwner[o]))
    && (forall a :: a in small.byAddr ==> Lookup(t.byAddr, a) == Some(small.byAddr[a]))
  }

  lemma PartIsWhole(s: Subnet, part: Table, t: Table)
    requires s.Valid() && Consistent(s, t) && Consistent(s, part) && Part(part, t)
    requires forall o :: o in t.byOwner ==> o in part.byOwner
    ensures part == t
  {
    assert part.byOwner == t.byOwner;
    assert part.byAddr == t.byAddr;
  }

  /** Reserving one of the table's own entries succeeds and adds that entry. */
  lemma ReserveEntry(s: Subnet, part: Table, t: Table, owner: string, addr: nat)
    requires s.Valid() && Consistent(s, t) && Consistent(s, part) && Part(part, t)
    requires Lookup(t.byOwner, owner) == Some(addr)
    ensures var r := Reserve(s, part, addr, owner);
      && r.result.Ok? && Consistent(s, r.table) && Part(r.table, t)
      && r.table.byOwner.Keys == part.byOwner.Keys + {owner}
  {
    assert t.byOwner[owner] == addr && t.byAddr[addr] == owner;
    RangesPartition(s);
    ReserveKeepsConsistent(s, part, addr, owner);
  }

  lemma {:induction false} RebuildGrows(s: Subnet, part: Table, entries: seq<(string, nat)>, t: Table)
    requires s.Valid() && Consistent(s, t) && Consistent(s, part) && Part(part, t)
    requires forall k :: 0 <= k < |entries| ==> Lookup(t.byOwner, entries[k].0) == Some(entries[k].1)
    requires forall o :: o in t.byOwner ==> o in part.byOwner || (o, t.byOwner[o]) in entries
    ensures RebuildFrom(s, part, entries) == Ok(t)
    decreases entries
  {
    if entries == [] {
      PartIsWhole(s, part, t);
    } else {
      var (owner, addr) := entries[0];
      var r := Reserve(s, part, addr, owner);
      ReserveEntry(s, part, t, owner, addr);
      forall o | o in t.byOwner ensures o in r.table.byOwner || (o, t.byOwner[o]) in entries[1..] {
        if o !in part.byOwner && (o, t.byOwner[o]) != entries[0] {
          assert (o, t.byOwner[o]) in entries[1..];
        }
      }
      RebuildGrows(s, r.table, entries[1..], t);
    }
  }

  /** Rebuilding from the entries of a reachable table gives that table back, in any order. */
  lemma RebuildRestores(s: Subnet, calls: seq<Call>, entries: seq<(string, nat)>)
    requires s.Valid() && Lists(entries, DoAll(s, EMPTY, calls))
    ensures RebuildFrom(s, EMPTY, entries) == Ok(DoAll(s, EMPTY, calls))
  {
    EveryRunIsConsistent(s, EMPTY, calls);
    RebuildGrows(s, EMPTY, entries, DoAll(s, EMPTY, calls));
  }
}
