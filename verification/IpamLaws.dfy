/** The layout of a subnet in numbers, and what each allocator call does, exactly. */
module IpamLaws {
  import opened Basics
  import opened Ipam

  /** The number of addresses of a prefix doubles with every bit less. */
  lemma SizeDoubles(prefix: nat)
    requires 8 <= prefix < 30
    ensures Subnet(0, 30).Size() == 4
    ensures Subnet(0, prefix).Size() == 2 * Subnet(0, prefix + 1).Size()
  {
    assert Pow2(2) == 2 * Pow2(1) == 4;
    assert Pow2(32 - prefix) == 2 * Pow2(31 - prefix);
  }

  /** Network, gateway, pool, virtual block and broadcast, in that order: an eighth of the assignable addresses,
      at most 255, are virtual. */
  lemma Layout(s: Subnet, a: nat)
    requires s.Valid()
    ensures var n := s.Size();
      var vips := if (n - 3) / 8 > 255 then 255 else (n - 3) / 8;
      && n >= 4
      && s.Gateway() == s.network + 1 && s.Broadcast() == s.network + n - 1
      && (s.Assignable(a) <==> s.network + 2 <= a <= s.network + n - 2)
      && (s.InPool(a) <==> s.network + 2 <= a < s.network + n - 1 - vips)
      && (s.IsVip(a) <==> s.network + n - 1 - vips <= a <= s.network + n - 2)
      && s.VipCount() == vips
  {
    SizeAtLeastFour(s);
  }

  /** A known owner gets the address it has, and nothing changes. */
  lemma KnownOwnerKeepsItsAddress(s: Subnet, t: Table, owner: string, hash: nat)
    requires s.Valid() && owner in t.byOwner
    ensures Allocate(s, t, owner) == Outcome(Ok(t.byOwner[owner]), t)
    ensures ForService(s, t, owner, hash) == Outcome(Ok(t.byOwner[owner]), t)
    ensures Vip(s, t, owner, hash) == Outcome(Ok(t.byOwner[owner]), t)
  {
  }

  /** Reserving succeeds exactly for an assignable address that is free or already the owner's. Then the owner has
      it, gives up the one it had, and nobody else is affected; otherwise nothing changes. */
  lemma ReserveExact(s: Subnet, t: Table, addr: nat, owner: string)
    requires s.Valid() && Consistent(s, t)
    ensures var r := Reserve(s, t, addr, owner);
      && (r.result.Ok? <==> s.Assignable(addr) && (addr in t.byAddr ==> t.byAddr[addr] == owner))
      && (r.result.Ok? ==>
          && r.result.value == addr && r.table.byOwner == t.byOwner[owner := addr]
          && (forall a: nat :: Lookup(r.table.byAddr, a) ==
                if a == addr then Some(owner)
                else if Lookup(t.byAddr, a) == Some(owner) then None
                else Lookup(t.byAddr, a)))
      && (r.result.Err? ==> r.table == t && (r.result.error.Invalid? <==> !s.Assignable(addr)))
  {
    Layout(s, addr);
  }

  /** Releasing takes away exactly the owner's address, if it has one. */
  lemma ReleaseExact(s: Subnet, t: Table, owner: string)
    requires s.Valid() && Consistent(s, t)
    ensures var r := Release(t, owner);
      && r.byOwner == t.byOwner - {owner}
      && forall a: nat :: Lookup(r.byAddr, a) == if Lookup(t.byAddr, a) == Some(owner) then None else Lookup(t.byAddr, a)
  {
    if owner !in t.byOwner {
      assert t.byOwner - {owner} == t.byOwner;
    }
  }
}
