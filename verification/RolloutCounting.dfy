/** Counting replicas: how selections, sorts and actions change the numbers the planner works with. */
module RolloutCounting {
  import opened Basics
  import opened Order
  import opened Rollout

  ghost predicate DistinctIndexes(rs: seq<Replica>) {
    forall i, j :: 0 <= i < j < |rs| ==> rs[i].index != rs[j].index
  }

  function Count(rs: seq<Replica>, p: Replica -> bool): nat { |Select(rs, p)| }

  // ----- selections

  lemma {:induction false} CountConcat(a: seq<Replica>, b: seq<Replica>, p: Replica -> bool)
    ensures Count(a + b, p) == Count(a, p) + Count(b, p)
  {
    if a == [] {
      assert a + b == b;
    } else {
      assert (a + b)[1..] == a[1..] + b;
      CountConcat(a[1..], b, p);
    }
  }

  lemma CountOne(r: Replica, p: Replica -> bool)
    ensures Count([r], p) == if p(r) then 1 else 0
  {
    assert [r][1..] == [];
  }

  /** Replacing one entry changes a count by that entry alone. */
  lemma CountUpdate(rs: seq<Replica>, i: nat, r: Replica, p: Replica -> bool)
    requires i < |rs|
    ensures Count(rs[i := r], p) == Count(rs, p) - (if p(rs[i]) then 1 else 0) + (if p(r) then 1 else 0)
  {
    assert rs == rs[..i] + ([rs[i]] + rs[i + 1..]);
    assert rs[i := r] == rs[..i] + ([r] + rs[i + 1..]);
    CountConcat(rs[..i], [rs[i]] + rs[i + 1..], p);
    CountConcat(rs[..i], [r] + rs[i + 1..], p);
    CountConcat([rs[i]], rs[i + 1..], p);
    CountConcat([r], rs[i + 1..], p);
    CountOne(r, p);
    CountOne(rs[i], p);
  }

  lemma CountDelete(rs: seq<Replica>, i: nat, p: Replica -> bool)
    requires i < |rs|
    ensures Count(rs[..i] + rs[i + 1..], p) == Count(rs, p) - (if p(rs[i]) then 1 else 0)
  {
    assert rs == rs[..i] + ([rs[i]] + rs[i + 1..]);
    CountConcat(rs[..i], [rs[i]] + rs[i + 1..], p);
    CountConcat([rs[i]], rs[i + 1..], p);
    CountConcat(rs[..i], rs[i + 1..], p);
    CountOne(rs[i], p);
  }

  lemma {:induction false} CountSplit(rs: seq<Replica>, p: Replica -> bool, q1: Replica -> bool, q2: Replica -> bool)
    requires forall r :: r in rs ==> p(r) == (q1(r) || q2(r)) && !(q1(r) && q2(r))
    ensures Count(rs, p) == Count(rs, q1) + Count(rs, q2)
  {
    if rs != [] {
      CountSplit(rs[1..], p, q1, q2);
    }
  }

  lemma {:induction false} CountAll(rs: seq<Replica>, p: Replica -> bool)
    requires forall r :: r in rs ==> p(r)
    ensures Count(rs, p) == |rs|
  {
    if rs != [] {
      CountAll(rs[1..], p);
    }
  }

  lemma {:induction false} CountMonotone(rs: seq<Replica>, p: Replica -> bool, q: Replica -> bool)
    requires forall r :: r in rs && p(r) ==> q(r)
    ensures Count(rs, p) <= Count(rs, q)
  {
    if rs != [] {
      CountMonotone(rs[1..], p, q);
    }
  }

  lemma {:induction false} SelectDistinct(rs: seq<Replica>, p: Replica -> bool)
    requires DistinctIndexes(rs)
    ensures DistinctIndexes(Select(rs, p))
  {
    if rs != [] {
      SelectDistinct(rs[1..], p);
      forall x | x in Select(rs[1..], p) ensures x.index != rs[0].index {
        var k :| 0 <= k < |rs[1..]| && rs[1..][k] == x;
        assert rs[k + 1] == x;
      }
    }
  }

  lemma {:induction false} InsertDistinct(x: Replica, xs: seq<Replica>, le: (Replica, Replica) -> bool)
    requires DistinctIndexes(xs) && forall y :: y in xs ==> y.index != x.index
    ensures DistinctIndexes(Insert(x, xs, le))
  {
    if xs != [] && !le(x, xs[0]) {
      InsertDistinct(x, xs[1..], le);
      var r := Insert(x, xs[1..], le);
      forall y | y in r ensures y.index != xs[0].index {
        assert y in multiset(r);
        assert y == x || y in xs[1..];
      }
      assert Insert(x, xs, le) == [xs[0]] + r;
    }
  }

  lemma {:induction false} SortDistinct(xs: seq<Replica>, le: (Replica, Replica) -> bool)
    requires DistinctIndexes(xs)
    ensures DistinctIndexes(Sort(xs, le))
  {
    if xs != [] {
      SortDistinct(xs[1..], le);
      SortMembers(xs[1..], le);
      InsertDistinct(xs[0], Sort(xs[1..], le), le);
    }
  }

  lemma ConcatDistinct(a: seq<Replica>, b: seq<Replica>)
    requires DistinctIndexes(a) && DistinctIndexes(b)
    requires forall x, y :: x in a && y in b ==> x.index != y.index
    ensures DistinctIndexes(a + b)
  {
  }

  // ----- free indexes

  /** Exactly the unused indexes of the range, in ascending order. */
  lemma {:induction false} FreeFromExact(rs: seq<Replica>, lo: nat, bound: nat)
    ensures forall i :: i in FreeFrom(rs, lo, bound) <==> lo <= i < bound && !Used(rs, i)
    ensures forall j, k :: 0 <= j < k < |FreeFrom(rs, lo, bound)| ==> FreeFrom(rs, lo, bound)[j] < FreeFrom(rs, lo, bound)[k]
    decreases bound - lo
  {
    if lo < bound {
      FreeFromExact(rs, lo + 1, bound);
      var rest := FreeFrom(rs, lo + 1, bound);
      assert forall k :: 0 <= k < |rest| ==> rest[k] in rest;
    }
  }

  ghost function UsedBelow(rs: seq<Replica>, lo: nat, bound: nat): set<nat> {
    set i: nat | lo <= i < bound && Used(rs, i) :: i
  }

  lemma {:induction false} FreeAndUsed(rs: seq<Replica>, lo: nat, bound: nat)
    requires lo <= bound
    ensures |FreeFrom(rs, lo, bound)| + |UsedBelow(rs, lo, bound)| == bound - lo
    decreases bound - lo
  {
    if lo < bound {
      FreeAndUsed(rs, lo + 1, bound);
      if Used(rs, lo) {
        assert UsedBelow(rs, lo, bound) == {lo} + UsedBelow(rs, lo + 1, bound);
      } else {
        assert UsedBelow(rs, lo, bound) == UsedBelow(rs, lo + 1, bound);
      }
    } else {
      assert UsedBelow(rs, lo, bound) == {};
    }
  }

  lemma {:induction false} FewUsed(rs: seq<Replica>, lo: nat, bound: nat)
    ensures |UsedBelow(rs, lo, bound)| <= |rs|
  {
    if rs == [] {
      assert UsedBelow(rs, lo, bound) == {};
    } else {
      FewUsed(rs[1..], lo, bound);
      var rest := UsedBelow(rs[1..], lo, bound);
      forall i | i in UsedBelow(rs, lo, bound) ensures i in rest + {rs[0].index} {
        var k :| 0 <= k < |rs| && rs[k].index == i;
        if k > 0 {
          assert rs[1..][k - 1].index == i;
          assert Used(rs[1..], i);
        }
      }
      assert UsedBelow(rs, lo, bound) <= rest + {rs[0].index};
      SubsetSize(UsedBelow(rs, lo, bound), rest + {rs[0].index});
    }
  }

  lemma {:induction false} SubsetSize<T>(a: set<T>, b: set<T>)
    requires a <= b
    ensures |a| <= |b|
  {
    if a != {} {
      var x :| x in a;
      SubsetSize(a - {x}, b - {x});
    }
  }

  /** The pigeonhole argument: with fewer replicas than slots there are free slots, and the
      lowest ones are chosen. */
  lemma FreeIndexesExact(rs: seq<Replica>, bound: nat, want: nat)
    ensures var ix := FreeIndexes(rs, bound, want);
      && (forall k :: 0 <= k < |ix| ==> ix[k] < bound && !Used(rs, ix[k]))
      && (forall j, k :: 0 <= j < k < |ix| ==> ix[j] < ix[k])
      && (forall i: nat, k :: 0 <= k < |ix| && i < ix[k] && !Used(rs, i) ==> i in ix)
      && Min(want, Sub(bound, |rs|)) <= |ix| <= want
  {
    var free, ix := FreeFrom(rs, 0, bound), FreeIndexes(rs, bound, want);
    FreeFromExact(rs, 0, bound);
    FreeAndUsed(rs, 0, bound);
    FewUsed(rs, 0, bound);
    forall i: nat, k | 0 <= k < |ix| && i < ix[k] && !Used(rs, i) ensures i in ix {
      assert ix[k] in free;
      assert i in free;
      var j :| 0 <= j < |free| && free[j] == i;
      assert j < k;
      assert ix[j] == i;
    }
    assert forall k :: 0 <= k < |ix| ==> ix[k] in free;
  }

  // ----- what actions do to the replicas

  function MarkDraining(rs: seq<Replica>, index: nat): seq<Replica> {
    if rs == [] then []
    else if rs[0].index == index then [rs[0].(lifecycle := Draining(0))] + rs[1..]
    else [rs[0]] + MarkDraining(rs[1..], index)
  }

  function Delete(rs: seq<Replica>, index: nat): seq<Replica> {
    if rs == [] then []
    else if rs[0].index == index then Delete(rs[1..], index)
    else [rs[0]] + Delete(rs[1..], index)
  }

  function Fresh(index: nat, revision: string): Replica {
    Replica(index, revision, Starting, Live, false, 0)
  }

  function Update(rs: seq<Replica>, a: Action): seq<Replica> {
    match a
    case Start(index, revision) => rs + [Fresh(index, revision)]
    case Drain(index) => MarkDraining(rs, index)
    case Remove(index) => Delete(rs, index)
    case Rollback(_) => rs
    case Pause(_) => rs
    case Complete => rs
  }

  function UpdateAll(rs: seq<Replica>, actions: seq<Action>): seq<Replica>
    decreases actions
  {
    if actions == [] then rs else UpdateAll(Update(rs, actions[0]), actions[1..])
  }

  lemma {:induction false} UpdateAllConcat(rs: seq<Replica>, a: seq<Action>, b: seq<Action>)
    ensures UpdateAll(rs, a + b) == UpdateAll(UpdateAll(rs, a), b)
    decreases a
  {
    if a == [] {
      assert a + b == b;
    } else {
      assert (a + b)[1..] == a[1..] + b;
      UpdateAllConcat(Update(rs, a[0]), a[1..], b);
    }
  }

  ghost predicate LiveOnly(p: Replica -> bool) {
    forall r :: p(r) ==> LiveReplica(r)
  }

  /** With distinct indexes, deleting by index deletes exactly that replica. */
  lemma {:induction false} DeleteEffect(rs: seq<Replica>, x: Replica)
    requires DistinctIndexes(rs) && x in rs
    ensures var r := Delete(rs, x.index);
      && (forall y :: y in r <==> y in rs && y != x)
      && DistinctIndexes(r)
      && |r| == |rs| - 1
      && (forall p :: Count(r, p) == Count(rs, p) - (if p(x) then 1 else 0))
  {
    var k :| 0 <= k < |rs| && rs[k] == x;
    DeleteAt(rs, k);
    forall p ensures Count(Delete(rs, x.index), p) == Count(rs, p) - (if p(x) then 1 else 0) {
      CountDelete(rs, k, p);
    }
    assert rs == rs[..k] + [rs[k]] + rs[k + 1..];
  }

  lemma {:induction false} DeleteAt(rs: seq<Replica>, k: nat)
    requires DistinctIndexes(rs) && k < |rs|
    ensures Delete(rs, rs[k].index) == rs[..k] + rs[k + 1..]
  {
    if k == 0 {
      DeleteAbsent(rs[1..], rs[0].index);
    } else {
      DeleteAt(rs[1..], k - 1);
      assert rs[0].index != rs[k].index;
      assert rs[..k] + rs[k + 1..] == [rs[0]] + (rs[1..][..k - 1] + rs[1..][k..]);
    }
  }

  lemma {:induction false} DeleteAbsent(rs: seq<Replica>, index: nat)
    requires forall i :: 0 <= i < |rs| ==> rs[i].index != index
    ensures Delete(rs, index) == rs
  {
    if rs != [] {
      DeleteAbsent(rs[1..], index);
    }
  }

  /** With distinct indexes, draining by index changes exactly that replica. */
  lemma {:induction false} DrainEffect(rs: seq<Replica>, x: Replica)
    requires DistinctIndexes(rs) && x in rs
    ensures var r := MarkDraining(rs, x.index);
      && DistinctIndexes(r)
      && |r| == |rs|
      && (forall i :: 0 <= i < |rs| ==> r[i].index == rs[i].index)
      && (forall y :: y in rs && y != x ==> y in r)
      && (forall p :: LiveOnly(p) ==> Count(r, p) == Count(rs, p) - (if p(x) then 1 else 0))
  {
    var k :| 0 <= k < |rs| && rs[k] == x;
    DrainAt(rs, k);
    var r := MarkDraining(rs, x.index);
    forall y | y in rs && y != x ensures y in r {
      var j :| 0 <= j < |rs| && rs[j] == y;
      assert r[j] == y;
    }
    forall p | LiveOnly(p) ensures Count(r, p) == Count(rs, p) - (if p(x) then 1 else 0) {
      CountUpdate(rs, k, rs[k].(lifecycle := Draining(0)), p);
    }
  }

  lemma {:induction false} DrainAt(rs: seq<Replica>, k: nat)
    requires DistinctIndexes(rs) && k < |rs|
    ensures MarkDraining(rs, rs[k].index) == rs[k := rs[k].(lifecycle := Draining(0))]
  {
    if k > 0 {
      DrainAt(rs[1..], k - 1);
      assert rs[0].index != rs[k].index;
      assert rs == [rs[0]] + rs[1..];
    }
  }

  /** Removing a list of replicas that are not live changes no live count. */
  lemma {:induction false} RemoveAllEffect(rs: seq<Replica>, ds: seq<Replica>)
    requires DistinctIndexes(rs) && DistinctIndexes(ds)
    requires forall d :: d in ds ==> d in rs && !LiveReplica(d)
    ensures var r := UpdateAll(rs, RemoveActions(ds));
      && DistinctIndexes(r)
      && (forall y :: y in r <==> y in rs && y !in ds)
      && (forall p :: LiveOnly(p) ==> Count(r, p) == Count(rs, p))
    decreases ds
  {
    if ds == [] {
      assert RemoveActions(ds) == [];
    } else {
      var r := Delete(rs, ds[0].index);
      DeleteEffect(rs, ds[0]);
      assert RemoveActions(ds)[1..] == RemoveActions(ds[1..]);
      forall d | d in ds[1..] ensures d != ds[0] {}
      RemoveAllEffect(r, ds[1..]);
    }
  }

  /** Draining a list of live replicas lowers each live count by its share of the list. */
  lemma {:induction false} DrainAllEffect(rs: seq<Replica>, vs: seq<Replica>)
    requires DistinctIndexes(rs) && DistinctIndexes(vs)
    requires forall v :: v in vs ==> v in rs
    ensures var r := UpdateAll(rs, DrainActions(vs));
      && DistinctIndexes(r)
      && |r| == |rs|
      && (forall i :: 0 <= i < |rs| ==> r[i].index == rs[i].index)
      && (forall p :: LiveOnly(p) ==> Count(r, p) == Count(rs, p) - Count(vs, p))
    decreases vs
  {
    if vs == [] {
      assert DrainActions(vs) == [];
    } else {
      var r := MarkDraining(rs, vs[0].index);
      DrainEffect(rs, vs[0]);
      assert DrainActions(vs)[1..] == DrainActions(vs[1..]);
      DrainAllEffect(r, vs[1..]);
    }
  }

  function FreshAll(ix: seq<nat>, revision: string): (r: seq<Replica>)
    ensures |r| == |ix|
  {
    seq(|ix|, i requires 0 <= i < |ix| => Fresh(ix[i], revision))
  }

  lemma {:induction false} StartAllEffect(rs: seq<Replica>, ix: seq<nat>, revision: string)
    ensures UpdateAll(rs, StartActions(ix, revision)) == rs + FreshAll(ix, revision)
    decreases ix
  {
    if ix == [] {
      assert StartActions(ix, revision) == [];
    } else {
      assert StartActions(ix, revision)[1..] == StartActions(ix[1..], revision);
      StartAllEffect(rs + [Fresh(ix[0], revision)], ix[1..], revision);
      assert FreshAll(ix, revision) == [Fresh(ix[0], revision)] + FreshAll(ix[1..], revision);
    }
  }
}
