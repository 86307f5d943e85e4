/** What to do at start-up with the containers, cgroups, links, tags and directories found. */
module Reconcile {
  import opened Order

  datatype Spec = Spec(id: string, persistent: bool)

  /** Cgroups with whether a process runs in them; link names; firewall tags; directories named after ids. */
  datatype Observed = Observed(cgroups: map<string, bool>, veths: seq<string>, tags: seq<string>, leftovers: seq<string>)

  datatype Action =
    | Adopt(id: string)
    | MarkStopped(id: string)
    | RemoveSpec(id: string)
    | CleanRuntime(id: string)
    | KillCgroup(id: string)
    | RemoveCgroup(id: string)
    | DeleteVeth(name: string)
    | DeleteNftTag(name: string)

  /** The host end of a container's link: ids with the same first ten digits share it. */
  function VethName(id: string): string { "vh" + if |id| <= 10 then id else id[..10] }

  function NftTag(id: string): string { "collocate:" + id }

  predicate OurVeth(name: string) { "vh" <= name && |name| == 12 }

  predicate OurTag(name: string) { "collocate:" <= name }

  predicate Running(o: Observed, id: string) { id in o.cgroups && o.cgroups[id] }

  function Known(specs: seq<Spec>): set<string> { set s <- specs :: s.id }

  function Adopted(specs: seq<Spec>, o: Observed): set<string> { set s <- specs | Running(o, s.id) :: s.id }

  function Down(specs: seq<Spec>, o: Observed): set<string> { set s <- specs | !Running(o, s.id) :: s.id }

  function Unknown(specs: seq<Spec>, o: Observed): set<string> { o.cgroups.Keys - Known(specs) }

  function ForSpec(s: Spec, o: Observed): seq<Action> {
    if Running(o, s.id) then [Adopt(s.id)]
    else
      (if s.id in o.cgroups then [RemoveCgroup(s.id)] else []) +
      [if s.persistent then MarkStopped(s.id) else RemoveSpec(s.id), CleanRuntime(s.id)]
  }

  function ForSpecs(specs: seq<Spec>, o: Observed): seq<Action> {
    if specs == [] then [] else ForSpecs(specs[..|specs| - 1], o) + ForSpec(specs[|specs| - 1], o)
  }

  function ForUnknown(ids: seq<string>): seq<Action> {
    if ids == [] then []
    else
      var id := ids[|ids| - 1];
      ForUnknown(ids[..|ids| - 1]) + [KillCgroup(id), RemoveCgroup(id)]
  }

  function ForVeths(veths: seq<string>, kept: set<string>): seq<Action> {
    if veths == [] then []
    else
      var v := veths[|veths| - 1];
      ForVeths(veths[..|veths| - 1], kept) + if OurVeth(v) && v !in kept then [DeleteVeth(v)] else []
  }

  function ForTags(tags: seq<string>, kept: set<string>): seq<Action> {
    if tags == [] then []
    else
      var t := tags[|tags| - 1];
      ForTags(tags[..|tags| - 1], kept) + if OurTag(t) && t !in kept then [DeleteNftTag(t)] else []
  }

  /** Directories of nobody adopted and not cleaned before, once each. */
  function ForLeftovers(ids: seq<string>, adopted: set<string>, cleaned: set<string>): seq<Action> {
    if ids == [] then []
    else
      var before, id := ids[..|ids| - 1], ids[|ids| - 1];
      ForLeftovers(before, adopted, cleaned) +
      if id !in adopted && id !in cleaned && id !in before then [CleanRuntime(id)] else []
  }

  function KeptVeths(adopted: set<string>): set<string> { set id <- adopted :: VethName(id) }

  function KeptTags(adopted: set<string>): set<string> { set id <- adopted :: NftTag(id) }

  ghost function PlanOf(specs: seq<Spec>, o: Observed): seq<Action> {
    var adopted := Adopted(specs, o);
    ForSpecs(specs, o) +
    ForUnknown(Ascending(Unknown(specs, o))) +
    ForVeths(Sort(o.veths, Leq), KeptVeths(adopted)) +
    ForTags(Sort(o.tags, Leq), KeptTags(adopted)) +
    ForLeftovers(Sort(o.leftovers, Leq), adopted, Down(specs, o))
  }

  method Plan(specs: seq<Spec>, o: Observed) returns (actions: seq<Action>)
    ensures actions == PlanOf(specs, o)
  {
    var judged, adopted, cleaned := JudgeSpecs(specs, o);
    var unknown := InOrder(Unknown(specs, o));
    var kills := KillUnknown(unknown);
    var links := DropVeths(Sort(o.veths, Leq), KeptVeths(adopted));
    var tags := DropTags(Sort(o.tags, Leq), KeptTags(adopted));
    var rest := CleanLeftovers(Sort(o.leftovers, Leq), adopted, cleaned);
    actions := judged + kills + links + tags + rest;
  }

  method JudgeSpecs(specs: seq<Spec>, o: Observed)
    returns (actions: seq<Action>, adopted: set<string>, cleaned: set<string>)
    ensures actions == ForSpecs(specs, o) && adopted == Adopted(specs, o) && cleaned == Down(specs, o)
  {
    actions, adopted, cleaned := [], {}, {};
    for k := 0 to |specs|
      invariant actions == ForSpecs(specs[..k], o)
      invariant adopted == Adopted(specs[..k], o) && cleaned == Down(specs[..k], o)
    {
      var spec := specs[k];
      assert specs[..k + 1][..k] == specs[..k];
      SetsGrow(specs, o, k);
      if Running(o, spec.id) {
        adopted := adopted + {spec.id};
        actions := actions + [Adopt(spec.id)];
      } else {
        actions := JudgeDown(spec, o, actions);
        cleaned := cleaned + {spec.id};
      }
    }
    assert specs[..|specs|] == specs;
  }

  method JudgeDown(spec: Spec, o: Observed, before: seq<Action>) returns (actions: seq<Action>)
    requires !Running(o, spec.id)
    ensures actions == before + ForSpec(spec, o)
  {
    actions := before;
    if spec.id in o.cgroups {
      actions := actions + [RemoveCgroup(spec.id)];
    }
    if spec.persistent {
      actions := actions + [MarkStopped(spec.id)];
    } else {
      actions := actions + [RemoveSpec(spec.id)];
    }
    actions := actions + [CleanRuntime(spec.id)];
  }

  lemma SetsGrow(specs: seq<Spec>, o: Observed, k: nat)
    requires k < |specs|
    ensures Adopted(specs[..k + 1], o) == Adopted(specs[..k], o) + if Running(o, specs[k].id) then {specs[k].id} else {}
    ensures Down(specs[..k + 1], o) == Down(specs[..k], o) + if Running(o, specs[k].id) then {} else {specs[k].id}
  {
    assert specs[..k + 1] == specs[..k] + [specs[k]];
  }

  method KillUnknown(ids: seq<string>) returns (actions: seq<Action>)
    ensures actions == ForUnknown(ids)
  {
    actions := [];
    for k := 0 to |ids|
      invariant actions == ForUnknown(ids[..k])
    {
      assert ids[..k + 1][..k] == ids[..k];
      actions := actions + [KillCgroup(ids[k]), RemoveCgroup(ids[k])];
    }
    assert ids[..|ids|] == ids;
  }

  method DropVeths(veths: seq<string>, kept: set<string>) returns (actions: seq<Action>)
    ensures actions == ForVeths(veths, kept)
  {
    actions := [];
    for k := 0 to |veths|
      invariant actions == ForVeths(veths[..k], kept)
    {
      assert veths[..k + 1][..k] == veths[..k];
      if OurVeth(veths[k]) && veths[k] !in kept {
        actions := actions + [DeleteVeth(veths[k])];
      }
    }
    assert veths[..|veths|] == veths;
  }

  method DropTags(tags: seq<string>, kept: set<string>) returns (actions: seq<Action>)
    ensures actions == ForTags(tags, kept)
  {
    actions := [];
    for k := 0 to |tags|
      invariant actions == ForTags(tags[..k], kept)
    {
      assert tags[..k + 1][..k] == tags[..k];
      if OurTag(tags[k]) && tags[k] !in kept {
        actions := actions + [DeleteNftTag(tags[k])];
      }
    }
    assert tags[..|tags|] == tags;
  }

  method CleanLeftovers(ids: seq<string>, adopted: set<string>, cleaned: set<string>) returns (actions: seq<Action>)
    ensures actions == ForLeftovers(ids, adopted, cleaned)
  {
    actions := [];
    var done := cleaned;
    for k := 0 to |ids|
      invariant actions == ForLeftovers(ids[..k], adopted, cleaned)
      invariant forall id :: id in done <==> id in cleaned || (id in ids[..k] && id !in adopted)
    {
      assert ids[..k + 1][..k] == ids[..k];
      if ids[k] !in adopted && ids[k] !in done {
        done := done + {ids[k]};
        actions := actions + [CleanRuntime(ids[k])];
      }
    }
    assert ids[..|ids|] == ids;
  }

  /** The names of a container's link and tag, and which names are recognised as ours. */
  lemma NamesExact(id: string, name: string)
    ensures |id| < 10 ==> VethName(id) == "vh" + id
    ensures |id| >= 10 ==> VethName(id) == "vh" + id[..10] && |VethName(id)| == 12
    ensures NftTag(id) == "collocate:" + id && OurTag(NftTag(id))
    ensures OurVeth(name) <==> |name| == 12 && name[0] == 'v' && name[1] == 'h'
    ensures OurTag(name) <==> |name| >= 10 && name[..10] == "collocate:"
  {
    if |name| >= 10 && name[..10] == "collocate:" {
      assert "collocate:" <= name[..10];
    }
  }

  // ----- exactly which actions are planned

  ghost predicate HasSpec(specs: seq<Spec>, id: string, persistent: bool) { Spec(id, persistent) in specs }

  /** What each action says about the machine, independently of how the plan is made. */
  ghost predicate Warranted(a: Action, specs: seq<Spec>, o: Observed) {
    match a
    case Adopt(id) => id in Known(specs) && Running(o, id)
    case MarkStopped(id) => HasSpec(specs, id, true) && !Running(o, id)
    case RemoveSpec(id) => HasSpec(specs, id, false) && !Running(o, id)
    case CleanRuntime(id) =>
      (id in Known(specs) && !Running(o, id)) || (id in o.leftovers && !(id in Known(specs) && Running(o, id)))
    case KillCgroup(id) => id in o.cgroups && id !in Known(specs)
    case RemoveCgroup(id) => id in o.cgroups && !(id in Known(specs) && Running(o, id))
    case DeleteVeth(v) => v in o.veths && OurVeth(v) && forall id <- Known(specs) :: Running(o, id) ==> VethName(id) != v
    case DeleteNftTag(t) => t in o.tags && OurTag(t) && forall id <- Known(specs) :: Running(o, id) ==> NftTag(id) != t
  }

  ghost predicate FromSpecs(a: Action, specs: seq<Spec>, o: Observed) {
    exists s <- specs :: a in ForSpec(s, o)
  }

  lemma {:induction false} ForSpecsExact(specs: seq<Spec>, o: Observed, a: Action)
    ensures a in ForSpecs(specs, o) <==> FromSpecs(a, specs, o)
  {
    if specs != [] {
      var n := |specs| - 1;
      ForSpecsExact(specs[..n], o, a);
      assert specs == specs[..n] + [specs[n]];
    }
  }

  lemma {:induction false} ForUnknownExact(ids: seq<string>, a: Action)
    ensures a in ForUnknown(ids) <==> (a.KillCgroup? || a.RemoveCgroup?) && a.id in ids
  {
    if ids != [] {
      var n := |ids| - 1;
      ForUnknownExact(ids[..n], a);
      assert ids == ids[..n] + [ids[n]];
    }
  }

  lemma {:induction false} ForVethsExact(veths: seq<string>, kept: set<string>, a: Action)
    ensures a in ForVeths(veths, kept) <==> a.DeleteVeth? && a.name in veths && OurVeth(a.name) && a.name !in kept
  {
    if veths != [] {
      var n := |veths| - 1;
      ForVethsExact(veths[..n], kept, a);
      assert veths == veths[..n] + [veths[n]];
    }
  }

  lemma {:induction false} ForTagsExact(tags: seq<string>, kept: set<string>, a: Action)
    ensures a in ForTags(tags, kept) <==> a.DeleteNftTag? && a.name in tags && OurTag(a.name) && a.name !in kept
  {
    if tags != [] {
      var n := |tags| - 1;
      ForTagsExact(tags[..n], kept, a);
      assert tags == tags[..n] + [tags[n]];
    }
  }

  lemma {:induction false} ForLeftoversExact(ids: seq<string>, adopted: set<string>, cleaned: set<string>, a: Action)
    ensures a in ForLeftovers(ids, adopted, cleaned)
       <==> a.CleanRuntime? && a.id in ids && a.id !in adopted && a.id !in cleaned
  {
    if ids != [] {
      var n := |ids| - 1;
      ForLeftoversExact(ids[..n], adopted, cleaned, a);
      assert ids == ids[..n] + [ids[n]];
    }
  }

  lemma FromSpecsWarranted(specs: seq<Spec>, o: Observed, a: Action)
    ensures FromSpecs(a, specs, o) ==> Warranted(a, specs, o)
    ensures Warranted(a, specs, o) && (a.Adopt? || a.MarkStopped? || a.RemoveSpec?) ==> FromSpecs(a, specs, o)
    ensures (a.CleanRuntime? || a.RemoveCgroup?) && a.id in Down(specs, o) && Warranted(a, specs, o) ==> FromSpecs(a, specs, o)
  {
    if Warranted(a, specs, o) &&
       (a.Adopt? || a.MarkStopped? || a.RemoveSpec? || ((a.CleanRuntime? || a.RemoveCgroup?) && a.id in Down(specs, o))) {
      var s :| s in specs && s.id == a.id && (a.MarkStopped? ==> s.persistent) && (a.RemoveSpec? ==> !s.persistent);
      assert a in ForSpec(s, o);
    }
  }

  /** The plan holds exactly the warranted actions. */
  lemma PlanExact(specs: seq<Spec>, o: Observed, a: Action)
    ensures a in PlanOf(specs, o) <==> Warranted(a, specs, o)
  {
    PlanMembers(specs, o, a);
    PlannedExact(specs, o, a);
  }

  lemma PlannedExact(specs: seq<Spec>, o: Observed, a: Action)
    ensures Planned(a, specs, o) <==> Warranted(a, specs, o)
  {
    FromSpecsWarranted(specs, o, a);
    if a.DeleteVeth? || a.DeleteNftTag? {
      KeptExact(specs, o, a.name);
      assert !FromSpecs(a, specs, o);
    } else {
      SetsExact(specs, o, a.id);
    }
  }

  lemma SetsExact(specs: seq<Spec>, o: Observed, id: string)
    ensures id in Adopted(specs, o) <==> id in Known(specs) && Running(o, id)
    ensures id in Down(specs, o) <==> id in Known(specs) && !Running(o, id)
  {
  }

  lemma KeptExact(specs: seq<Spec>, o: Observed, name: string)
    ensures name in KeptVeths(Adopted(specs, o)) <==> exists id <- Known(specs) :: Running(o, id) && VethName(id) == name
    ensures name in KeptTags(Adopted(specs, o)) <==> exists id <- Known(specs) :: Running(o, id) && NftTag(id) == name
  {
  }

  /** The five parts of the plan, each by what it holds. */
  ghost predicate Planned(a: Action, specs: seq<Spec>, o: Observed) {
    var adopted := Adopted(specs, o);
    || FromSpecs(a, specs, o)
    || ((a.KillCgroup? || a.RemoveCgroup?) && a.id in Unknown(specs, o))
    || (a.DeleteVeth? && a.name in o.veths && OurVeth(a.name) && a.name !in KeptVeths(adopted))
    || (a.DeleteNftTag? && a.name in o.tags && OurTag(a.name) && a.name !in KeptTags(adopted))
    || (a.CleanRuntime? && a.id in o.leftovers && a.id !in adopted && a.id !in Down(specs, o))
  }

  lemma PlanMembers(specs: seq<Spec>, o: Observed, a: Action)
    ensures a in PlanOf(specs, o) <==> Planned(a, specs, o)
  {
    var adopted := Adopted(specs, o);
    ForSpecsExact(specs, o, a);
    AscendingFacts(Unknown(specs, o));
    ForUnknownExact(Ascending(Unknown(specs, o)), a);
    SortMembers(o.veths, Leq);
    ForVethsExact(Sort(o.veths, Leq), KeptVeths(adopted), a);
    SortMembers(o.tags, Leq);
    ForTagsExact(Sort(o.tags, Leq), KeptTags(adopted), a);
    SortMembers(o.leftovers, Leq);
    ForLeftoversExact(Sort(o.leftovers, Leq), adopted, Down(specs, o), a);
  }

  /** Nothing of an adopted container is removed, cleaned, killed or deleted. */
  lemma AdoptedIsLeftAlone(specs: seq<Spec>, o: Observed, id: string, a: Action)
    requires Adopt(id) in PlanOf(specs, o) && a in PlanOf(specs, o)
    ensures !a.DeleteVeth? && !a.DeleteNftTag? && a.id == id ==> a.Adopt?
    ensures a != DeleteVeth(VethName(id)) && a != DeleteNftTag(NftTag(id))
  {
    PlanExact(specs, o, Adopt(id));
    PlanExact(specs, o, a);
  }
}
