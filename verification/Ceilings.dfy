/**
 * The counts and ceilings of the current population: on classified homes they are the counts of the
 * preflight, so the bound on needs that is computed a second time is never exceeded.
 */
module Ceilings {
  import opened Prelude
  import opened Needs
  import opened FrozenCover
  import L = Lineage
  import P = Preflight

  /** `complete` passes exactly when every home is classified; only then is anything counted. */
  datatype Counts = Counts(complete: Verdict, population: nat, founders: nat, children: nat)

  predicate IsClassified(h: Housed) { h.class_ == Included || h.class_ == ExcludedOwn }

  predicate IsChildOf(h: Home, parent: string) {
    h.base.record.Present? && h.base.record.value.role == L.Descendant && h.base.record.value.parent == Some(parent)
  }

  /** The included homes for which `p` holds. */
  function Tally(homes: seq<Housed>, p: Home -> bool): nat {
    if homes == [] then 0
    else
      var h := homes[|homes| - 1];
      Tally(homes[..|homes| - 1], p) + (if h.class_ == Included && p(h.home) then 1 else 0)
  }

  const ANY: Home -> bool := h => true
  const FOUNDER: Home -> bool := h => IsFounder(h)

  function ChildOf(parent: string): Home -> bool { h => IsChildOf(h, parent) }

  /** `_counts`: nothing on unclassified homes, else population, founders and the parent's children. */
  method Count(homes: seq<Housed>, parent: string) returns (counts: Counts)
    requires forall h | h in homes && h.class_ == Included :: h.home.base.record.Present?
    ensures counts.complete == Pass <==> forall h | h in homes :: IsClassified(h)
    ensures counts.complete == Fail <==> exists h :: h in homes && h.class_ == Blocking
    ensures counts.complete == Pass ==>
              && counts.population == Tally(homes, ANY) && counts.founders == Tally(homes, FOUNDER)
              && counts.children == Tally(homes, ChildOf(parent))
  {
    var p, f, k := 0, 0, 0;
    var classified, blocking := true, false;
    for n := 0 to |homes|
      invariant classified <==> forall i | 0 <= i < n :: IsClassified(homes[i])
      invariant blocking <==> exists i :: 0 <= i < n && homes[i].class_ == Blocking
      invariant p == Tally(homes[..n], ANY) && f == Tally(homes[..n], FOUNDER)
      invariant k == Tally(homes[..n], ChildOf(parent))
    {
      var h := homes[n];
      assert homes[..n + 1][..n] == homes[..n];
      if h.class_ == Included {
        p := p + 1;
        if IsFounder(h.home) { f := f + 1; }
        if IsChildOf(h.home, parent) { k := k + 1; }
      }
      if !IsClassified(h) { classified := false; }
      if h.class_ == Blocking { blocking := true; }
    }
    assert homes[..|homes|] == homes;
    if blocking { return Counts(Fail, 0, 0, 0); }
    if !classified { return Counts(NotEvaluated, 0, 0, 0); }
    return Counts(Pass, p, f, k);
  }

  /** Only the candidate's own home is excluded, and it is never counted among the others. */
  predicate OwnIsExcluded(homes: seq<Housed>, potential: Option<string>) {
    forall h | h in homes ::
      && (h.class_ == ExcludedOwn ==> Some(h.home.base.agentId) == potential)
      && (Some(h.home.base.agentId) == potential ==> h.class_ != Included)
  }

  /** On classified homes the counts are those of the preflight. */
  lemma {:induction false} CountsAreThePreflights(homes: seq<Housed>, potential: Option<string>)
    requires (forall h | h in homes :: IsClassified(h)) && OwnIsExcluded(homes, potential)
    ensures Tally(homes, ANY) == Population(HomesOf(homes), potential)
    ensures Tally(homes, FOUNDER) == Founders(HomesOf(homes), potential)
  {
    if homes != [] {
      var n := |homes| - 1;
      CountsAreThePreflights(homes[..n], potential);
      assert HomesOf(homes)[..n] == HomesOf(homes[..n]) && HomesOf(homes)[n] == homes[n].home;
      assert homes[n] in homes;
    }
  }

  /** The places of the included homes for which `p` holds. */
  function Places(homes: seq<Housed>, p: Home -> bool): set<int> {
    set i | 0 <= i < |homes| && homes[i].class_ == Included && p(homes[i].home)
  }

  /** A tally counts places. */
  lemma {:induction false} TallyIsSize(homes: seq<Housed>, p: Home -> bool)
    ensures Tally(homes, p) == |Places(homes, p)|
  {
    if homes == [] {
      assert Places(homes, p) == {};
    } else {
      var n := |homes| - 1;
      TallyIsSize(homes[..n], p);
      PlacesStep(homes, p);
      hide Places;
    }
  }

  lemma PlacesStep(homes: seq<Housed>, p: Home -> bool)
    requires homes != []
    ensures var n := |homes| - 1;
            && n !in Places(homes[..n], p)
            && Places(homes, p)
               == if homes[n].class_ == Included && p(homes[n].home) then Places(homes[..n], p) + {n}
                  else Places(homes[..n], p)
  {
    var n := |homes| - 1;
    forall i ensures i in Places(homes[..n], p) <==> i in Places(homes, p) && i != n {
      if 0 <= i < n { assert homes[..n][i] == homes[i]; }
    }
  }

  lemma ChildDescends(index: map<string, L.Home>, verify: L.Verifier, h: Home, homes: seq<Home>,
                      facts: seq<L.Structure>, parent: string, i: nat)
    requires P.FactsFit(index, verify, homes, facts) && P.AllPass(facts) && i < |homes| && homes[i] == h
    ensures IsChildOf(h, parent) <==> L.DescendsFrom(index, h.base.agentId, parent)
  {
    hide L.StructureOf;
    P.PassedAgent(index, verify, h.base.agentId, facts[i]);
  }

  /** On homes whose lineages pass, the children that are counted are the homes that descend from the parent. */
  lemma ChildrenDescend(index: map<string, L.Home>, verify: L.Verifier, homes: seq<Housed>, facts: seq<L.Structure>,
                        parent: string)
    requires P.FactsFit(index, verify, HomesOf(homes), facts) && P.AllPass(facts)
    ensures Places(homes, ChildOf(parent))
            == set i | 0 <= i < |homes| && homes[i].class_ == Included
                       && L.DescendsFrom(index, homes[i].home.base.agentId, parent)
  {
    forall i | 0 <= i < |homes|
      ensures IsChildOf(homes[i].home, parent) <==> L.DescendsFrom(index, homes[i].home.base.agentId, parent)
    {
      ChildDescends(index, verify, homes[i].home, HomesOf(homes), facts, parent, i);
    }
  }

  datatype Ceilings = Ceilings(population: Verdict, children: Verdict, bound: Verdict)

  function Checked(holds: bool): Verdict { if holds then Pass else Fail }

  /** The bound on needs, which is only compared where it is defined. */
  predicate BoundApplies(counts: Counts, maxPopulation: nat, n: Option<nat>) {
    counts.population + 1 <= maxPopulation && counts.founders >= 1 && n.Some?
  }

  /** The ceilings that rest on the counts. */
  method Limit(counts: Counts, maxPopulation: nat, maxChildren: nat, n: Option<nat>)
    returns (r: Result<Ceilings, P.LimitName>)
    ensures r.Err? <==>
              && counts.complete == Pass && BoundApplies(counts, maxPopulation, n)
              && n.value > 4 * counts.population - 3 * counts.founders + 3
    ensures r.Ok? && counts.complete != Pass ==> r.value == Ceilings(NotEvaluated, NotEvaluated, NotEvaluated)
    ensures r.Ok? && counts.complete == Pass ==>
              && r.value.population == Checked(counts.population < maxPopulation)
              && r.value.children == Checked(counts.children < maxChildren)
              && r.value.bound == if BoundApplies(counts, maxPopulation, n) then Pass else NotEvaluated
  {
    if counts.complete != Pass { return Ok(Ceilings(NotEvaluated, NotEvaluated, NotEvaluated)); }
    var population := Checked(counts.population + 1 <= maxPopulation);
    var children := Checked(counts.children + 1 <= maxChildren);
    var bound := NotEvaluated;
    if population == Pass && counts.founders >= 1 && n.Some? {
      if n.value > 4 * counts.population - 3 * counts.founders + 3 { return Err(P.ItemReferences); }
      bound := Pass;
    }
    return Ok(Ceilings(population, children, bound));
  }

  /** A preflight without codes has counted: population and founders are its own. */
  lemma NeedsWereCounted(env: DocEnv, index: map<string, L.Home>, verify: L.Verifier, c: Candidate, parent: string,
                         homes: seq<Home>, facts: seq<L.Structure>, ctx: P.Context, r: P.OperationPreflight)
    requires P.FactsFit(index, verify, homes, facts) && P.OwnContract(env, c, homes, ctx)
    requires P.IsPreflight(env, c, parent, homes, facts, ctx, r) && r.derivedN.Some?
    ensures r.population == Some(Population(homes, r.potential)) && r.founders == Some(Founders(homes, r.potential))
    ensures r.derivedN.value <= 4 * Population(homes, r.potential) - 3 * Founders(homes, r.potential) + 3
  {
    hide P.FactsFit, P.OwnContract, Population, Founders, Derived, P.Applies, P.BranchOf, P.PotentialOf, P.Counted;
    P.CleanIsCounted(env, c, parent, homes, facts, ctx, r);
    P.BoundHolds(env, index, verify, c, homes, facts, ctx, P.BranchOf(facts, parent));
  }

  /**
   * The ceilings of the open operation, after its preflight on the same homes: population and founders
   * are the preflight's wherever both are counted, and the second bound is never exceeded.
   */
  method CurrentCeilings(env: DocEnv, ghost index: map<string, L.Home>, ghost verify: L.Verifier, ghost c: Candidate,
                         parent: string, homes: seq<Housed>, ghost facts: seq<L.Structure>, ghost ctx: P.Context,
                         preflight: P.OperationPreflight, maxPopulation: nat, maxChildren: nat)
    returns (counts: Counts, r: Result<Ceilings, P.LimitName>)
    requires P.FactsFit(index, verify, HomesOf(homes), facts) && P.OwnContract(env, c, HomesOf(homes), ctx)
    requires P.IsPreflight(env, c, parent, HomesOf(homes), facts, ctx, preflight)
    requires OwnIsExcluded(homes, preflight.potential)
    requires forall h | h in homes && h.class_ == Included :: h.home.base.record.Present?
    ensures r.Ok?
    ensures counts.complete == Pass && preflight.derivedN.Some? ==>
              Some(counts.population) == preflight.population && Some(counts.founders) == preflight.founders
    ensures counts.complete == Pass <==> forall h | h in homes :: IsClassified(h)
    ensures counts.complete == Pass ==>
              && r.value.population == Checked(Tally(homes, ANY) < maxPopulation)
              && r.value.children == Checked(Tally(homes, ChildOf(parent)) < maxChildren)
              && r.value.bound == if BoundApplies(counts, maxPopulation, preflight.derivedN) then Pass else NotEvaluated
  {
    hide P.FactsFit, P.OwnContract, P.IsPreflight, Tally, Population, Founders, OwnIsExcluded;
    counts := Count(homes, parent);
    if counts.complete == Pass {
      CountsAreThePreflights(homes, preflight.potential);
      if preflight.derivedN.Some? {
        NeedsWereCounted(env, index, verify, c, parent, HomesOf(homes), facts, ctx, preflight);
      }
    }
    r := Limit(counts, maxPopulation, maxChildren, preflight.derivedN);
  }
}
