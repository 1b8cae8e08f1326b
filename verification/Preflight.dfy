/**
 * `derive`: the loops that collect the needs of the open operation, with the limits that may abort
 * them, on homes whose lineages were checked before.
 */
module Preflight {
  import opened Prelude
  import opened Needs
  import L = Lineage

  datatype LimitName = EnvelopeBytes | RecordBytes | ItemReferences | BoundExceeded

  function ByteLimit(kind: Kind): LimitName { if kind == Statement then EnvelopeBytes else RecordBytes }

  /** Requirements that fit their size limit. */
  predicate Fits(qs: seq<Requirement>) { forall i | 0 <= i < |qs| :: !TooBig(qs[i]) }

  /** Some requirement exceeds its byte limit, and `name` is that limit. */
  ghost predicate Exceeds(qs: seq<Requirement>, name: LimitName) {
    exists i :: 0 <= i < |qs| && TooBig(qs[i]) && name == ByteLimit(qs[i].kind)
  }

  lemma ExceedsIsAByteLimit(qs: seq<Requirement>, name: LimitName)
    requires Exceeds(qs, name)
    ensures !Fits(qs) && (name == EnvelopeBytes || name == RecordBytes)
  {
  }

  /** More needs than allowed: nothing is compared before the first need. */
  predicate TooMany(needs: map<Key, Need>, cap: int) { needs != map[] && |needs| > cap }

  /** The nested `add`: note, key, and check the limits after every insertion. */
  method Add(env: DocEnv, d: Derivation, q: Requirement, cap: int) returns (r: Result<Derivation, LimitName>)
    ensures r.Ok? ==> r.value == Added(env, d, q) && (r.value.needs == d.needs || |r.value.needs| <= cap)
    ensures r.Err? && r.error != ItemReferences <==> TooBig(q)
    ensures r == Err(ItemReferences) <==>
              q.raw.Some? && !TooBig(q) && AddNeed(env, d.needs, q).Some? && TooMany(Added(env, d, q).needs, cap)
    ensures TooBig(q) ==> r == Err(ByteLimit(q.kind))
  {
    if q.raw == None { return Ok(d.(missing := true)); }
    if TooBig(q) { return Err(ByteLimit(q.kind)); }
    match AddNeed(env, d.needs, q) {
      case None => return Ok(d.(divergent := true));
      case Some(needs) =>
        if |needs| > cap { return Err(ItemReferences); }
        return Ok(d.(needs := needs));
    }
  }

  lemma {:induction false} AddAllGrows(env: DocEnv, d: Derivation, qs: seq<Requirement>, n: nat)
    requires n <= |qs|
    ensures AddAll(env, d, qs[..n]).needs.Keys <= AddAll(env, d, qs).needs.Keys
  {
    AddAllKeys(env, d, qs[..n]);
    AddAllKeys(env, d, qs);
  }

  method AddEach(env: DocEnv, d0: Derivation, qs: seq<Requirement>, cap: int) returns (r: Result<Derivation, LimitName>)
    ensures r.Ok? ==> r.value == AddAll(env, d0, qs) && Fits(qs)
    ensures r.Ok? ==> r.value.needs == d0.needs || |r.value.needs| <= cap
    ensures r == Err(ItemReferences) ==> TooMany(AddAll(env, d0, qs).needs, cap)
    ensures r.Err? && r.error != ItemReferences ==> Exceeds(qs, r.error)
  {
    hide Added;
    var d := d0;
    for n := 0 to |qs|
      invariant d == AddAll(env, d0, qs[..n])
      invariant forall i | 0 <= i < n :: !TooBig(qs[i])
      invariant d.needs == d0.needs || |d.needs| <= cap
    {
      assert qs[..n + 1][..n] == qs[..n];
      var next := Add(env, d, qs[n], cap);
      if next.Err? {
        if next.error == ItemReferences {
          AddAllGrows(env, d0, qs, n + 1);
          KeysSize(AddAll(env, d0, qs[..n + 1]).needs, AddAll(env, d0, qs).needs);
        }
        return next;
      }
      d := next.value;
    }
    assert qs[..|qs|] == qs;
    return Ok(d);
  }

  lemma KeysSize(a: map<Key, Need>, b: map<Key, Need>)
    requires a.Keys <= b.Keys
    ensures |a| <= |b|
  {
    SubsetSize(a.Keys, b.Keys);
    assert |a| == |a.Keys| && |b| == |b.Keys|;
  }

  /** The stored records of the homes fit their limits: checked before anything is derived. */
  predicate HomesFit(homes: seq<Home>) {
    forall h | h in homes && h.base.record.Present? ::
      Fits([IndividualRequirement(h, h.base.record.value)]) && Fits(BirthRequirements(h))
  }

  method AddHome(env: DocEnv, d: Derivation, h: Home, branch: set<string>, potential: Option<string>, cap: int)
    returns (r: Result<Derivation, LimitName>)
    requires HomesFit([h])
    ensures r.Ok? ==> r.value == TakeHome(env, d, h, branch, potential)
    ensures r.Ok? ==> r.value.needs == d.needs || |r.value.needs| <= cap
    ensures r.Err? ==> r.error == ItemReferences && TooMany(TakeHome(env, d, h, branch, potential).needs, cap)
  {
    match h.base.record {
      case Missing => return Ok(d.(missing := true));
      case Oversized => return Ok(d.(missing := true, divergent := true));
      case Divergent => return Ok(d.(missing := true, divergent := true));
      case Present(record) =>
        var start := if record.role == L.OtherRole then d.(divergent := true) else d;
        assert h in [h];
        assert Fits(HomeRequirements(h, record, branch, potential)) by {
          assert Fits([IndividualRequirement(h, record)]) && Fits(BirthRequirements(h));
        }
        r := AddEach(env, start, HomeRequirements(h, record, branch, potential), cap);
    }
  }

  /** The candidate's records, then those of every home. */
  method Collect(env: DocEnv, c: Candidate, homes: seq<Home>, branch: set<string>, potential: Option<string>, cap: int)
    returns (r: Result<Derivation, LimitName>)
    requires HomesFit(homes)
    ensures var d := Derived(env, c, homes, branch, potential);
            && (r.Ok? ==> r.value == d)
            && (r.Ok? <==> Fits(CandidateRequirements(c)) && !TooMany(d.needs, cap))
            && (r == Err(ItemReferences) ==> TooMany(d.needs, cap))
            && (r.Err? && r.error != ItemReferences ==> Exceeds(CandidateRequirements(c), r.error))
  {
    hide AddAll, TakeHome, Fits, Exceeds, CandidateRequirements, BirthRequirements, IndividualRequirement;
    var start := AddEach(env, NOTHING, CandidateRequirements(c), cap);
    ghost var d0 := AddAll(env, NOTHING, CandidateRequirements(c));
    if start.Err? {
      if start.error == ItemReferences {
        HomesGrow(env, d0, homes, branch, potential, 0);
        assert homes[..0] == [];
      } else {
        ExceedsIsAByteLimit(CandidateRequirements(c), start.error);
      }
      return start;
    }
    var d := start.value;
    for n := 0 to |homes|
      invariant d == TakeHomes(env, d0, homes[..n], branch, potential)
      invariant d.needs == map[] || |d.needs| <= cap
    {
      assert homes[..n + 1][..n] == homes[..n];
      assert homes[n] in homes;
      var next := AddHome(env, d, homes[n], branch, potential, cap);
      if next.Err? {
        HomesGrow(env, d0, homes, branch, potential, n + 1);
        return next;
      }
      d := next.value;
    }
    assert homes[..|homes|] == homes;
    return Ok(d);
  }

  lemma HomesGrow(env: DocEnv, d: Derivation, homes: seq<Home>, branch: set<string>, potential: Option<string>, n: nat)
    requires n <= |homes|
    ensures |TakeHomes(env, d, homes[..n], branch, potential).needs|
            <= |TakeHomes(env, d, homes, branch, potential).needs|
  {
    hide HomeKeys;
    TakeHomesKeys(env, d, homes[..n], branch, potential);
    TakeHomesKeys(env, d, homes, branch, potential);
    KeysSize(TakeHomes(env, d, homes[..n], branch, potential).needs, TakeHomes(env, d, homes, branch, potential).needs);
  }

  // ---- one open operation -------------------------------------------------------------------------

  /** The facts of `structures`, one for each home. */
  predicate FactsFit(index: map<string, L.Home>, verify: L.Verifier, homes: seq<Home>, facts: seq<L.Structure>) {
    && |facts| == |homes|
    && forall i | 0 <= i < |homes| ::
         && homes[i].base.agentId in index && index[homes[i].base.agentId] == homes[i].base
         && L.StructureOf(index, verify, homes[i].base.agentId) == Ok(facts[i])
  }

  predicate AllPass(facts: seq<L.Structure>) { forall i | 0 <= i < |facts| :: facts[i].Pass? }

  /** Homes whose lineages pass have a role in their record. */
  lemma PassedHomesHaveRoles(index: map<string, L.Home>, verify: L.Verifier, homes: seq<Home>, facts: seq<L.Structure>)
    requires FactsFit(index, verify, homes, facts) && AllPass(facts)
    ensures forall h | h in homes :: HasRole(h)
  {
    forall h | h in homes ensures HasRole(h) {
      var i :| 0 <= i < |homes| && homes[i] == h;
      PassedAgent(index, verify, h.base.agentId, facts[i]);
    }
  }

  lemma PassedAgent(index: map<string, L.Home>, verify: L.Verifier, agent: string, fact: L.Structure)
    requires L.StructureOf(index, verify, agent) == Ok(fact) && fact.Pass?
    ensures L.Usable(index, agent)
    ensures L.RecordOf(index, agent).role == L.Founder || L.RecordOf(index, agent).role == L.Descendant
  {
    assert fact == L.Pass(agent, fact.branch);
    L.PassGivesLineage(index, verify, agent, fact.branch);
    hide L.StructureOf, L.Usable;
    var b := fact.branch;
    if |b| > 1 { assert L.DescendsFrom(index, b[|b| - 1], b[|b| - 2]); }
  }

  datatype Code =
    | OperationPending | PolicyContextMismatch | BranchIncomplete | LineageCode(code: L.Code)
    | OwnHomeIncomplete | EvidenceNotStored | FrozenItemDivergent

  datatype Verdict = Pass | Fail | NotEvaluated

  datatype OperationPreflight = OperationPreflight(
    needs: map<Key, Need>,
    derivation: Verdict,
    derivedN: Option<nat>,
    population: Option<nat>,
    founders: Option<nat>,
    bound: Option<int>,
    potential: Option<string>,
    codes: set<Code>)

  /** The state of the open operation, and what its own-home comparison said. */
  datatype Context = Context(
    uniqueOpen: bool,
    policyMatches: bool,
    maxPopulation: nat,
    own: Option<bool>)

  /** The parent's branch, empty unless its lineage passed. */
  function BranchOf(facts: seq<L.Structure>, parent: string): set<string> {
    if facts == [] then {}
    else if facts[|facts| - 1].agentId == parent then
      (if facts[|facts| - 1].Pass? then L.Members(facts[|facts| - 1].branch) else {})
    else BranchOf(facts[..|facts| - 1], parent)
  }

  function PotentialOf(c: Candidate, ctx: Context, branch: set<string>): Option<string> {
    if ctx.own == Some(true) && c.child !in branch then Some(c.child) else None
  }

  /** When are population and founders counted? */
  predicate Counted(ctx: Context, facts: seq<L.Structure>, branch: set<string>) {
    AllPass(facts) && branch != {} && ctx.uniqueOpen && ctx.own.Some? && ctx.policyMatches
  }

  /** The contract of the own-home comparison: a home that matches stores the presented records. */
  predicate OwnContract(env: DocEnv, c: Candidate, homes: seq<Home>, ctx: Context) {
    ctx.own == Some(true) ==>
      exists h :: h in homes && h.base.agentId == c.child && OwnPresents(env, c, h)
                  && forall g | g in homes && g.base.agentId == c.child :: g == h
  }

  /** The bound holds of what is derived, whenever it is computed. */
  lemma BoundHolds(env: DocEnv, index: map<string, L.Home>, verify: L.Verifier, c: Candidate, homes: seq<Home>,
                   facts: seq<L.Structure>, ctx: Context, branch: set<string>)
    requires FactsFit(index, verify, homes, facts) && OwnContract(env, c, homes, ctx) && Counted(ctx, facts, branch)
    ensures var potential := PotentialOf(c, ctx, branch);
            var p, f := Population(homes, potential), Founders(homes, potential);
            && |Derived(env, c, homes, branch, potential).needs| <= 4 * p - 3 * f + 3
            && (p < ctx.maxPopulation && f >= 1 ==> 4 * p - 3 * f + 3 <= 4 * ctx.maxPopulation - 4)
  {
    PassedHomesHaveRoles(index, verify, homes, facts);
    hide Derived, HasRole, OwnPresents, FactsFit;
    if PotentialOf(c, ctx, branch).Some? {
      var h :| h in homes && h.base.agentId == c.child && OwnPresents(env, c, h)
               && forall g | g in homes && g.base.agentId == c.child :: g == h;
      NeedBound(env, c, homes, branch, Some(h), ctx.maxPopulation);
    } else {
      NeedBound(env, c, homes, branch, None, ctx.maxPopulation);
    }
  }

  function LineageCodes(facts: seq<L.Structure>): set<Code> { set s | s in facts && s.Fail? :: LineageCode(s.code) }

  /** The codes that do not depend on the needs. */
  function EarlyCodes(ctx: Context, branch: set<string>, facts: seq<L.Structure>): (codes: set<Code>)
    ensures codes == {} <==> ctx.uniqueOpen && ctx.policyMatches && branch != {} && AllPass(facts) && ctx.own.Some?
  {
    NoLineageCode(facts);
    (if ctx.uniqueOpen then {} else {OperationPending})
    + (if ctx.policyMatches then {} else {PolicyContextMismatch})
    + (if branch != {} then {} else {BranchIncomplete})
    + LineageCodes(facts)
    + (if ctx.own.Some? then {} else {OwnHomeIncomplete})
  }

  function LateCodes(d: Derivation): (codes: set<Code>)
    ensures codes == {} <==> !d.missing && !d.divergent
    ensures PolicyContextMismatch !in codes
  {
    (if d.missing then {EvidenceNotStored} else {}) + (if d.divergent then {FrozenItemDivergent} else {})
  }

  /** What each code says of the operation, its homes and their lineages. */
  ghost predicate Applies(env: DocEnv, c: Candidate, homes: seq<Home>, facts: seq<L.Structure>, ctx: Context,
                          branch: set<string>, potential: Option<string>, code: Code)
  {
    match code
    case OperationPending => !ctx.uniqueOpen
    case PolicyContextMismatch => !ctx.policyMatches
    case BranchIncomplete => branch == {}
    case LineageCode(reason) => exists agent :: L.Fail(agent, reason) in facts
    case OwnHomeIncomplete => ctx.own == None
    case EvidenceNotStored => c.statement == None || exists h :: h in homes && (NoRecord(h) || LacksBirth(h))
    case FrozenItemDivergent =>
      var qs := AllRequirements(c, homes, branch, potential);
      (exists h :: h in homes && OddRecord(h)) || HasUnreadable(env, qs) || HasClash(env, qs)
  }

  /** The codes are exactly those that apply. */
  lemma CodesApply(env: DocEnv, c: Candidate, homes: seq<Home>, facts: seq<L.Structure>, ctx: Context,
                   branch: set<string>, potential: Option<string>)
    ensures forall code ::
              code in EarlyCodes(ctx, branch, facts) + LateCodes(Derived(env, c, homes, branch, potential))
              <==> Applies(env, c, homes, facts, ctx, branch, potential, code)
  {
    hide Derived, HasUnreadable, HasClash, AllRequirements, OddRecord, NoRecord, LacksBirth;
    DerivedSays(env, c, homes, branch, potential);
    forall agent, reason | L.Fail(agent, reason) in facts ensures LineageCode(reason) in LineageCodes(facts) { }
    forall reason | LineageCode(reason) in LineageCodes(facts) ensures exists agent :: L.Fail(agent, reason) in facts {
      var f :| f in facts && f.Fail? && f.code == reason;
      assert f == L.Fail(f.agentId, reason);
    }
  }

  /** What the preflight says of an open operation. */
  ghost predicate IsPreflight(env: DocEnv, c: Candidate, parent: string, homes: seq<Home>, facts: seq<L.Structure>,
                              ctx: Context, r: OperationPreflight)
  {
    var branch := BranchOf(facts, parent);
    var d := Derived(env, c, homes, branch, r.potential);
    var p, f := Population(homes, r.potential), Founders(homes, r.potential);
    && (r.potential.Some? <==> ctx.own == Some(true) && c.child !in branch)
    && (r.potential.Some? ==> r.potential.value == c.child)
    && r.needs == d.needs
    && (r.derivedN == if r.codes == {} then Some(|d.needs|) else None)
    && (forall code :: code in r.codes <==> Applies(env, c, homes, facts, ctx, branch, r.potential, code))
    && (r.population.Some? <==> r.codes <= {EvidenceNotStored, FrozenItemDivergent})
    && r.population == (if r.population.Some? then Some(p) else None)
    && r.founders == (if r.population.Some? then Some(f) else None)
    && (r.bound == if r.population.Some? && p < ctx.maxPopulation && f >= 1 then Some(4 * p - 3 * f + 3) else None)
    && (r.bound.Some? ==> |r.needs| <= r.bound.value <= 4 * ctx.maxPopulation - 4)
    && (r.derivation == Pass <==> r.codes == {})
    && (r.derivation == Fail <==>
          PolicyContextMismatch in r.codes || FrozenItemDivergent in r.codes
          || exists reason :: LineageCode(reason) in r.codes)
  }

  /** A preflight without codes has counted. */
  lemma CleanIsCounted(env: DocEnv, c: Candidate, parent: string, homes: seq<Home>, facts: seq<L.Structure>,
                       ctx: Context, r: OperationPreflight)
    requires IsPreflight(env, c, parent, homes, facts, ctx, r) && r.codes == {}
    ensures Counted(ctx, facts, BranchOf(facts, parent)) && r.potential == PotentialOf(c, ctx, BranchOf(facts, parent))
  {
    hide Derived, Population, Founders, HasUnreadable, HasClash, AllRequirements, OddRecord, NoRecord, LacksBirth;
    var branch := BranchOf(facts, parent);
    hide BranchOf;
    assert !Applies(env, c, homes, facts, ctx, branch, r.potential, OperationPending);
    assert !Applies(env, c, homes, facts, ctx, branch, r.potential, PolicyContextMismatch);
    assert !Applies(env, c, homes, facts, ctx, branch, r.potential, BranchIncomplete);
    assert !Applies(env, c, homes, facts, ctx, branch, r.potential, OwnHomeIncomplete);
    forall i | 0 <= i < |facts| ensures facts[i].Pass? {
      if facts[i].Fail? { FailApplies(env, c, homes, facts, ctx, branch, r.potential, i); }
    }
  }

  lemma FailApplies(env: DocEnv, c: Candidate, homes: seq<Home>, facts: seq<L.Structure>, ctx: Context,
                    branch: set<string>, potential: Option<string>, i: nat)
    requires i < |facts| && facts[i].Fail?
    ensures Applies(env, c, homes, facts, ctx, branch, potential, LineageCode(facts[i].code))
  {
    assert facts[i] == L.Fail(facts[i].agentId, facts[i].code) && facts[i] in facts;
  }

  /** The records of the candidate keep to their limits. */
  predicate CandidateFits(c: Candidate) {
    |c.admission| <= 65536 && |c.qualification| <= 65536 && (c.statement.Some? ==> |c.statement.value| <= 16384)
  }

  lemma CandidateLimits(c: Candidate)
    ensures Fits(CandidateRequirements(c)) <==> CandidateFits(c)
    ensures Exceeds(CandidateRequirements(c), EnvelopeBytes) ==> c.statement.Some? && |c.statement.value| > 16384
    ensures Exceeds(CandidateRequirements(c), RecordBytes) ==> |c.admission| > 65536 || |c.qualification| > 65536
  {
    var qs := CandidateRequirements(c);
    assert qs[0].raw == Some(c.admission) && qs[1].raw == Some(c.qualification) && qs[2].raw == c.statement;
  }

  /** So many needs that a policy for `m` individuals cannot have them, or no operation can. */
  predicate Overflows(n: nat, m: nat) { n > 0 && (n > 4 * m - 4 || n > 252) }

  lemma CapMeans(needs: map<Key, Need>, m: nat)
    ensures TooMany(needs, Cap(m)) <==> Overflows(|needs|, m)
  {
  }

  /** Counted is what no early code stands against. */
  lemma CountedMeans(ctx: Context, facts: seq<L.Structure>, branch: set<string>, d: Derivation)
    ensures Counted(ctx, facts, branch)
            <==> EarlyCodes(ctx, branch, facts) + LateCodes(d) <= {EvidenceNotStored, FrozenItemDivergent}
  {
    EarlyIsEarly(ctx, facts, branch);
    hide EarlyCodes, AllPass;
    var early, late := EarlyCodes(ctx, branch, facts), LateCodes(d);
    assert early + late <= {EvidenceNotStored, FrozenItemDivergent} <==> early == {} by {
      if code :| code in early { assert code in early + late; }
    }
  }

  lemma EarlyIsEarly(ctx: Context, facts: seq<L.Structure>, branch: set<string>)
    ensures EvidenceNotStored !in EarlyCodes(ctx, branch, facts)
            && FrozenItemDivergent !in EarlyCodes(ctx, branch, facts)
  {
  }

  /** The verdict fails for divergence, for the policy, or for a lineage, and each has its code. */
  lemma FailHasCode(ctx: Context, facts: seq<L.Structure>, branch: set<string>, d: Derivation)
    ensures var codes := EarlyCodes(ctx, branch, facts) + LateCodes(d);
            && (PolicyContextMismatch in codes <==> !ctx.policyMatches)
            && (FrozenItemDivergent in codes <==> d.divergent)
            && ((exists reason :: LineageCode(reason) in codes) <==> !AllPass(facts))
  {
    NoLineageCode(facts);
    if code :| code in LineageCodes(facts) {
      assert code in EarlyCodes(ctx, branch, facts) + LateCodes(d);
    }
  }

  /** Population, founders and bound: counted only when nothing of the lineages is in doubt. */
  method CountHomes(homes: seq<Home>, potential: Option<string>, counted: bool, maxPopulation: nat)
    returns (p: Option<nat>, f: Option<nat>, bound: Option<int>)
    ensures p == (if counted then Some(Population(homes, potential)) else None)
    ensures f == (if counted then Some(Founders(homes, potential)) else None)
    ensures bound == if counted && p.value < maxPopulation && f.value >= 1
                     then Some(4 * p.value - 3 * f.value + 3) else None
  {
    p, f, bound := None, None, None;
    if counted {
      var population, founders := Population(homes, potential), Founders(homes, potential);
      p, f := Some(population), Some(founders);
      if population < maxPopulation && founders >= 1 { bound := Some(4 * population - 3 * founders + 3); }
    }
  }

  /** One open operation of `derive`: needs, provisional counts, bound and codes. */
  method DeriveOperation(env: DocEnv, index: map<string, L.Home>, verify: L.Verifier, c: Candidate, parent: string,
                         homes: seq<Home>, facts: seq<L.Structure>, ctx: Context)
    returns (r: Result<OperationPreflight, LimitName>)
    requires FactsFit(index, verify, homes, facts) && HomesFit(homes) && OwnContract(env, c, homes, ctx)
    ensures r.Ok? ==> IsPreflight(env, c, parent, homes, facts, ctx, r.value)
    ensures var branch := BranchOf(facts, parent);
            var potential := if ctx.own == Some(true) && c.child !in branch then Some(c.child) else None;
            var n := |Derived(env, c, homes, branch, potential).needs|;
            var p, f := Population(homes, potential), Founders(homes, potential);
            && (r.Ok? <==> CandidateFits(c) && !Overflows(n, ctx.maxPopulation))
            && (r == Err(ItemReferences) ==> Overflows(n, ctx.maxPopulation))
            && (r == Err(EnvelopeBytes) ==> c.statement.Some? && |c.statement.value| > 16384)
            && (r == Err(RecordBytes) ==> |c.admission| > 65536 || |c.qualification| > 65536)
            && (r == Err(ItemReferences) && EarlyCodes(ctx, branch, facts) == {} && p < ctx.maxPopulation && f >= 1 ==>
                  252 < 4 * p - 3 * f + 3)
            && r != Err(BoundExceeded)
  {
    hide Derived, FactsFit, HomesFit, OwnContract, Population, Founders, OwnPresents, Exceeds, Fits, EarlyCodes;
    hide LateCodes, BranchOf, AllPass, Cap, TooMany, CandidateFits, CandidateRequirements, Applies;
    var branch := BranchOf(facts, parent);
    var potential := PotentialOf(c, ctx, branch);
    CandidateLimits(c);
    CapMeans(Derived(env, c, homes, branch, potential).needs, ctx.maxPopulation);
    var codes := CollectCodes(ctx, branch, facts);
    var read := Collect(env, c, homes, branch, potential, Cap(ctx.maxPopulation));
    if Counted(ctx, facts, branch) { BoundHolds(env, index, verify, c, homes, facts, ctx, branch); }
    if read.Err? {
      if read.error != ItemReferences { ExceedsIsAByteLimit(CandidateRequirements(c), read.error); }
      return Err(read.error);
    }
    var d := read.value;
    codes := codes + LateCodes(d);
    CodesApply(env, c, homes, facts, ctx, branch, potential);
    CountedMeans(ctx, facts, branch, d);
    FailHasCode(ctx, facts, branch, d);
    var p, f, bound := CountHomes(homes, potential, Counted(ctx, facts, branch), ctx.maxPopulation);
    if bound.Some? && |d.needs| > bound.value { return Err(BoundExceeded); }
    var failed := d.divergent || !AllPass(facts) || PolicyContextMismatch in codes;
    var status := if failed then Fail else if codes != {} then NotEvaluated else Pass;
    var derivedN := if codes == {} then Some(|d.needs|) else None;
    return Ok(OperationPreflight(d.needs, status, derivedN, p, f, bound, potential, codes));
  }

  /** The codes of the lineages that do not pass. */
  method CollectCodes(ctx: Context, branch: set<string>, facts: seq<L.Structure>) returns (codes: set<Code>)
    ensures codes == EarlyCodes(ctx, branch, facts)
    ensures codes == {} <==> ctx.uniqueOpen && ctx.policyMatches && branch != {} && AllPass(facts) && ctx.own.Some?
    ensures PolicyContextMismatch in codes <==> !ctx.policyMatches
  {
    codes := {};
    if !ctx.uniqueOpen { codes := codes + {OperationPending}; }
    if !ctx.policyMatches { codes := codes + {PolicyContextMismatch}; }
    if branch == {} { codes := codes + {BranchIncomplete}; }
    ghost var early := codes;
    for i := 0 to |facts|
      invariant codes == early + LineageCodes(facts[..i])
    {
      OneMoreFact(facts, i);
      if facts[i].Fail? { codes := codes + {LineageCode(facts[i].code)}; }
    }
    assert facts[..|facts|] == facts;
    NoLineageCode(facts);
    if ctx.own == None { codes := codes + {OwnHomeIncomplete}; }
  }

  lemma OneMoreFact(facts: seq<L.Structure>, i: nat)
    requires i < |facts|
    ensures LineageCodes(facts[..i + 1])
            == LineageCodes(facts[..i]) + (if facts[i].Fail? then {LineageCode(facts[i].code)} else {})
  {
    assert facts[..i + 1] == facts[..i] + [facts[i]];
  }

  lemma NoLineageCode(facts: seq<L.Structure>)
    ensures LineageCodes(facts) == {} <==> AllPass(facts)
  {
    if i :| 0 <= i < |facts| && !facts[i].Pass? {
      assert facts[i] in facts && LineageCode(facts[i].code) in LineageCodes(facts);
    }
  }
}
