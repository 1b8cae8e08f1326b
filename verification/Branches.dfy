/**
 * The parental branch of a candidate: the nodes that are read for it, and their verification. A
 * branch passes exactly when it is the lineage that the structure of the parent home passes with, and
 * the admissions along it are accepted.
 */
module Branches {
  import opened Prelude
  import opened Needs
  import opened FrozenCover
  import L = Lineage

  datatype BranchCode =
    | PolicyMismatch | DepthLimit | Divergent | Cycle | Incomplete | FileLimit | FileDivergent | Rejected(code: string)

  /** What the verification of the parental branch said; `agents` founder first. */
  datatype Branch = Branch(status: Verdict, agents: seq<string>, codes: set<BranchCode>)

  /**
   * What the verification asks of outside: the policy pin, one record against its parent, the admission
   * of one node by its parent, and the candidate's own plan against its parent. None is acceptance.
   */
  datatype Checks = Checks(
    policyMatches: bool,
    verify: L.Verifier,
    admits: (Home, L.Record, set<string>) -> Option<BranchCode>,
    accepts: (L.Record, bytes, set<string>) -> Option<BranchCode>)

  /** Stored homes by id. */
  type Store = map<string, Home>

  predicate IsStore(homes: Store) { forall id | id in homes :: homes[id].base.agentId == id }

  function Bases(homes: Store): map<string, L.Home> { map id | id in homes :: homes[id].base }

  function IdsOfNodes(nodes: seq<Home>): seq<string> {
    seq(|nodes|, i requires 0 <= i < |nodes| => nodes[i].base.agentId)
  }

  predicate DistinctNodes(nodes: seq<Home>) {
    forall i, j | 0 <= i < j < |nodes| :: nodes[i].base.agentId != nodes[j].base.agentId
  }

  /** The nodes by id. */
  function Index(nodes: seq<Home>): Store {
    if nodes == [] then map[] else Index(nodes[..|nodes| - 1])[nodes[|nodes| - 1].base.agentId := nodes[|nodes| - 1]]
  }

  lemma {:induction false} IndexHolds(nodes: seq<Home>)
    ensures IsStore(Index(nodes)) && Index(nodes).Keys == L.Members(IdsOfNodes(nodes))
    ensures |Index(nodes)| <= |nodes| && (|Index(nodes)| == |nodes| <==> DistinctNodes(nodes))
  {
    if nodes != [] {
      var n := |nodes| - 1;
      IndexHolds(nodes[..n]);
      OneMoreNode(nodes, n);
      hide DistinctNodes, IdsOfNodes;
      var id := nodes[n].base.agentId;
      assert Index(nodes).Keys == Index(nodes[..n]).Keys + {id};
    }
  }

  lemma OneMoreNode(nodes: seq<Home>, n: nat)
    requires |nodes| == n + 1
    ensures L.Members(IdsOfNodes(nodes)) == L.Members(IdsOfNodes(nodes[..n])) + {nodes[n].base.agentId}
    ensures DistinctNodes(nodes)
            <==> DistinctNodes(nodes[..n]) && nodes[n].base.agentId !in L.Members(IdsOfNodes(nodes[..n]))
  {
    var ids := IdsOfNodes(nodes[..n]);
    assert IdsOfNodes(nodes) == ids + [nodes[n].base.agentId];
    if nodes[n].base.agentId in ids {
      var i :| 0 <= i < n && ids[i] == nodes[n].base.agentId;
      assert nodes[i].base.agentId == nodes[n].base.agentId;
    } else {
      forall i | 0 <= i < n ensures nodes[i].base.agentId != nodes[n].base.agentId {
        assert ids[i] == nodes[i].base.agentId;
      }
    }
    assert forall i | 0 <= i < n :: nodes[..n][i] == nodes[i];
  }

  // ---- up to the founder --------------------------------------------------------------------------

  /** A file that is decoded, or the code of its failure. */
  function FileError<T>(s: L.Stored<T>): Option<BranchCode> {
    match s
    case Present(_) => None
    case Divergent => Some(FileDivergent)
    case _ => Some(FileLimit)
  }

  /** One node of the climb. */
  function Look(node: L.Home, agent: string): (r: Result<L.Record, BranchCode>)
    ensures r.Ok? <==> L.Visit(node, agent).Ok?
    ensures r.Ok? ==> r.value == L.Visit(node, agent).value
  {
    if FileError(node.record).Some? then Err(FileError(node.record).value)
    else if FileError(node.spec).Some? then Err(FileError(node.spec).value)
    else if node.record.value.agentId != agent then Err(Divergent)
    else Ok(node.record.value)
  }

  /** The climb from `agent` on, after the agents in `chain`. */
  function Ascend(nodes: map<string, L.Home>, chain: seq<string>, agent: string): Result<seq<string>, BranchCode>
    requires |chain| <= L.MAX_BRANCH
    decreases L.MAX_BRANCH - |chain|
  {
    if agent in chain then Err(Cycle)
    else if |chain| >= L.MAX_BRANCH then Err(DepthLimit)
    else if agent !in nodes then Err(Incomplete)
    else
      match Look(nodes[agent], agent)
      case Err(code) => Err(code)
      case Ok(record) =>
        if record.role == L.Founder then Ok(chain + [agent])
        else if record.role != L.Descendant || record.parent == None then Err(Divergent)
        else Ascend(nodes, chain + [agent], record.parent.value)
  }

  /** It ends at a founder exactly when the walk of the structures does, with the same chain. */
  lemma {:induction false} AscendIsWalk(nodes: map<string, L.Home>, chain: seq<string>, agent: string)
    requires |chain| <= L.MAX_BRANCH
    ensures Ascend(nodes, chain, agent).Ok? <==> L.Walk(nodes, chain, agent).Climbed?
    ensures Ascend(nodes, chain, agent).Ok? ==> Ascend(nodes, chain, agent).value == L.Walk(nodes, chain, agent).chain
    decreases L.MAX_BRANCH - |chain|
  {
    hide Look, L.Visit;
    if agent !in chain && |chain| < L.MAX_BRANCH && agent in nodes && Look(nodes[agent], agent).Ok? {
      var record := Look(nodes[agent], agent).value;
      if record.role == L.Descendant && record.parent.Some? {
        AscendIsWalk(nodes, chain + [agent], record.parent.value);
      }
    }
  }

  /** The code with which the climb stops when it comes to `agent` after the agents in `chain`. */
  predicate StopsAt(nodes: map<string, L.Home>, chain: seq<string>, agent: string, code: BranchCode) {
    var here := agent !in chain && |chain| < 9 && agent in nodes;
    match code
    case Cycle => agent in chain
    case DepthLimit => agent !in chain && |chain| == 9
    case Incomplete => agent !in chain && |chain| < 9 && agent !in nodes
    case FileLimit =>
      && here
      && (|| nodes[agent].record.Missing? || nodes[agent].record.Oversized?
          || (nodes[agent].record.Present? && (nodes[agent].spec.Missing? || nodes[agent].spec.Oversized?)))
    case FileDivergent =>
      here && (nodes[agent].record.Divergent? || (nodes[agent].record.Present? && nodes[agent].spec.Divergent?))
    case Divergent =>
      && here && nodes[agent].record.Present? && nodes[agent].spec.Present?
      && (var record := nodes[agent].record.value;
          || record.agentId != agent || record.role == L.OtherRole
          || (record.role == L.Descendant && record.parent == None))
    case PolicyMismatch => false
    case Rejected(_) => false
  }

  lemma StopsHere(nodes: map<string, L.Home>, chain: seq<string>, agent: string, code: BranchCode)
    requires |chain| <= 9
    requires agent in chain || |chain| == 9 || !L.Usable(nodes, agent) || L.RecordOf(nodes, agent).role == L.OtherRole
             || (L.RecordOf(nodes, agent).role == L.Descendant && L.RecordOf(nodes, agent).parent == None)
    ensures Ascend(nodes, chain, agent) == Err(code) <==> StopsAt(nodes, chain, agent, code)
  {
  }

  lemma NoStopHere(nodes: map<string, L.Home>, chain: seq<string>, agent: string, code: BranchCode)
    requires agent !in chain && |chain| < 9 && L.Usable(nodes, agent)
    requires L.RecordOf(nodes, agent).role == L.Founder
             || (L.RecordOf(nodes, agent).role == L.Descendant && L.RecordOf(nodes, agent).parent.Some?)
    ensures !StopsAt(nodes, chain, agent, code)
  {
  }

  /** The climb stops with a code exactly at the end of a climb that has to stop so. */
  lemma AscendStops(nodes: map<string, L.Home>, chain: seq<string>, agent: string, code: BranchCode)
    requires |chain| <= 9 && L.IsClimb(nodes, chain)
    requires chain != [] ==> L.DescendsFrom(nodes, chain[|chain| - 1], agent)
    ensures Ascend(nodes, chain, agent) == Err(code)
            <==> exists c, a :: L.Comes(nodes, chain + [agent], c, a) && StopsAt(nodes, c, a, code)
  {
    hide Ascend, L.Comes, StopsAt;
    if Ascend(nodes, chain, agent) == Err(code) { var c, a := StopGivesClimb(nodes, chain, agent, code); }
    if c, a :| L.Comes(nodes, chain + [agent], c, a) && StopsAt(nodes, c, a, code) {
      ClimbGivesStop(nodes, chain, agent, c, a, code);
    }
  }

  lemma {:induction false} StopGivesClimb(nodes: map<string, L.Home>, chain: seq<string>, agent: string,
                                          code: BranchCode)
    returns (c: seq<string>, a: string)
    requires |chain| <= 9 && L.IsClimb(nodes, chain) && Ascend(nodes, chain, agent) == Err(code)
    requires chain != [] ==> L.DescendsFrom(nodes, chain[|chain| - 1], agent)
    ensures L.Comes(nodes, chain + [agent], c, a) && StopsAt(nodes, c, a, code)
    decreases 9 - |chain|
  {
    hide StopsAt, Look, L.Visit;
    if agent in chain || |chain| == 9 || !L.Usable(nodes, agent) || L.RecordOf(nodes, agent).role == L.OtherRole
       || (L.RecordOf(nodes, agent).role == L.Descendant && L.RecordOf(nodes, agent).parent == None) {
      StopsHere(nodes, chain, agent, code);
      c, a := chain, agent;
    } else {
      var more, parent := chain + [agent], L.RecordOf(nodes, agent).parent.value;
      c, a := StopGivesClimb(nodes, more, parent, code);
      assert more <= more + [parent] <= c + [a];
    }
  }

  lemma {:induction false} ClimbGivesStop(nodes: map<string, L.Home>, chain: seq<string>, agent: string,
                                          c: seq<string>, a: string, code: BranchCode)
    requires |chain| <= 9 && L.IsClimb(nodes, chain) && L.Comes(nodes, chain + [agent], c, a)
    requires StopsAt(nodes, c, a, code)
    ensures Ascend(nodes, chain, agent) == Err(code)
    decreases 9 - |chain|
  {
    hide StopsAt, L.Comes;
    if |c| > |chain| {
      L.NextOfClimb(nodes, chain, agent, c, a);
      ClimbGivesStop(nodes, chain + [agent], (c + [a])[|chain| + 1], c, a, code);
    } else {
      L.ClimbIsOver(nodes, chain, agent, c, a);
      StopAtTheEnd(nodes, chain, agent, code);
    }
  }

  lemma StopAtTheEnd(nodes: map<string, L.Home>, chain: seq<string>, agent: string, code: BranchCode)
    requires |chain| <= 9 && StopsAt(nodes, chain, agent, code)
    ensures Ascend(nodes, chain, agent) == Err(code)
  {
    hide Ascend, L.Visit, StopsAt;
    if agent !in chain && |chain| < 9 && L.Usable(nodes, agent)
       && (L.RecordOf(nodes, agent).role == L.Founder
           || (L.RecordOf(nodes, agent).role == L.Descendant && L.RecordOf(nodes, agent).parent.Some?)) {
      NoStopHere(nodes, chain, agent, code);
      assert false;
    }
    StopsHere(nodes, chain, agent, code);
  }

  /** The loop up to the founder. */
  method Climb(nodes: map<string, L.Home>, parent: string) returns (r: Result<seq<string>, BranchCode>)
    ensures r == Ascend(nodes, [], parent)
  {
    hide Look;
    var chain: seq<string>, visited: set<string>, agent := [], {}, parent;
    while true
      invariant |chain| <= L.MAX_BRANCH && visited == L.Members(chain)
      invariant Ascend(nodes, chain, agent) == Ascend(nodes, [], parent)
      decreases L.MAX_BRANCH - |chain|
    {
      if agent in visited { return Err(Cycle); }
      if |chain| >= L.MAX_BRANCH { return Err(DepthLimit); }
      visited := visited + {agent};
      if agent !in nodes { return Err(Incomplete); }
      match Look(nodes[agent], agent) {
        case Err(code) => return Err(code);
        case Ok(record) =>
          chain := chain + [agent];
          if record.role == L.Founder { return Ok(chain); }
          if record.role != L.Descendant || record.parent == None { return Err(Divergent); }
          agent := record.parent.value;
      }
    }
  }

  // ---- down to the parent -------------------------------------------------------------------------

  /** The rejection of a record, as a code of the branch. */
  function OfLineage(code: L.Code): BranchCode { if code.Rejected? then Rejected(code.code) else Divergent }

  /** The verdict on agent `i` of a branch: its record, then its own birth unless it is the founder. */
  function NodeVerdict(checks: Checks, homes: Store, b: seq<string>, child: string, i: nat): Option<BranchCode>
    requires i < |b| && forall k | 0 <= k < |b| :: L.Usable(Bases(homes), b[k])
  {
    var bases := Bases(homes);
    var code := L.Verdict(bases, checks.verify, b, i);
    if code.Some? then Some(OfLineage(code.value))
    else if i == 0 then None
    else if homes[b[i]].admission == None || homes[b[i]].qualification == None then Some(Incomplete)
    else checks.admits(homes[b[i]], L.RecordOf(bases, b[i - 1]), L.Members(b) + {child})
  }

  /**
   * Why node `i` is refused: its record is, or, behind the founder, a part of its birth is not stored
   * or its admission is refused by the parent.
   */
  predicate NodeRefused(checks: Checks, homes: Store, b: seq<string>, child: string, i: nat, code: BranchCode)
    requires i < |b| && forall k | 0 <= k < |b| :: L.Usable(Bases(homes), b[k])
  {
    var bases := Bases(homes);
    match L.Verdict(bases, checks.verify, b, i)
    case Some(Rejected(text)) => code == Rejected(text)
    case Some(_) => code == Divergent
    case None =>
      && i > 0
      && (if homes[b[i]].admission.Some? && homes[b[i]].qualification.Some? then
            checks.admits(homes[b[i]], L.RecordOf(bases, b[i - 1]), L.Members(b) + {child}) == Some(code)
          else code == Incomplete)
  }

  lemma VerdictIsRefusal(checks: Checks, homes: Store, b: seq<string>, child: string, i: nat, code: BranchCode)
    requires i < |b| && forall k | 0 <= k < |b| :: L.Usable(Bases(homes), b[k])
    ensures NodeVerdict(checks, homes, b, child, i) == Some(code) <==> NodeRefused(checks, homes, b, child, i, code)
  {
    hide L.Usable, L.Verdict;
  }

  /** Every node of the branch is accepted. */
  predicate AllAccepted(checks: Checks, homes: Store, b: seq<string>, child: string)
    requires forall k | 0 <= k < |b| :: L.Usable(Bases(homes), b[k])
  {
    forall i | 0 <= i < |b| :: NodeVerdict(checks, homes, b, child, i) == None
  }

  /** The candidate's plan is accepted by its parent, the last of the branch. */
  predicate PlanAccepted(checks: Checks, homes: Store, b: seq<string>, child: string)
    requires b != [] && forall k | 0 <= k < |b| :: L.Usable(Bases(homes), b[k])
  {
    var bases, last := Bases(homes), b[|b| - 1];
    checks.accepts(L.RecordOf(bases, last), L.SpecOf(bases, last), L.Members(b) + {child}) == None
  }

  /** The first node that is not accepted, founder first, draws this code. */
  predicate FirstRefused(checks: Checks, homes: Store, b: seq<string>, child: string, code: BranchCode)
    requires forall k | 0 <= k < |b| :: L.Usable(Bases(homes), b[k])
  {
    exists i :: 0 <= i < |b| && NodeVerdict(checks, homes, b, child, i) == Some(code)
                && forall k | 0 <= k < i :: NodeVerdict(checks, homes, b, child, k) == None
  }

  /** The loop down the chain, founder first. */
  method Descend(checks: Checks, homes: Store, b: seq<string>, child: string) returns (code: Option<BranchCode>)
    requires L.IsBranch(Bases(homes), b)
    ensures code == None <==> AllAccepted(checks, homes, b, child)
    ensures code.Some? ==> FirstRefused(checks, homes, b, child, code.value)
  {
    hide L.Usable;
    for i := 0 to |b|
      invariant forall k | 0 <= k < i :: NodeVerdict(checks, homes, b, child, k) == None
    {
      code := NodeVerdict(checks, homes, b, child, i);
      if code.Some? { return; }
    }
    code := None;
  }

  // ---- the branch ---------------------------------------------------------------------------------

  /** `b` is the accepted branch of `parent` in a store. */
  ghost predicate IsAccepted(checks: Checks, homes: Store, parent: string, child: string, b: seq<string>) {
    && checks.policyMatches
    && L.IsBranch(Bases(homes), b) && b[|b| - 1] == parent
    && child !in b && AllAccepted(checks, homes, b, child) && PlanAccepted(checks, homes, b, child)
  }

  /** The nodes are exactly those of the branch. */
  predicate AreNodes(nodes: seq<Home>, b: seq<string>) {
    |nodes| <= L.MAX_BRANCH && DistinctNodes(nodes) && L.Members(IdsOfNodes(nodes)) == L.Members(b)
  }

  /** What was climbed, read founder first, is a branch that ends at the parent. */
  lemma ClimbedIsBranch(bases: map<string, L.Home>, parent: string)
    requires Ascend(bases, [], parent).Ok?
    ensures var b := L.Reversed(Ascend(bases, [], parent).value);
            L.IsBranch(bases, b) && b[|b| - 1] == parent
  {
    hide L.IsBranch, L.ReachesFounder, L.IsClimb, L.Walk, Ascend;
    AscendIsWalk(bases, [], parent);
    var chain := Ascend(bases, [], parent).value;
    L.WalkFindsClimbs(bases, [], parent, chain);
    L.ClimbIsBranch(bases, chain);
    assert ([] + [parent])[0] == chain[0];
  }

  /** And there is no other such branch. */
  lemma BranchIsClimbed(bases: map<string, L.Home>, parent: string, b: seq<string>)
    requires L.IsBranch(bases, b) && b[|b| - 1] == parent
    ensures Ascend(bases, [], parent) == Ok(L.Reversed(b)) && L.Reversed(L.Reversed(b)) == b
  {
    hide L.ReachesFounder, L.IsClimb, L.Walk, Ascend, L.Usable, L.DescendsFrom;
    var chain := L.Reversed(b);
    L.ReversedTwice(b);
    L.ClimbIsBranch(bases, chain);
    assert chain[0] == parent && [] + [parent] <= chain;
    L.WalkFindsClimbs(bases, [], parent, chain);
    AscendIsWalk(bases, [], parent);
  }

  lemma SameMembers(chain: seq<string>)
    ensures L.Members(L.Reversed(chain)) == L.Members(chain)
  {
    var b := L.Reversed(chain);
    forall a ensures a in b <==> a in chain {
      if a in b { var i :| 0 <= i < |b| && b[i] == a; assert chain[|chain| - 1 - i] == a; }
      if a in chain { var i :| 0 <= i < |chain| && chain[i] == a; assert b[|chain| - 1 - i] == a; }
    }
  }

  /** The conditions in the order in which they are checked. */
  ghost predicate Verifies(checks: Checks, nodes: seq<Home>, parent: string, child: string) {
    var homes := Index(nodes);
    var climbed := Ascend(Bases(homes), [], parent);
    && checks.policyMatches && |nodes| <= L.MAX_BRANCH && |homes| == |nodes|
    && climbed.Ok? && L.Members(climbed.value) == homes.Keys
    && (var b := L.Reversed(climbed.value);
        L.IsBranch(Bases(homes), b) && child !in b && AllAccepted(checks, homes, b, child)
        && PlanAccepted(checks, homes, b, child))
  }

  /** They hold exactly when some branch over these nodes is accepted, and then it is the one that was climbed. */
  lemma VerifiesIsAccepted(checks: Checks, nodes: seq<Home>, parent: string, child: string)
    ensures Verifies(checks, nodes, parent, child) ==>
              var b := L.Reversed(Ascend(Bases(Index(nodes)), [], parent).value);
              AreNodes(nodes, b) && IsAccepted(checks, Index(nodes), parent, child, b)
    ensures !Verifies(checks, nodes, parent, child) ==>
              forall b :: !(AreNodes(nodes, b) && IsAccepted(checks, Index(nodes), parent, child, b))
  {
    hide L.IsBranch, AllAccepted, PlanAccepted, Ascend, Index, DistinctNodes, Bases, IdsOfNodes;
    IndexHolds(nodes);
    var bases := Bases(Index(nodes));
    if Ascend(bases, [], parent).Ok? {
      ClimbedIsBranch(bases, parent);
      SameMembers(Ascend(bases, [], parent).value);
    }
    forall b | AreNodes(nodes, b) && IsAccepted(checks, Index(nodes), parent, child, b)
      ensures Verifies(checks, nodes, parent, child)
    {
      BranchIsClimbed(bases, parent, b);
      SameMembers(b);
    }
  }

  /** Why the branch `b`, which ends at the parent, is refused: the first of the conditions that fails. */
  ghost predicate BranchRefused(checks: Checks, nodes: seq<Home>, b: seq<string>, child: string, code: BranchCode)
    requires L.IsBranch(Bases(Index(nodes)), b)
  {
    var homes := Index(nodes);
    if L.Members(b) != L.Members(IdsOfNodes(nodes)) || child in b then code == Divergent
    else if !AllAccepted(checks, homes, b, child) then FirstRefused(checks, homes, b, child, code)
    else
      var bases, last := Bases(homes), b[|b| - 1];
      checks.accepts(L.RecordOf(bases, last), L.SpecOf(bases, last), L.Members(b) + {child}) == Some(code)
  }

  /** Why the nodes are refused: the limits, the climb from the parent, or the branch it finds. */
  ghost predicate RefusedFor(checks: Checks, nodes: seq<Home>, parent: string, child: string, code: BranchCode) {
    var bases := Bases(Index(nodes));
    if !checks.policyMatches then code == PolicyMismatch
    else if |nodes| > 9 then code == DepthLimit
    else if !DistinctNodes(nodes) then code == Divergent
    else
      || (exists c, a :: L.Comes(bases, [parent], c, a) && StopsAt(bases, c, a, code))
      || (exists b :: L.IsBranch(bases, b) && b[|b| - 1] == parent && BranchRefused(checks, nodes, b, child, code))
  }

  lemma ClimbIsRefused(checks: Checks, nodes: seq<Home>, parent: string, child: string, code: BranchCode)
    requires checks.policyMatches && |nodes| <= 9 && DistinctNodes(nodes)
    requires Ascend(Bases(Index(nodes)), [], parent) == Err(code)
    ensures RefusedFor(checks, nodes, parent, child, code)
  {
    hide Ascend, L.IsBranch, BranchRefused, Index, Bases, DistinctNodes, StopsAt, L.Comes;
    assert [] + [parent] == [parent];
    AscendStops(Bases(Index(nodes)), [], parent, code);
  }

  lemma BranchIsRefused(checks: Checks, nodes: seq<Home>, parent: string, child: string, b: seq<string>,
                        code: BranchCode)
    requires checks.policyMatches && |nodes| <= 9 && DistinctNodes(nodes)
    requires L.IsBranch(Bases(Index(nodes)), b) && b[|b| - 1] == parent && BranchRefused(checks, nodes, b, child, code)
    ensures RefusedFor(checks, nodes, parent, child, code)
  {
    hide L.IsBranch, BranchRefused, Index, Bases, DistinctNodes, StopsAt, L.Comes;
  }

  /** The checks in their order, up from the parent to a founder, every node visited, and down again. */
  method CheckBranch(checks: Checks, nodes: seq<Home>, parent: string, child: string)
    returns (r: Result<seq<string>, BranchCode>)
    ensures r.Ok? <==> Verifies(checks, nodes, parent, child)
    ensures r.Ok? ==> Ascend(Bases(Index(nodes)), [], parent).Ok?
                      && r.value == L.Reversed(Ascend(Bases(Index(nodes)), [], parent).value)
    ensures r.Err? ==> RefusedFor(checks, nodes, parent, child, r.error)
  {
    hide L.IsBranch, AllAccepted, Ascend, Index, Bases, L.Usable, StopsAt, FirstRefused, L.Comes, DistinctNodes;
    IndexHolds(nodes);
    if !checks.policyMatches { return Err(PolicyMismatch); }
    if |nodes| > L.MAX_BRANCH { return Err(DepthLimit); }
    var homes := Index(nodes);
    if |homes| != |nodes| { return Err(Divergent); }
    var climbed := Climb(Bases(homes), parent);
    if climbed.Err? {
      ClimbIsRefused(checks, nodes, parent, child, climbed.error);
      return Err(climbed.error);
    }
    var b := L.Reversed(climbed.value);
    ClimbedIsBranch(Bases(homes), parent);
    SameMembers(climbed.value);
    r := CheckDown(checks, nodes, b, child);
    if r.Err? { BranchIsRefused(checks, nodes, parent, child, b, r.error); }
  }

  /** The branch that was climbed: every node visited, the candidate new, every node and the plan accepted. */
  method CheckDown(checks: Checks, nodes: seq<Home>, b: seq<string>, child: string)
    returns (r: Result<seq<string>, BranchCode>)
    requires L.IsBranch(Bases(Index(nodes)), b)
    ensures r.Ok? <==> L.Members(b) == Index(nodes).Keys && child !in b && AllAccepted(checks, Index(nodes), b, child)
                       && PlanAccepted(checks, Index(nodes), b, child)
    ensures r.Ok? ==> r.value == b
    ensures r.Err? ==> BranchRefused(checks, nodes, b, child, r.error)
  {
    hide L.IsBranch, AllAccepted, Index, Bases, L.Usable, FirstRefused, IdsOfNodes;
    IndexHolds(nodes);
    var homes := Index(nodes);
    BranchIsUsable(Bases(homes), b);
    if L.Members(b) != homes.Keys { return Err(Divergent); }
    if child in b { return Err(Divergent); }
    var code := Descend(checks, homes, b, child);
    if code.Some? { return Err(code.value); }
    var last := b[|b| - 1];
    code := checks.accepts(L.RecordOf(Bases(homes), last), L.SpecOf(Bases(homes), last), L.Members(b) + {child});
    if code.Some? { return Err(code.value); }
    return Ok(b);
  }

  lemma BranchIsUsable(bases: map<string, L.Home>, b: seq<string>)
    requires L.IsBranch(bases, b)
    ensures b != [] && forall k | 0 <= k < |b| :: L.Usable(bases, b[k])
  {
  }

  /** `branch`: it passes exactly if some branch over the nodes is accepted, and names that branch. */
  method VerifyBranch(checks: Checks, nodes: seq<Home>, parent: string, child: string) returns (r: Branch)
    ensures r.status == Pass ==> r.codes == {} && AreNodes(nodes, r.agents)
                                 && IsAccepted(checks, Index(nodes), parent, child, r.agents)
    ensures r.status != Pass ==>
              forall b :: !(AreNodes(nodes, b) && IsAccepted(checks, Index(nodes), parent, child, b))
    ensures r.status != Pass ==> r.agents == [] && exists code ::
              RefusedFor(checks, nodes, parent, child, code) && r.codes == {code}
              && (r.status == NotEvaluated <==> code == Incomplete)
  {
    hide AreNodes, IsAccepted, Verifies, Ascend, Index, RefusedFor;
    var checked := CheckBranch(checks, nodes, parent, child);
    VerifiesIsAccepted(checks, nodes, parent, child);
    match checked {
      case Err(code) => return Branch(if code == Incomplete then NotEvaluated else Fail, [], {code});
      case Ok(b) => return Branch(Pass, b, {});
    }
  }

  // ---- the nodes that are read --------------------------------------------------------------------

  /** A file beyond its size blocks the whole scan. */
  datatype Capacity = FileBytes | BranchNodes

  /** The three records of a birth keep to their byte limits. */
  predicate BirthFits(h: Home) { forall q | q in BirthRequirements(h) :: !TooBig(q) }

  /** The nodes from `agent` on, after those read so far. */
  function Gather(homes: Store, nodes: seq<Home>, agent: Option<string>): Result<seq<Home>, Capacity>
    requires |nodes| <= L.MAX_BRANCH
    decreases L.MAX_BRANCH - |nodes|
  {
    if agent.Some? && agent.value in IdsOfNodes(nodes) then Ok(nodes)
    else if |nodes| >= L.MAX_BRANCH then Err(BranchNodes)
    else if agent == None || agent.value !in homes then Ok(nodes)
    else
      var h := homes[agent.value];
      if h.base.record.Oversized? || h.base.spec.Oversized? then Err(FileBytes)
      else if h.base.record.Missing? || h.base.spec.Missing? then Ok(nodes)
      else if h.base.record.Divergent? || h.base.record.value.role != L.Descendant then Ok(nodes + [h])
      else if !BirthFits(h) then Err(FileBytes)
      else Gather(homes, nodes + [h], h.base.record.value.parent)
  }

  /** The loop that reads the nodes of an operation's branch. */
  method ReadNodes(homes: Store, parent: string) returns (r: Result<seq<Home>, Capacity>)
    requires IsStore(homes)
    ensures r == Gather(homes, [], Some(parent))
  {
    var agent, seen, nodes: seq<Home> := Some(parent), {}, [];
    var reading := true;
    while reading && agent.Some? && agent.value !in seen && |nodes| < L.MAX_BRANCH
      invariant |nodes| <= L.MAX_BRANCH
      invariant reading ==> seen == L.Members(IdsOfNodes(nodes))
      invariant reading ==> Gather(homes, nodes, agent) == Gather(homes, [], Some(parent))
      invariant !reading ==> agent.Some? && agent.value in seen && Ok(nodes) == Gather(homes, [], Some(parent))
      decreases reading, L.MAX_BRANCH - |nodes|
    {
      seen := seen + {agent.value};
      if agent.value !in homes { reading := false; continue; }
      var h := homes[agent.value];
      if h.base.record.Oversized? || h.base.spec.Oversized? { return Err(FileBytes); }
      if h.base.record.Missing? || h.base.spec.Missing? { reading := false; continue; }
      NodeAdds(nodes, h);
      if h.base.record.Present? && h.base.record.value.role == L.Descendant && !BirthFits(h) { return Err(FileBytes); }
      nodes := nodes + [h];
      if h.base.record.Divergent? || h.base.record.value.role != L.Descendant { reading := false; continue; }
      agent := h.base.record.value.parent;
    }
    if |nodes| == L.MAX_BRANCH && !(agent.Some? && agent.value in seen) { return Err(BranchNodes); }
    return Ok(nodes);
  }

  lemma NodeAdds(nodes: seq<Home>, h: Home)
    ensures IdsOfNodes(nodes + [h]) == IdsOfNodes(nodes) + [h.base.agentId]
    ensures L.Members(IdsOfNodes(nodes + [h])) == L.Members(IdsOfNodes(nodes)) + {h.base.agentId}
  {
    assert IdsOfNodes(nodes + [h]) == IdsOfNodes(nodes) + [h.base.agentId];
  }

  /** Every birth along the chain, child first, keeps to its limits; the founder has none. */
  predicate BirthsFit(homes: Store, chain: seq<string>, from: nat) {
    forall i | from <= i < |chain| - 1 :: chain[i] in homes ==> BirthFits(homes[chain[i]])
  }

  /** Where the walk of the structures reaches a founder, the nodes read are those of its chain, if they fit. */
  lemma {:induction false} GatherFollowsWalk(homes: Store, nodes: seq<Home>, agent: string)
    requires IsStore(homes) && |nodes| <= L.MAX_BRANCH
    requires L.Walk(Bases(homes), IdsOfNodes(nodes), agent).Climbed?
    ensures var r, chain := Gather(homes, nodes, Some(agent)), L.Walk(Bases(homes), IdsOfNodes(nodes), agent).chain;
            if BirthsFit(homes, chain, |nodes|) then r.Ok? && IdsOfNodes(r.value) == chain else r == Err(FileBytes)
    ensures IdsOfNodes(nodes) + [agent] <= L.Walk(Bases(homes), IdsOfNodes(nodes), agent).chain
    decreases L.MAX_BRANCH - |nodes|
  {
    hide BirthFits;
    var h, ids := homes[agent], IdsOfNodes(nodes);
    NodeAdds(nodes, h);
    if h.base.record.value.role == L.Descendant {
      var parent := h.base.record.value.parent.value;
      GatherFollowsWalk(homes, nodes + [h], parent);
      var chain := L.Walk(Bases(homes), ids, agent).chain;
      assert chain == L.Walk(Bases(homes), ids + [agent], parent).chain;
      assert chain[|nodes|] == agent && |chain| > |nodes| + 1;
      assert BirthsFit(homes, chain, |nodes|) <==> BirthFits(h) && BirthsFit(homes, chain, |nodes| + 1);
    }
    hide L.Walk;
  }

  /** Nodes as the store holds them. */
  predicate FromStore(homes: Store, nodes: seq<Home>) {
    forall h | h in nodes :: h.base.agentId in homes && homes[h.base.agentId] == h
  }

  lemma {:induction false} GatherIsFromStore(homes: Store, nodes: seq<Home>, agent: Option<string>)
    requires IsStore(homes) && |nodes| <= L.MAX_BRANCH && FromStore(homes, nodes) && Gather(homes, nodes, agent).Ok?
    ensures FromStore(homes, Gather(homes, nodes, agent).value)
    decreases L.MAX_BRANCH - |nodes|
  {
    if agent.Some? && agent.value in homes && |nodes| < L.MAX_BRANCH {
      var h := homes[agent.value];
      assert FromStore(homes, nodes + [h]);
      if h.base.record.Present? && h.base.record.value.role == L.Descendant && agent.value !in IdsOfNodes(nodes)
         && h.base.spec != L.Oversized && h.base.spec != L.Missing && BirthFits(h) {
        GatherIsFromStore(homes, nodes + [h], h.base.record.value.parent);
      }
    }
  }

  lemma {:induction false} IndexIsFromStore(homes: Store, nodes: seq<Home>)
    requires FromStore(homes, nodes)
    ensures Within(Index(nodes), homes)
  {
    if nodes != [] {
      assert nodes[|nodes| - 1] in nodes;
      IndexIsFromStore(homes, nodes[..|nodes| - 1]);
    }
  }

  /** Every home of `part` is the same in the whole store. */
  predicate Within(part: Store, homes: Store) { forall id | id in part :: id in homes && homes[id] == part[id] }

  /** A branch over some of the homes is one over all of them, with the same verdicts. */
  lemma SameBranch(checks: Checks, part: Store, homes: Store, b: seq<string>, child: string)
    requires Within(part, homes) && forall a | a in b :: a in part
    ensures L.IsBranch(Bases(part), b) <==> L.IsBranch(Bases(homes), b)
    ensures L.IsBranch(Bases(part), b) ==>
              && (AllAccepted(checks, part, b, child) <==> AllAccepted(checks, homes, b, child))
              && (PlanAccepted(checks, part, b, child) <==> PlanAccepted(checks, homes, b, child))
  {
    assert forall a | a in b :: Bases(part)[a] == Bases(homes)[a];
    assert forall i | 0 <= i < |b| :: b[i] in b;
    if L.IsBranch(Bases(part), b) {
      forall i | 0 <= i < |b|
        ensures NodeVerdict(checks, part, b, child, i) == NodeVerdict(checks, homes, b, child, i)
      {
        if i > 0 { assert b[i - 1] in b; }
      }
    }
  }

  /** Over the nodes that were read, a branch is accepted exactly if it is over the whole store. */
  lemma NodesSuffice(checks: Checks, homes: Store, nodes: seq<Home>, parent: string, child: string, b: seq<string>)
    requires IsStore(homes) && Gather(homes, [], Some(parent)) == Ok(nodes)
    ensures AreNodes(nodes, b) && IsAccepted(checks, Index(nodes), parent, child, b)
            <==> IsAccepted(checks, homes, parent, child, b)
  {
    hide AllAccepted, PlanAccepted, Gather, L.IsBranch, Index, Bases;
    GatherIsFromStore(homes, [], Some(parent));
    IndexIsFromStore(homes, nodes);
    IndexHolds(nodes);
    if AreNodes(nodes, b) && IsAccepted(checks, Index(nodes), parent, child, b) {
      forall a | a in b ensures a in Index(nodes) { assert a in L.Members(b); }
      SameBranch(checks, Index(nodes), homes, b, child);
    }
    if IsAccepted(checks, homes, parent, child, b) {
      BranchNodesAre(homes, nodes, parent, b);
      forall a | a in b ensures a in Index(nodes) { assert a in L.Members(b); }
      SameBranch(checks, Index(nodes), homes, b, child);
    }
  }

  /** The nodes of a branch are all read. */
  lemma BranchNodesAre(homes: Store, nodes: seq<Home>, parent: string, b: seq<string>)
    requires IsStore(homes) && Gather(homes, [], Some(parent)) == Ok(nodes)
    requires L.IsBranch(Bases(homes), b) && b[|b| - 1] == parent
    ensures AreNodes(nodes, b)
  {
    BranchIsRead(homes, parent, b);
    hide Gather, Bases;
    SameMembers(b);
    forall i, j | 0 <= i < j < |nodes| ensures nodes[i].base.agentId != nodes[j].base.agentId {
      assert IdsOfNodes(nodes)[i] == nodes[i].base.agentId && IdsOfNodes(nodes)[j] == nodes[j].base.agentId;
    }
  }

  /** Every birth along a branch, founder first, keeps to its limits. */
  predicate BranchFits(homes: Store, b: seq<string>) {
    forall i | 0 < i < |b| :: b[i] in homes ==> BirthFits(homes[b[i]])
  }

  lemma ReversedFits(homes: Store, b: seq<string>)
    ensures BirthsFit(homes, L.Reversed(b), 0) <==> BranchFits(homes, b)
  {
    var chain, n := L.Reversed(b), |b|;
    assert forall i | 0 <= i < n :: b[i] == chain[n - 1 - i];
  }

  /** And reading them exceeds a limit exactly if one of their births does. */
  lemma BranchIsRead(homes: Store, parent: string, b: seq<string>)
    requires IsStore(homes) && L.IsBranch(Bases(homes), b) && b[|b| - 1] == parent
    ensures var r := Gather(homes, [], Some(parent));
            if BranchFits(homes, b) then r.Ok? && IdsOfNodes(r.value) == L.Reversed(b) else r == Err(FileBytes)
  {
    hide Gather, L.IsBranch, L.Walk, Ascend, BirthsFit, BranchFits;
    ReversedFits(homes, b);
    BranchIsClimbed(Bases(homes), parent, b);
    AscendIsWalk(Bases(homes), [], parent);
    assert IdsOfNodes([]) == [];
    GatherFollowsWalk(homes, [], parent);
  }

  /** The birth of agent `i` is stored and admitted by its parent. */
  predicate BirthAccepted(checks: Checks, homes: Store, b: seq<string>, child: string, i: nat)
    requires 0 < i < |b| && forall k | 0 <= k < |b| :: L.Usable(Bases(homes), b[k])
  {
    && L.Usable(Bases(homes), b[i])
    && homes[b[i]].admission.Some? && homes[b[i]].qualification.Some?
    && checks.admits(homes[b[i]], L.RecordOf(Bases(homes), b[i - 1]), L.Members(b) + {child}) == None
  }

  /**
   * The accepted branch of a parent is the one its structure passes with, when the candidate is not on
   * it, every birth along it is admitted, and the candidate's plan is accepted.
   */
  lemma AcceptedIsStructure(checks: Checks, homes: Store, parent: string, child: string, b: seq<string>)
    ensures IsAccepted(checks, homes, parent, child, b)
            <==> (&& checks.policyMatches
                  && L.StructureOf(Bases(homes), checks.verify, parent) == Ok(L.Pass(parent, b))
                  && child !in b
                  && (L.IsBranch(Bases(homes), b) ==>
                        && (forall i | 0 < i < |b| :: BirthAccepted(checks, homes, b, child, i))
                        && PlanAccepted(checks, homes, b, child)))
  {
    hide L.StructureOf, PlanAccepted, L.IsBranch, L.Verdict, Bases, L.Usable;
    L.PassIsLineage(Bases(homes), checks.verify, parent, b);
    if L.IsBranch(Bases(homes), b) {
      BranchIsUsable(Bases(homes), b);
      forall i | 0 <= i < |b|
        ensures NodeVerdict(checks, homes, b, child, i) == None
                <==> L.Verdict(Bases(homes), checks.verify, b, i) == None
                     && (i > 0 ==> BirthAccepted(checks, homes, b, child, i))
      {
      }
    }
  }

  /**
   * The branch of an operation, from the stored homes: it passes exactly if the structure of the parent
   * passes with an accepted branch whose births keep to their byte limits, and then names it.
   */
  method ParentBranch(checks: Checks, homes: Store, parent: string, child: string)
    returns (r: Result<Branch, Capacity>, nodes: seq<Home>)
    requires IsStore(homes)
    ensures r.Err? ==> forall b | IsAccepted(checks, homes, parent, child, b) :: !BranchFits(homes, b)
    ensures r.Ok? ==> forall b | IsAccepted(checks, homes, parent, child, b) :: BranchFits(homes, b)
    ensures r.Ok? && r.value.status == Pass ==>
              && r.value.codes == {} && IsAccepted(checks, homes, parent, child, r.value.agents)
              && AreNodes(nodes, r.value.agents) && FromStore(homes, nodes)
    ensures r.Ok? && r.value.status != Pass ==> forall b :: !IsAccepted(checks, homes, parent, child, b)
  {
    hide Gather, IsAccepted, AreNodes, FromStore, Index, BranchFits;
    var read := ReadNodes(homes, parent);
    forall b | IsAccepted(checks, homes, parent, child, b)
      ensures read.Ok? <==> BranchFits(homes, b)
    {
      AcceptedIsBranch(checks, homes, parent, child, b);
      BranchIsRead(homes, parent, b);
    }
    if read.Err? { return Err(read.error), []; }
    nodes := read.value;
    NothingFromStore(homes);
    GatherIsFromStore(homes, [], Some(parent));
    var branch := VerifyBranch(checks, nodes, parent, child);
    forall b
      ensures AreNodes(nodes, b) && IsAccepted(checks, Index(nodes), parent, child, b)
              <==> IsAccepted(checks, homes, parent, child, b)
    {
      NodesSuffice(checks, homes, nodes, parent, child, b);
    }
    r := Ok(branch);
  }

  lemma AcceptedIsBranch(checks: Checks, homes: Store, parent: string, child: string, b: seq<string>)
    requires IsAccepted(checks, homes, parent, child, b)
    ensures L.IsBranch(Bases(homes), b) && b[|b| - 1] == parent
  {
  }

  /** No parent has two accepted branches. */
  lemma AcceptedOnce(checks: Checks, homes: Store, parent: string, child: string, a: seq<string>, b: seq<string>)
    requires IsAccepted(checks, homes, parent, child, a) && IsAccepted(checks, homes, parent, child, b)
    ensures a == b
  {
    AcceptedIsBranch(checks, homes, parent, child, a);
    AcceptedIsBranch(checks, homes, parent, child, b);
    hide IsAccepted, L.IsBranch, Ascend;
    BranchIsClimbed(Bases(homes), parent, a);
    BranchIsClimbed(Bases(homes), parent, b);
  }

  lemma NothingFromStore(homes: Store)
    ensures FromStore(homes, [])
  {
  }
}
