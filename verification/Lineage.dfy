/**
 * `structures`: the walk from every home up to its founder and the verification back down. The check
 * of one record against its parent is a parameter; the stored files are inputs.
 */
module Lineage {
  import opened Prelude
  import opened Sorting

  const MAX_HOMES := 65
  const MAX_BRANCH := 9

  datatype Role = Founder | Descendant | OtherRole

  /** `parent` is the parent named by the lineage, None when it is no agent id. */
  datatype Record = Record(agentId: string, role: Role, parent: Option<string>, body: bytes)

  /** A stored file: absent, longer than the limit, not canonical, or a record. */
  datatype Stored<+T> = Missing | Oversized | Divergent | Present(value: T)

  datatype Home = Home(agentId: string, record: Stored<Record>, spec: Stored<bytes>)

  datatype Code =
    | LineageInvalid
    | StoredFileMissing
    | StoredFileDivergent
    | RecordSpecMismatch
    | Rejected(code: string)

  datatype Structure = Pass(agentId: string, branch: seq<string>) | Fail(agentId: string, code: Code)

  datatype Abort = SourceLimit | NamespaceInvalid

  /** Record and spec of an agent, and of its parent unless it is a founder; None is acceptance. */
  type Verifier = (Record, bytes, Option<Record>, Option<bytes>) -> Option<Code>

  datatype Outcome = Climbed(chain: seq<string>) | Stopped(code: Code) | Limit

  /** A stored file that can be decoded, or the reason to stop. */
  function Decoded<T>(s: Stored<T>): Option<Outcome> {
    match s
    case Missing => Some(Stopped(StoredFileMissing))
    case Oversized => Some(Limit)
    case Divergent => Some(Stopped(StoredFileDivergent))
    case Present(_) => None
  }

  /** One node: where the walk goes next, or how it ends. */
  function Visit(home: Home, agent: string): (r: Result<Record, Outcome>)
    ensures r.Ok? ==> home.record == Present(r.value) && home.spec.Present?
    ensures r.Err? ==> !r.error.Climbed?
  {
    if home.record.Missing? || home.spec.Missing? then Err(Stopped(StoredFileMissing))
    else if Decoded(home.record).Some? then Err(Decoded(home.record).value)
    else if Decoded(home.spec).Some? then Err(Decoded(home.spec).value)
    else if home.record.value.agentId != agent then Err(Stopped(RecordSpecMismatch))
    else Ok(home.record.value)
  }

  /** The walk from `agent` on, after the agents in `chain`. */
  function Walk(homes: map<string, Home>, chain: seq<string>, agent: string): Outcome
    requires |chain| <= MAX_BRANCH
    decreases MAX_BRANCH - |chain|
  {
    if agent in chain then Stopped(LineageInvalid)
    else if |chain| >= MAX_BRANCH then Limit
    else if agent !in homes then Stopped(LineageInvalid)
    else
      match Visit(homes[agent], agent)
      case Err(outcome) => outcome
      case Ok(record) =>
        if record.role == Founder then Climbed(chain + [agent])
        else if record.role != Descendant || record.parent == None then Stopped(LineageInvalid)
        else Walk(homes, chain + [agent], record.parent.value)
  }

  // ---- lineages, independently of the walk ---------------------------------------------------

  /** A home whose stored record is a usable record of its own agent. */
  predicate Usable(homes: map<string, Home>, agent: string) {
    agent in homes && Visit(homes[agent], agent).Ok?
  }

  function RecordOf(homes: map<string, Home>, agent: string): Record
    requires Usable(homes, agent)
  {
    homes[agent].record.value
  }

  function SpecOf(homes: map<string, Home>, agent: string): bytes
    requires Usable(homes, agent)
  {
    homes[agent].spec.value
  }

  /** `agent` is a usable descendant of `parent`. */
  predicate DescendsFrom(homes: map<string, Home>, agent: string, parent: string) {
    Usable(homes, agent) && RecordOf(homes, agent).role == Descendant && RecordOf(homes, agent).parent == Some(parent)
  }

  /** Child first: every agent descends from the next, and none comes twice. */
  predicate IsClimb(homes: map<string, Home>, chain: seq<string>) {
    && (forall i, j | 0 <= i < j < |chain| :: chain[i] != chain[j])
    && (forall i | 0 <= i < |chain| - 1 :: DescendsFrom(homes, chain[i], chain[i + 1]))
  }

  /** A climb that ends at a founder. */
  predicate ReachesFounder(homes: map<string, Home>, chain: seq<string>) {
    && 1 <= |chain| <= MAX_BRANCH
    && IsClimb(homes, chain)
    && Usable(homes, chain[|chain| - 1])
    && RecordOf(homes, chain[|chain| - 1]).role == Founder
  }

  /** The walk finds exactly the climbs to a founder. */
  lemma {:induction false} WalkFindsClimbs(homes: map<string, Home>, chain: seq<string>, agent: string,
                                           found: seq<string>)
    requires |chain| <= MAX_BRANCH && IsClimb(homes, chain)
    requires chain != [] ==> DescendsFrom(homes, chain[|chain| - 1], agent)
    ensures Walk(homes, chain, agent) == Climbed(found)
            <==> chain + [agent] <= found && ReachesFounder(homes, found)
    decreases MAX_BRANCH - |chain|
  {
    var more := chain + [agent];
    if more <= found && ReachesFounder(homes, found) {
      assert found[|chain|] == agent;
      assert forall i | 0 <= i < |chain| :: found[i] == chain[i];
      if |more| < |found| { assert DescendsFrom(homes, found[|chain|], found[|chain| + 1]); }
    }
    if agent !in chain && |chain| < MAX_BRANCH && Usable(homes, agent) {
      var record := RecordOf(homes, agent);
      assert IsClimb(homes, more);
      if record.role == Founder {
        if more <= found && ReachesFounder(homes, found) && |found| > |more| { assert false; }
      } else if record.role == Descendant && record.parent.Some? {
        WalkFindsClimbs(homes, more, record.parent.value, found);
        if more <= found && ReachesFounder(homes, found) {
          assert |found| > |more|;
          assert found[..|more| + 1] == more + [record.parent.value];
        }
      }
    }
  }

  /**
   * How the walk ends when it comes to `agent` after the agents in `chain`: by a repeated agent, by a
   * tenth one, or by what the files of the agent's home are.
   */
  predicate EndsAt(homes: map<string, Home>, chain: seq<string>, agent: string, o: Outcome) {
    var here := agent !in chain && |chain| < 9 && agent in homes;
    match o
    case Climbed(_) => false
    case Limit =>
      || (agent !in chain && |chain| == 9)
      || (here && ((homes[agent].record.Oversized? && !homes[agent].spec.Missing?)
                   || (homes[agent].record.Present? && homes[agent].spec.Oversized?)))
    case Stopped(code) =>
      match code
      case LineageInvalid =>
        || agent in chain
        || (|chain| < 9 && agent !in homes)
        || (here && IsOwn(homes[agent], agent)
            && (var record := homes[agent].record.value;
                record.role == OtherRole || (record.role == Descendant && record.parent == None)))
      case StoredFileMissing => here && (homes[agent].record.Missing? || homes[agent].spec.Missing?)
      case StoredFileDivergent =>
        && here && !homes[agent].spec.Missing?
        && (homes[agent].record.Divergent? || (homes[agent].record.Present? && homes[agent].spec.Divergent?))
      case RecordSpecMismatch =>
        here && homes[agent].record.Present? && homes[agent].spec.Present? && !IsOwn(homes[agent], agent)
      case Rejected(_) => false
  }

  /** Both files are there and readable, and the record is the agent's. */
  predicate IsOwn(home: Home, agent: string) {
    home.record.Present? && home.spec.Present? && home.record.value.agentId == agent
  }

  lemma UsableMeans(homes: map<string, Home>, agent: string)
    ensures Usable(homes, agent) <==> agent in homes && IsOwn(homes[agent], agent)
  {
  }

  /** Where the walk has to end it ends so, elsewhere no end is due. */
  lemma WalkEndsHere(homes: map<string, Home>, chain: seq<string>, agent: string, o: Outcome)
    requires |chain| <= 9 && !o.Climbed?
    requires agent in chain || |chain| == 9 || !Usable(homes, agent) || RecordOf(homes, agent).role == OtherRole
             || (RecordOf(homes, agent).role == Descendant && RecordOf(homes, agent).parent == None)
    ensures Walk(homes, chain, agent) == o <==> EndsAt(homes, chain, agent, o)
  {
  }

  lemma NoEndHere(homes: map<string, Home>, chain: seq<string>, agent: string, o: Outcome)
    requires agent !in chain && |chain| < 9 && Usable(homes, agent)
    requires RecordOf(homes, agent).role == Founder
             || (RecordOf(homes, agent).role == Descendant && RecordOf(homes, agent).parent.Some?)
    ensures !EndsAt(homes, chain, agent, o)
  {
  }

  /** A climb that starts with `start` and comes to `a`. */
  predicate Comes(homes: map<string, Home>, start: seq<string>, c: seq<string>, a: string) {
    |c| <= 9 && start <= c + [a] && IsClimb(homes, c) && (c != [] ==> DescendsFrom(homes, c[|c| - 1], a))
  }

  /** A climb that comes to `a`, where the walk ends as `o`. */
  predicate EndsAs(homes: map<string, Home>, start: seq<string>, c: seq<string>, a: string, o: Outcome) {
    Comes(homes, start, c, a) && EndsAt(homes, c, a, o)
  }

  /** The walk stops, or aborts, exactly at the end of a climb that has to end so. */
  lemma WalkEnds(homes: map<string, Home>, chain: seq<string>, agent: string, o: Outcome)
    requires |chain| <= MAX_BRANCH && IsClimb(homes, chain) && !o.Climbed?
    requires chain != [] ==> DescendsFrom(homes, chain[|chain| - 1], agent)
    ensures Walk(homes, chain, agent) == o <==> exists c, a :: EndsAs(homes, chain + [agent], c, a, o)
  {
    hide Walk, EndsAs;
    if Walk(homes, chain, agent) == o { var c, a := EndGivesClimb(homes, chain, agent, o); }
    if c, a :| EndsAs(homes, chain + [agent], c, a, o) { ClimbGivesEnd(homes, chain, agent, c, a, o); }
  }

  lemma {:induction false} EndGivesClimb(homes: map<string, Home>, chain: seq<string>, agent: string, o: Outcome)
    returns (c: seq<string>, a: string)
    requires |chain| <= MAX_BRANCH && IsClimb(homes, chain) && Walk(homes, chain, agent) == o && !o.Climbed?
    requires chain != [] ==> DescendsFrom(homes, chain[|chain| - 1], agent)
    ensures EndsAs(homes, chain + [agent], c, a, o)
    decreases MAX_BRANCH - |chain|
  {
    hide Visit, EndsAt;
    if agent in chain || |chain| == MAX_BRANCH || !Usable(homes, agent) || RecordOf(homes, agent).role == OtherRole
       || (RecordOf(homes, agent).role == Descendant && RecordOf(homes, agent).parent == None) {
      WalkEndsHere(homes, chain, agent, o);
      c, a := chain, agent;
    } else {
      var more, parent := chain + [agent], RecordOf(homes, agent).parent.value;
      c, a := EndGivesClimb(homes, more, parent, o);
      assert more <= more + [parent] <= c + [a];
    }
  }

  lemma {:induction false} ClimbGivesEnd(homes: map<string, Home>, chain: seq<string>, agent: string,
                                         c: seq<string>, a: string, o: Outcome)
    requires |chain| <= MAX_BRANCH && IsClimb(homes, chain) && EndsAs(homes, chain + [agent], c, a, o)
    ensures Walk(homes, chain, agent) == o
    decreases MAX_BRANCH - |chain|
  {
    hide EndsAt, Comes;
    if |c| > |chain| {
      NextOfClimb(homes, chain, agent, c, a);
      ClimbGivesEnd(homes, chain + [agent], (c + [a])[|chain| + 1], c, a, o);
    } else {
      ClimbIsOver(homes, chain, agent, c, a);
      AtTheEnd(homes, chain, agent, o);
    }
  }

  lemma ClimbIsOver(homes: map<string, Home>, chain: seq<string>, agent: string, c: seq<string>, a: string)
    requires Comes(homes, chain + [agent], c, a) && |c| <= |chain|
    ensures c == chain && a == agent
  {
    assert (c + [a])[|chain|] == agent;
    assert forall i | 0 <= i < |chain| :: (c + [a])[i] == chain[i];
  }

  lemma AtTheEnd(homes: map<string, Home>, chain: seq<string>, agent: string, o: Outcome)
    requires |chain| <= MAX_BRANCH && EndsAt(homes, chain, agent, o)
    ensures Walk(homes, chain, agent) == o
  {
    hide Walk, Visit;
    if agent !in chain && |chain| < 9 && Usable(homes, agent)
       && (RecordOf(homes, agent).role == Founder
           || (RecordOf(homes, agent).role == Descendant && RecordOf(homes, agent).parent.Some?)) {
      NoEndHere(homes, chain, agent, o);
      assert false;
    }
    NotClimbed(homes, chain, agent, o);
    WalkEndsHere(homes, chain, agent, o);
  }

  lemma NotClimbed(homes: map<string, Home>, chain: seq<string>, agent: string, o: Outcome)
    requires EndsAt(homes, chain, agent, o)
    ensures !o.Climbed?
  {
  }

  lemma NextOfClimb(homes: map<string, Home>, chain: seq<string>, agent: string, c: seq<string>, a: string)
    requires Comes(homes, chain + [agent], c, a) && |c| > |chain|
    ensures var more, next := chain + [agent], (c + [a])[|chain| + 1];
            && DescendsFrom(homes, agent, next) && IsClimb(homes, more) && Comes(homes, more + [next], c, a)
            && agent !in chain && |more| <= MAX_BRANCH
  {
    hide Usable;
    assert (c + [a])[|chain|] == agent;
    assert c[..|chain| + 1] == chain + [agent];
    assert forall i | 0 <= i <= |chain| :: (chain + [agent])[i] == c[i];
    forall i | 0 <= i < |chain| ensures chain[i] != agent {
      assert (chain + [agent])[i] == c[i] && c[|chain|] == agent;
    }
  }

  // ---- verification, founder first -------------------------------------------------------------

  /** Founder first: each agent but the first descends from the one before. */
  predicate IsBranch(homes: map<string, Home>, b: seq<string>) {
    && 1 <= |b| <= MAX_BRANCH
    && (forall i, j | 0 <= i < j < |b| :: b[i] != b[j])
    && (forall i | 0 <= i < |b| :: Usable(homes, b[i]))
    && RecordOf(homes, b[0]).role == Founder
    && (forall i | 0 < i < |b| :: DescendsFrom(homes, b[i], b[i - 1]))
  }

  /** The verdict on agent `i` of a branch. */
  function Verdict(homes: map<string, Home>, verify: Verifier, b: seq<string>, i: nat): Option<Code>
    requires i < |b| && forall k | 0 <= k < |b| :: Usable(homes, b[k])
  {
    verify(RecordOf(homes, b[i]), SpecOf(homes, b[i]),
           if i == 0 then None else Some(RecordOf(homes, b[i - 1])),
           if i == 0 then None else Some(SpecOf(homes, b[i - 1])))
  }

  /** The first rejection from agent `i` on. */
  function FirstRejection(homes: map<string, Home>, verify: Verifier, b: seq<string>, i: nat): (r: Option<Code>)
    requires i <= |b| && forall k | 0 <= k < |b| :: Usable(homes, b[k])
    ensures r == None <==> forall k | i <= k < |b| :: Verdict(homes, verify, b, k) == None
    decreases |b| - i
  {
    if i == |b| then None
    else if Verdict(homes, verify, b, i).Some? then Verdict(homes, verify, b, i)
    else FirstRejection(homes, verify, b, i + 1)
  }

  function Reversed(chain: seq<string>): (b: seq<string>)
    ensures |b| == |chain| && forall i | 0 <= i < |b| :: b[i] == chain[|chain| - 1 - i]
  {
    if chain == [] then [] else Reversed(chain[1..]) + [chain[0]]
  }

  /** A climb to a founder is a branch read backwards. */
  lemma ClimbIsBranch(homes: map<string, Home>, chain: seq<string>)
    ensures ReachesFounder(homes, chain) <==> IsBranch(homes, Reversed(chain))
  {
    if ReachesFounder(homes, chain) { ClimbGivesBranch(homes, chain); }
    if IsBranch(homes, Reversed(chain)) { BranchGivesClimb(homes, chain); }
  }

  lemma ClimbGivesBranch(homes: map<string, Home>, chain: seq<string>)
    requires ReachesFounder(homes, chain)
    ensures IsBranch(homes, Reversed(chain))
  {
    var b, n := Reversed(chain), |chain|;
    forall i | 0 <= i < n ensures Usable(homes, b[i]) {
      if i > 0 { assert DescendsFrom(homes, chain[n - 1 - i], chain[n - i]); }
    }
    forall i | 0 < i < n ensures DescendsFrom(homes, b[i], b[i - 1]) {
      assert DescendsFrom(homes, chain[n - 1 - i], chain[n - i]);
    }
  }

  lemma BranchGivesClimb(homes: map<string, Home>, chain: seq<string>)
    requires IsBranch(homes, Reversed(chain))
    ensures ReachesFounder(homes, chain)
  {
    hide Usable;
    var b, n := Reversed(chain), |chain|;
    forall i, j | 0 <= i < j < n ensures chain[i] != chain[j] {
      assert b[n - 1 - i] == chain[i] && b[n - 1 - j] == chain[j];
    }
    forall i | 0 <= i < n - 1 ensures DescendsFrom(homes, chain[i], chain[i + 1]) {
      assert DescendsFrom(homes, b[n - 1 - i], b[n - 2 - i]);
    }
    assert b[0] == chain[n - 1];
  }

  lemma ReversedTwice(b: seq<string>)
    ensures Reversed(Reversed(b)) == b
  {
  }

  /** The fact about one home, or the abort of the whole walk. */
  function StructureOf(homes: map<string, Home>, verify: Verifier, agent: string): Result<Structure, Abort> {
    match Walk(homes, [], agent)
    case Limit => Err(SourceLimit)
    case Stopped(code) => Ok(Fail(agent, code))
    case Climbed(chain) =>
      WalkFindsClimbs(homes, [], agent, chain);
      ClimbIsBranch(homes, chain);
      match FirstRejection(homes, verify, Reversed(chain), 0)
      case Some(code) => Ok(Fail(agent, code))
      case None => Ok(Pass(agent, Reversed(chain)))
  }

  /** A branch on which every record is accepted against its parent. */
  predicate IsLineage(homes: map<string, Home>, verify: Verifier, b: seq<string>) {
    IsBranch(homes, b) && forall i | 0 <= i < |b| :: Verdict(homes, verify, b, i) == None
  }

  lemma PassGivesLineage(homes: map<string, Home>, verify: Verifier, agent: string, b: seq<string>)
    requires StructureOf(homes, verify, agent) == Ok(Pass(agent, b))
    ensures IsLineage(homes, verify, b) && b[|b| - 1] == agent
  {
    hide Usable, Verdict, Walk, IsBranch, IsClimb;
    var chain := Walk(homes, [], agent).chain;
    WalkFindsClimbs(homes, [], agent, chain);
    ClimbIsBranch(homes, chain);
    assert ([] + [agent])[0] == chain[0];
  }

  lemma LineagePasses(homes: map<string, Home>, verify: Verifier, agent: string, b: seq<string>)
    requires IsLineage(homes, verify, b) && b[|b| - 1] == agent
    ensures StructureOf(homes, verify, agent) == Ok(Pass(agent, b))
  {
    hide Usable, Verdict, Walk, IsClimb, DescendsFrom, ReachesFounder, Reversed;
    BranchIsWalked(homes, agent, b);
  }

  /** A home passes with a branch exactly when that branch is an accepted lineage that ends at the home. */
  lemma PassIsLineage(homes: map<string, Home>, verify: Verifier, agent: string, b: seq<string>)
    ensures StructureOf(homes, verify, agent) == Ok(Pass(agent, b))
            <==> IsLineage(homes, verify, b) && b[|b| - 1] == agent
  {
    hide StructureOf, Verdict, Usable, DescendsFrom;
    if StructureOf(homes, verify, agent) == Ok(Pass(agent, b)) { PassGivesLineage(homes, verify, agent, b); }
    if IsLineage(homes, verify, b) && b[|b| - 1] == agent { LineagePasses(homes, verify, agent, b); }
  }

  /** When a home passes, every ancestor on its branch passes, with the branch up to it. */
  lemma AncestorsPass(homes: map<string, Home>, verify: Verifier, agent: string, b: seq<string>, k: nat)
    requires StructureOf(homes, verify, agent) == Ok(Pass(agent, b)) && k < |b|
    ensures StructureOf(homes, verify, b[k]) == Ok(Pass(b[k], b[..k + 1]))
  {
    PassIsLineage(homes, verify, agent, b);
    hide Usable, StructureOf;
    var c := b[..k + 1];
    assert IsBranch(homes, c);
    forall i | 0 <= i < |c| ensures Verdict(homes, verify, c, i) == None {
      assert Verdict(homes, verify, b, i) == None;
    }
    PassIsLineage(homes, verify, b[k], c);
  }

  /** The walk of a home aborts exactly when some climb from it exceeds a limit. */
  lemma AbortIsLimit(homes: map<string, Home>, verify: Verifier, agent: string)
    ensures StructureOf(homes, verify, agent).Err?
            <==> exists c, a :: EndsAs(homes, [agent], c, a, Limit)
  {
    hide FirstRejection, EndsAs, DescendsFrom, IsClimb, Reversed;
    WalkFromHome(homes, agent, Limit);
  }

  lemma WalkFromHome(homes: map<string, Home>, agent: string, o: Outcome)
    requires !o.Climbed?
    ensures Walk(homes, [], agent) == o <==> exists c, a :: EndsAs(homes, [agent], c, a, o)
  {
    assert [] + [agent] == [agent];
    WalkEnds(homes, [], agent, o);
  }

  /** The first agent of a branch that is not accepted is rejected with this code. */
  predicate RejectedAt(homes: map<string, Home>, verify: Verifier, agent: string, b: seq<string>, i: nat, code: Code) {
    && IsBranch(homes, b) && b[|b| - 1] == agent && i < |b| && Verdict(homes, verify, b, i) == Some(code)
    && forall k | 0 <= k < i :: Verdict(homes, verify, b, k) == None
  }

  lemma {:induction false} FirstIsRejected(homes: map<string, Home>, verify: Verifier, b: seq<string>, i: nat,
                                           code: Code)
    returns (k: nat)
    requires i <= |b| && IsBranch(homes, b) && FirstRejection(homes, verify, b, i) == Some(code)
    requires forall j | 0 <= j < i :: Verdict(homes, verify, b, j) == None
    ensures RejectedAt(homes, verify, b[|b| - 1], b, k, code)
    decreases |b| - i
  {
    hide Usable, Verdict;
    if Verdict(homes, verify, b, i).Some? { k := i; } else { k := FirstIsRejected(homes, verify, b, i + 1, code); }
  }

  lemma {:induction false} RejectedIsFirst(homes: map<string, Home>, verify: Verifier, agent: string, b: seq<string>,
                                           i: nat, k: nat, code: Code)
    requires i <= k && RejectedAt(homes, verify, agent, b, k, code)
    ensures FirstRejection(homes, verify, b, i) == Some(code)
    decreases k - i
  {
    hide Usable, Verdict;
    if i < k { RejectedIsFirst(homes, verify, agent, b, i + 1, k, code); }
  }

  /**
   * A home fails with a code exactly if its walk has to stop with it, or its branch reaches a founder
   * and the first agent that is not accepted is rejected with it.
   */
  lemma FailIsStop(homes: map<string, Home>, verify: Verifier, agent: string, code: Code)
    ensures StructureOf(homes, verify, agent) == Ok(Fail(agent, code))
            <==> (exists c, a :: EndsAs(homes, [agent], c, a, Stopped(code)))
                 || (exists b, i :: RejectedAt(homes, verify, agent, b, i, code))
  {
    hide FirstRejection, EndsAs, DescendsFrom, IsClimb, RejectedAt, Verdict, Usable, Walk, IsBranch, Reversed;
    WalkFromHome(homes, agent, Stopped(code));
    if Walk(homes, [], agent).Climbed? {
      var chain := Walk(homes, [], agent).chain;
      WalkFindsClimbs(homes, [], agent, chain);
      ClimbIsBranch(homes, chain);
      EndOfClimb(agent, chain);
      BranchIsUsable(homes, Reversed(chain));
      if FirstRejection(homes, verify, Reversed(chain), 0) == Some(code) {
        var k := FirstIsRejected(homes, verify, Reversed(chain), 0, code);
      }
    }
    if b, i :| RejectedAt(homes, verify, agent, b, i, code) {
      BranchOfRejected(homes, verify, agent, b, i, code);
      BranchIsWalked(homes, agent, b);
      RejectedIsFirst(homes, verify, agent, b, 0, i, code);
    }
  }

  lemma BranchOfRejected(homes: map<string, Home>, verify: Verifier, agent: string, b: seq<string>, i: nat, code: Code)
    requires RejectedAt(homes, verify, agent, b, i, code)
    ensures IsBranch(homes, b) && b != [] && b[|b| - 1] == agent
  {
  }

  lemma BranchIsUsable(homes: map<string, Home>, b: seq<string>)
    requires IsBranch(homes, b)
    ensures forall k | 0 <= k < |b| :: Usable(homes, b[k])
  {
  }

  lemma EndOfClimb(agent: string, chain: seq<string>)
    requires [] + [agent] <= chain
    ensures Reversed(chain) != [] && Reversed(chain)[|chain| - 1] == agent
  {
    assert ([] + [agent])[0] == chain[0];
  }

  /** The walk of a home finds the branch that ends at it. */
  lemma BranchIsWalked(homes: map<string, Home>, agent: string, b: seq<string>)
    requires IsBranch(homes, b) && b != [] && b[|b| - 1] == agent
    ensures Walk(homes, [], agent).Climbed? && Reversed(Walk(homes, [], agent).chain) == b
  {
    hide Usable, Walk, IsClimb, DescendsFrom, ReachesFounder;
    var chain := Reversed(b);
    ReversedTwice(b);
    ClimbIsBranch(homes, chain);
    assert chain[0] == agent && [] + [agent] <= chain;
    WalkFindsClimbs(homes, [], agent, chain);
  }

  // ---- the loops ----------------------------------------------------------------------------------

  /** The inner `while`: up to the founder, with the chain and the visited agents. */
  method Climb(homes: map<string, Home>, start: string) returns (r: Outcome)
    ensures r == Walk(homes, [], start)
  {
    var chain: seq<string>, visited: set<string>, agent := [], {}, start;
    while true
      invariant |chain| <= MAX_BRANCH && visited == set a | a in chain
      invariant Walk(homes, chain, agent) == Walk(homes, [], start)
      decreases MAX_BRANCH - |chain|
    {
      if agent in visited { return Stopped(LineageInvalid); }
      if |chain| >= MAX_BRANCH { return Limit; }
      visited := visited + {agent};
      if agent !in homes { return Stopped(LineageInvalid); }
      match Visit(homes[agent], agent) {
        case Err(outcome) => return outcome;
        case Ok(record) =>
          chain := chain + [agent];
          if record.role == Founder { return Climbed(chain); }
          if record.role != Descendant || record.parent == None { return Stopped(LineageInvalid); }
          agent := record.parent.value;
      }
    }
  }

  /** The verification down the chain. */
  method VerifyDown(homes: map<string, Home>, verify: Verifier, b: seq<string>) returns (r: Option<Code>)
    requires IsBranch(homes, b)
    ensures r == FirstRejection(homes, verify, b, 0)
  {
    var previous: Option<Record>, previousSpec: Option<bytes> := None, None;
    for i := 0 to |b|
      invariant FirstRejection(homes, verify, b, i) == FirstRejection(homes, verify, b, 0)
      invariant previous == if i == 0 then None else Some(RecordOf(homes, b[i - 1]))
      invariant previousSpec == if i == 0 then None else Some(SpecOf(homes, b[i - 1]))
    {
      var record, spec := RecordOf(homes, b[i]), SpecOf(homes, b[i]);
      var code := verify(record, spec, previous, previousSpec);
      if code.Some? { return code; }
      previous, previousSpec := Some(record), Some(spec);
    }
    return None;
  }

  function ById(homes: seq<Home>): map<string, Home> {
    if homes == [] then map[] else ById(homes[..|homes| - 1])[homes[|homes| - 1].agentId := homes[|homes| - 1]]
  }

  predicate DistinctIds(homes: seq<Home>) { forall i, j | 0 <= i < j < |homes| :: homes[i].agentId != homes[j].agentId }

  function SortedHomes(homes: seq<Home>): seq<Home> { SortBy(homes, (h: Home) => h.agentId) }

  function Members(agents: seq<string>): set<string> { set a | a in agents }

  function Ids(homes: seq<Home>): set<string> { set h | h in homes :: h.agentId }

  lemma {:induction false} IndexKeys(homes: seq<Home>)
    ensures ById(homes).Keys == Ids(homes)
  {
    if homes != [] {
      var n := |homes| - 1;
      IndexKeys(homes[..n]);
      assert homes == homes[..n] + [homes[n]];
    }
  }

  lemma {:induction false} CountIds(homes: seq<Home>)
    ensures |Ids(homes)| <= |homes|
    ensures |Ids(homes)| == |homes| <==> DistinctIds(homes)
  {
    if homes != [] {
      var n := |homes| - 1;
      var rest := homes[..n];
      CountIds(rest);
      assert homes == rest + [homes[n]];
      assert Ids(homes) == Ids(rest) + {homes[n].agentId};
      assert homes[n].agentId in Ids(rest) <==> exists i :: 0 <= i < n && homes[i].agentId == homes[n].agentId by {
        if i :| 0 <= i < n && homes[i].agentId == homes[n].agentId { assert rest[i] in rest; }
      }
      assert DistinctIds(homes) <==> DistinctIds(rest) && homes[n].agentId !in Ids(rest);
    }
  }

  /** The table has as many entries as there are homes exactly when no id repeats. */
  lemma IndexSize(homes: seq<Home>)
    ensures |ById(homes)| == |homes| <==> DistinctIds(homes)
  {
    IndexKeys(homes);
    CountIds(homes);
    assert |ById(homes)| == |ById(homes).Keys|;
  }

  /** `structures`: one fact per home in the order of the ids, unless a limit aborts everything. */
  method Structures(homes: seq<Home>, verify: Verifier) returns (r: Result<seq<Structure>, Abort>)
    ensures r == Err(NamespaceInvalid) <==> |homes| <= 65 && !DistinctIds(homes)
    ensures r == Err(SourceLimit)
            <==> (|homes| > 65
                  || (DistinctIds(homes)
                      && exists h :: h in SortedHomes(homes) && StructureOf(ById(homes), verify, h.agentId).Err?))
    ensures r.Ok? ==> |r.value| == |homes| == |SortedHomes(homes)|
    ensures r.Ok? ==> forall i | 0 <= i < |homes| ::
              StructureOf(ById(homes), verify, SortedHomes(homes)[i].agentId) == Ok(r.value[i])
  {
    if |homes| > MAX_HOMES { return Err(SourceLimit); }
    var byId := ById(homes);
    IndexSize(homes);
    if |byId| != |homes| { return Err(NamespaceInvalid); }
    hide DistinctIds, Walk, ById, SortedHomes, IsBranch, ReachesFounder;
    var sorted := SortedHomes(homes);
    SortedSize(homes);
    var facts: seq<Structure> := [];
    for n := 0 to |sorted|
      invariant |facts| == n
      invariant forall i | 0 <= i < n :: StructureOf(byId, verify, sorted[i].agentId) == Ok(facts[i])
    {
      var fact := FactOf(byId, verify, sorted[n].agentId);
      if fact.Err? {
        assert sorted[n] in SortedHomes(homes);
        return Err(SourceLimit);
      }
      facts := facts + [fact.value];
    }
    return Ok(facts);
  }

  lemma SortedSize(homes: seq<Home>)
    ensures |SortedHomes(homes)| == |homes|
  {
    SortByOrders(homes, (h: Home) => h.agentId);
    assert |multiset(SortedHomes(homes))| == |multiset(homes)|;
  }

  method FactOf(byId: map<string, Home>, verify: Verifier, agent: string) returns (r: Result<Structure, Abort>)
    ensures r == StructureOf(byId, verify, agent)
    ensures r.Err? ==> r.error == SourceLimit
  {
    var walk := Climb(byId, agent);
    match walk {
      case Limit => return Err(SourceLimit);
      case Stopped(code) => return Ok(Fail(agent, code));
      case Climbed(chain) =>
        WalkFindsClimbs(byId, [], agent, chain);
        ClimbIsBranch(byId, chain);
        var rejected := VerifyDown(byId, verify, Reversed(chain));
        return if rejected.Some? then Ok(Fail(agent, rejected.value)) else Ok(Pass(agent, Reversed(chain)));
    }
  }
}
