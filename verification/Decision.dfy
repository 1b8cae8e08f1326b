/**
 * The decision part of an operation: the item cap, the recomputed branch, the needs of the candidate
 * and its branch, and the comparison with the frozen items.
 */
module Decision {
  import opened Prelude
  import opened Needs
  import opened FrozenCover
  import opened Branches
  import L = Lineage
  import P = Preflight

  datatype PartitionCode =
    | SourceLimit
    | BranchDivergent
    | OfBranch(code: BranchCode)
    | EvidenceNotStored
    | StoredFileDivergent
    | OfItems(item: Code)

  datatype Partition = Partition(status: Verdict, needs: map<Key, Need>, codes: set<PartitionCode>)

  /** Why the needs cannot be derived. */
  datatype Gap = StatementNotStored | BirthNotAttested | FileTooBig | FileUnreadable | RecordDivergent

  /** Do the bytes hold a canonical record at all? */
  type Readable = (Kind, bytes) -> bool

  /** Why a stored record cannot be decoded: it is absent or too big, or not canonical. */
  function DecodeError(readable: Readable, q: Requirement): (gap: Option<Gap>)
    ensures gap.Some? ==> gap.value == FileTooBig || gap.value == FileUnreadable
  {
    if q.raw == None || TooBig(q) then Some(FileTooBig)
    else if !readable(q.kind, q.raw.value) then Some(FileUnreadable)
    else None
  }

  /** A record is refused with a gap: not stored or beyond its limit, or within it and not canonical. */
  predicate FailsAs(readable: Readable, q: Requirement, gap: Gap) {
    var limit := if q.kind == Statement then 16384 else 65536;
    match gap
    case FileTooBig => q.raw.Some? ==> |q.raw.value| > limit
    case FileUnreadable => q.raw.Some? && |q.raw.value| <= limit && !readable(q.kind, q.raw.value)
    case _ => false
  }

  lemma ErrorIsGap(readable: Readable, q: Requirement, gap: Gap)
    ensures DecodeError(readable, q) == Some(gap) <==> FailsAs(readable, q, gap)
  {
  }

  predicate AllDecode(readable: Readable, qs: seq<Requirement>) {
    forall i | 0 <= i < |qs| :: DecodeError(readable, qs[i]) == None
  }

  predicate SomeFails(readable: Readable, qs: seq<Requirement>, gap: Gap) {
    exists i :: 0 <= i < |qs| && DecodeError(readable, qs[i]) == Some(gap)
  }

  /** All the records decode exactly if none fails, and one fails with a gap exactly if its bytes say so. */
  lemma GapsAre(readable: Readable, qs: seq<Requirement>)
    ensures AllDecode(readable, qs)
            <==> forall i, gap | 0 <= i < |qs| :: !FailsAs(readable, qs[i], gap)
    ensures forall gap ::
              SomeFails(readable, qs, gap) <==> exists i :: 0 <= i < |qs| && FailsAs(readable, qs[i], gap)
  {
    hide DecodeError, FailsAs;
    forall i, gap | 0 <= i < |qs|
      ensures DecodeError(readable, qs[i]) == Some(gap) <==> FailsAs(readable, qs[i], gap)
    {
      ErrorIsGap(readable, qs[i], gap);
    }
    if AllDecode(readable, qs) {
      forall i, gap | 0 <= i < |qs| ensures !FailsAs(readable, qs[i], gap) {
        assert DecodeError(readable, qs[i]) == None;
        ErrorIsGap(readable, qs[i], gap);
      }
    } else {
      var i :| 0 <= i < |qs| && DecodeError(readable, qs[i]) != None;
      assert FailsAs(readable, qs[i], DecodeError(readable, qs[i]).value);
    }
  }

  // ---- the needs --------------------------------------------------------------------------------

  /** Every record was stored and could be keyed. */
  predicate Sound(d: Derivation) { !d.missing && !d.divergent }

  function FromNeeds(needs: map<Key, Need>): Derivation { Derivation(needs, false, false) }

  lemma {:induction false} AddAllConcat(env: DocEnv, d: Derivation, a: seq<Requirement>, b: seq<Requirement>)
    ensures AddAll(env, d, a + b) == AddAll(env, AddAll(env, d, a), b)
  {
    hide Added;
    if b == [] {
      assert a + b == a;
    } else {
      var n := |b| - 1;
      AddAllConcat(env, d, a, b[..n]);
      assert (a + b)[..|a + b| - 1] == a + b[..n];
    }
  }

  /** What is missing or divergent stays so. */
  lemma {:induction false} StaysBroken(env: DocEnv, d: Derivation, qs: seq<Requirement>)
    ensures d.missing ==> AddAll(env, d, qs).missing
    ensures d.divergent ==> AddAll(env, d, qs).divergent
  {
    hide AddNeed;
    if qs != [] { StaysBroken(env, d, qs[..|qs| - 1]); }
  }

  /** Decode and add every record, or stop at the first that cannot be decoded or keyed. */
  method TakeRecords(env: DocEnv, readable: Readable, needs: map<Key, Need>, qs: seq<Requirement>)
    returns (r: Result<map<Key, Need>, Gap>)
    ensures var d := AddAll(env, FromNeeds(needs), qs);
            && (r.Ok? <==> Sound(d) && AllDecode(readable, qs))
            && (r.Ok? ==> r.value == d.needs)
            && (r == Err(RecordDivergent) ==> d.divergent)
            && (r.Err? && r.error != RecordDivergent ==>
                  SomeFails(readable, qs, r.error) && (r.error == FileTooBig || r.error == FileUnreadable))
  {
    hide AddNeed;
    var taken := needs;
    for n := 0 to |qs|
      invariant AddAll(env, FromNeeds(needs), qs[..n]) == FromNeeds(taken)
      invariant forall i | 0 <= i < n :: DecodeError(readable, qs[i]) == None
    {
      assert qs[..n + 1][..n] == qs[..n];
      assert qs == qs[..n + 1] + qs[n + 1..];
      AddAllConcat(env, FromNeeds(needs), qs[..n + 1], qs[n + 1..]);
      StaysBroken(env, AddAll(env, FromNeeds(needs), qs[..n + 1]), qs[n + 1..]);
      var error := DecodeError(readable, qs[n]);
      if error.Some? { return Err(error.value); }
      var next := AddNeed(env, taken, qs[n]);
      if next == None { return Err(RecordDivergent); }
      taken := next.value;
    }
    assert qs[..|qs|] == qs;
    return Ok(taken);
  }

  /** A node of the branch whose birth lacks its statement. */
  predicate LacksStatement(h: Home) {
    h.base.record.Present? && h.base.record.value.role != L.Founder && h.statement == None
  }

  /** One agent of the branch: its own record, then its statement before the records of its birth. */
  method TakeNode(env: DocEnv, readable: Readable, needs: map<Key, Need>, h: Home)
    returns (r: Result<map<Key, Need>, Gap>)
    requires h.base.record.Present?
    ensures var d, qs := AddAll(env, FromNeeds(needs), NodeRequirements(h)), NodeRequirements(h);
            && (r.Ok? <==> Sound(d) && AllDecode(readable, qs))
            && (r.Ok? ==> r.value == d.needs)
            && (r == Err(BirthNotAttested) ==> LacksStatement(h))
            && (r == Err(RecordDivergent) ==> d.divergent)
            && (r.Err? && r.error != BirthNotAttested && r.error != RecordDivergent ==>
                  SomeFails(readable, qs, r.error) && r.error != StatementNotStored)
  {
    hide AddAll, DecodeError;
    var record := h.base.record.value;
    var individual := IndividualRequirement(h, record);
    var own := TakeRecords(env, readable, needs, [individual]);
    ghost var birth := NodeRequirements(h)[1..];
    assert NodeRequirements(h) == [individual] + birth;
    AddAllConcat(env, FromNeeds(needs), [individual], birth);
    StaysBroken(env, AddAll(env, FromNeeds(needs), [individual]), birth);
    DecodeConcat(readable, [individual], birth);
    if own.Err? { return own; }
    assert AddAll(env, FromNeeds(needs), [individual]) == FromNeeds(own.value);
    if record.role == L.Founder {
      NothingAdded(env, FromNeeds(own.value));
      return Ok(own.value);
    }
    assert birth == BirthRequirements(h);
    if h.statement == None {
      MissingOne(env, FromNeeds(own.value), birth, 2);
      return Err(BirthNotAttested);
    }
    r := TakeRecords(env, readable, own.value, BirthRequirements(h));
  }

  lemma DecodeConcat(readable: Readable, a: seq<Requirement>, b: seq<Requirement>)
    ensures AllDecode(readable, a + b) <==> AllDecode(readable, a) && AllDecode(readable, b)
    ensures forall gap ::
              SomeFails(readable, a + b, gap) <==> SomeFails(readable, a, gap) || SomeFails(readable, b, gap)
  {
    var all := a + b;
    assert forall i | 0 <= i < |a| :: all[i] == a[i];
    assert forall i | 0 <= i < |b| :: all[|a| + i] == b[i];
    if AllDecode(readable, all) {
      forall i | 0 <= i < |b| ensures DecodeError(readable, b[i]) == None { assert all[|a| + i] == b[i]; }
      forall i | 0 <= i < |a| ensures DecodeError(readable, a[i]) == None { assert all[i] == a[i]; }
    }
    forall gap ensures SomeFails(readable, all, gap) <==> SomeFails(readable, a, gap) || SomeFails(readable, b, gap) {
      if i :| 0 <= i < |a| && DecodeError(readable, a[i]) == Some(gap) { assert all[i] == a[i]; }
      if i :| 0 <= i < |b| && DecodeError(readable, b[i]) == Some(gap) { assert all[|a| + i] == b[i]; }
      if i :| 0 <= i < |all| && DecodeError(readable, all[i]) == Some(gap) {
        if i >= |a| { assert all[i] == b[i - |a|]; }
      }
    }
  }

  lemma NothingAdded(env: DocEnv, d: Derivation)
    ensures AddAll(env, d, []) == d
  {
  }

  /** A record that is not stored leaves the derivation incomplete. */
  lemma MissingOne(env: DocEnv, d: Derivation, qs: seq<Requirement>, i: nat)
    requires i < |qs| && qs[i].raw == None
    ensures AddAll(env, d, qs).missing
  {
    hide AddNeed;
    assert qs == qs[..i + 1] + qs[i + 1..] && qs[..i + 1][..i] == qs[..i];
    AddAllConcat(env, d, qs[..i + 1], qs[i + 1..]);
    StaysBroken(env, AddAll(env, d, qs[..i + 1]), qs[i + 1..]);
  }

  /** The stored records of the decision part: the candidate's statement, and the files of the nodes. */
  function StoredRequirements(c: Candidate, nodes: seq<Home>): seq<Requirement>
    requires forall h | h in nodes :: h.base.record.Present?
  {
    [CandidateRequirements(c)[2]] + NodesRequirements(nodes)
  }

  /** The needs of the decision part: the presented records, then the branch; no code and no gap allowed. */
  method DecisionNeeds(env: DocEnv, readable: Readable, c: Candidate, p: Presented, nodes: seq<Home>)
    returns (r: Result<map<Key, Need>, Gap>)
    requires PresentedWell(p) && forall h | h in nodes :: h.base.record.Present?
    ensures var d := AddAll(env, NOTHING, DecisionRequirements(c, p, nodes));
            && (r.Ok? <==> PresentedMatch(env, c, p) && Sound(d) && AllDecode(readable, StoredRequirements(c, nodes)))
            && (r.Ok? ==> r.value == d.needs)
            && (r == Err(StatementNotStored) <==> c.statement == None)
            && (r == Err(BirthNotAttested) ==> exists h :: h in nodes && LacksStatement(h))
            && (r == Err(RecordDivergent) ==> !PresentedMatch(env, c, p) || d.divergent)
            && (r == Err(FileTooBig) || r == Err(FileUnreadable) ==>
                  SomeFails(readable, StoredRequirements(c, nodes), r.error))
  {
    hide AddAll, NodesRequirements, NodeRequirements, LacksStatement, DecodeError, AllDecode, SomeFails;
    if c.statement == None {
      StatementFails(readable, c);
      DecodeConcat(readable, [CandidateRequirements(c)[2]], NodesRequirements(nodes));
      return Err(StatementNotStored);
    }
    ghost var stored := [CandidateRequirements(c)[2]];
    DecodeConcat(readable, stored, NodesRequirements(nodes));
    StatementFails(readable, c);
    var error := DecodeError(readable, CandidateRequirements(c)[2]);
    if error.Some? { return Err(error.value); }
    var needs := map[];
    NothingAdded(env, NOTHING);
    var presented := PresentedRequirements(c, p);
    for n := 0 to 3
      invariant AddAll(env, NOTHING, presented[..n]) == FromNeeds(needs)
      invariant forall i | 0 <= i < n :: PresentedAt(env, c, p, i)
    {
      PresentedStep(env, c, p, nodes, n);
      OnlyAdded(env, FromNeeds(needs), presented[n]);
      if !PresentedAt(env, c, p, n) { return Err(RecordDivergent); }
      var next := AddNeed(env, needs, presented[n]);
      if next == None { return Err(RecordDivergent); }
      needs := next.value;
    }
    assert presented[..3] == presented;
    NoNodes(env, c, p);
    NoFiles(readable);
    for n := 0 to |nodes|
      invariant AddAll(env, NOTHING, DecisionRequirements(c, p, nodes[..n])) == FromNeeds(needs)
      invariant AllDecode(readable, NodesRequirements(nodes[..n]))
    {
      NodeStep(env, c, p, nodes, n);
      FilesStep(readable, nodes, n);
      assert nodes[n] in nodes;
      var next := TakeNode(env, readable, needs, nodes[n]);
      if next.Err? { return next; }
      needs := next.value;
    }
    assert nodes[..|nodes|] == nodes;
    return Ok(needs);
  }

  /** The verdict on the statement alone. */
  lemma StatementFails(readable: Readable, c: Candidate)
    ensures var q := CandidateRequirements(c)[2];
            && (AllDecode(readable, [q]) <==> DecodeError(readable, q) == None)
            && (DecodeError(readable, q).Some? ==> SomeFails(readable, [q], DecodeError(readable, q).value))
            && (c.statement == None ==> DecodeError(readable, q).Some?)
            && (DecodeError(readable, q).Some? ==>
                  DecodeError(readable, q) == Some(FileTooBig) || DecodeError(readable, q) == Some(FileUnreadable))
  {
    var q := CandidateRequirements(c)[2];
    assert [q][0] == q;
  }

  lemma NoFiles(readable: Readable)
    ensures AllDecode(readable, NodesRequirements([]))
  {
  }

  lemma OnlyAdded(env: DocEnv, d: Derivation, q: Requirement)
    ensures AddAll(env, d, [q]) == Added(env, d, q)
  {
    assert [q][..0] == [];
  }

  lemma OneMoreFile(nodes: seq<Home>, n: nat)
    requires n < |nodes| && forall h | h in nodes :: h.base.record.Present?
    ensures NodesRequirements(nodes[..n + 1]) == NodesRequirements(nodes[..n]) + NodeRequirements(nodes[n])
  {
    hide NodeRequirements;
    assert nodes[..n + 1][..n] == nodes[..n];
  }

  /** What one node adds to the files, and that a failure among them is one of the whole. */
  lemma FilesStep(readable: Readable, nodes: seq<Home>, n: nat)
    requires n < |nodes| && forall h | h in nodes :: h.base.record.Present?
    ensures AllDecode(readable, NodesRequirements(nodes[..n + 1]))
            <==> AllDecode(readable, NodesRequirements(nodes[..n])) && AllDecode(readable, NodeRequirements(nodes[n]))
    ensures AllDecode(readable, NodesRequirements(nodes)) ==> AllDecode(readable, NodeRequirements(nodes[n]))
    ensures forall gap ::
              SomeFails(readable, NodeRequirements(nodes[n]), gap) ==>
                SomeFails(readable, NodesRequirements(nodes), gap)
  {
    hide NodeRequirements, NodesRequirements, AllDecode, SomeFails;
    OneMoreFile(nodes, n);
    NodesPrefix(nodes, n + 1);
    var before, all := NodesRequirements(nodes[..n + 1]), NodesRequirements(nodes);
    assert all == before + all[|before|..];
    DecodeConcat(readable, NodesRequirements(nodes[..n]), NodeRequirements(nodes[n]));
    DecodeConcat(readable, before, all[|before|..]);
  }

  /** One presented record: what it adds, and that its failure is final. */
  lemma PresentedStep(env: DocEnv, c: Candidate, p: Presented, nodes: seq<Home>, n: nat)
    requires PresentedWell(p) && n < 3 && forall h | h in nodes :: h.base.record.Present?
    ensures var presented, d0 := PresentedRequirements(c, p), AddAll(env, NOTHING, PresentedRequirements(c, p)[..n]);
            var whole := AddAll(env, NOTHING, DecisionRequirements(c, p, nodes));
            && AddAll(env, NOTHING, presented[..n + 1]) == AddAll(env, d0, [presented[n]])
            && (AddAll(env, d0, [presented[n]]).missing ==> whole.missing)
            && (AddAll(env, d0, [presented[n]]).divergent ==> whole.divergent)
  {
    hide AddAll;
    var presented, qs := PresentedRequirements(c, p), DecisionRequirements(c, p, nodes);
    assert presented[..n + 1] == presented[..n] + [presented[n]];
    AddAllConcat(env, NOTHING, presented[..n], [presented[n]]);
    assert qs == presented[..n + 1] + qs[n + 1..];
    AddAllConcat(env, NOTHING, presented[..n + 1], qs[n + 1..]);
    StaysBroken(env, AddAll(env, NOTHING, presented[..n + 1]), qs[n + 1..]);
  }

  lemma NoNodes(env: DocEnv, c: Candidate, p: Presented)
    requires PresentedWell(p)
    ensures DecisionRequirements(c, p, []) == PresentedRequirements(c, p)
  {
    assert PresentedRequirements(c, p) + [] == PresentedRequirements(c, p);
  }

  /** One node: what it adds, and that its failure is final. */
  lemma NodeStep(env: DocEnv, c: Candidate, p: Presented, nodes: seq<Home>, n: nat)
    requires PresentedWell(p) && n < |nodes| && forall h | h in nodes :: h.base.record.Present?
    ensures var d0 := AddAll(env, NOTHING, DecisionRequirements(c, p, nodes[..n]));
            var d1 := AddAll(env, d0, NodeRequirements(nodes[n]));
            var whole := AddAll(env, NOTHING, DecisionRequirements(c, p, nodes));
            && AddAll(env, NOTHING, DecisionRequirements(c, p, nodes[..n + 1])) == d1
            && (d1.missing ==> whole.missing) && (d1.divergent ==> whole.divergent)
  {
    hide AddAll, PresentedRequirements, NodeRequirements;
    NodesPrefix(nodes, n + 1);
    assert nodes[..n + 1][..n] == nodes[..n];
    var before, all := DecisionRequirements(c, p, nodes[..n + 1]), DecisionRequirements(c, p, nodes);
    assert before == DecisionRequirements(c, p, nodes[..n]) + NodeRequirements(nodes[n]);
    AddAllConcat(env, NOTHING, DecisionRequirements(c, p, nodes[..n]), NodeRequirements(nodes[n]));
    assert all == before + all[|before|..];
    AddAllConcat(env, NOTHING, before, all[|before|..]);
    StaysBroken(env, AddAll(env, NOTHING, before), all[|before|..]);
  }

  lemma {:induction false} NodesPrefix(nodes: seq<Home>, n: nat)
    requires n <= |nodes| && forall h | h in nodes :: h.base.record.Present?
    ensures NodesRequirements(nodes[..n]) <= NodesRequirements(nodes)
  {
    hide NodeRequirements;
    if n == |nodes| {
      assert nodes[..n] == nodes;
    } else {
      NodesPrefix(nodes[..|nodes| - 1], n);
      assert nodes[..|nodes| - 1][..n] == nodes[..n];
    }
  }

  // ---- the partition ----------------------------------------------------------------------------

  function OfBranchCodes(codes: set<BranchCode>): set<PartitionCode> { set c | c in codes :: OfBranch(c) }

  function OfItemCodes(codes: set<Code>): set<PartitionCode> { set c | c in codes :: OfItems(c) }

  /** The presented records match, and every needed record was stored, decoded and keyed. */
  predicate DecisionSound(env: DocEnv, readable: Readable, c: Candidate, p: Presented, nodes: seq<Home>, d: Derivation)
    requires PresentedWell(p) && forall h | h in nodes :: h.base.record.Present?
  {
    PresentedMatch(env, c, p) && Sound(d) && AllDecode(readable, StoredRequirements(c, nodes))
  }

  /** The record presented as number `i` is frozen with the envelope it was presented with. */
  predicate FrozenAsPresented(env: DocEnv, c: Candidate, p: Presented, items: seq<Item>, i: nat)
    requires PresentedWell(p) && i < 3
  {
    var k := PresentedKey(env, c, i);
    k.Some? && k.value in Frozen(items) && Frozen(items)[k.value].1 == p.envelopes[i]
  }

  /** The frozen decision items are the needs, and the three presented records keep their envelopes. */
  predicate DecisionAgrees(env: DocEnv, c: Candidate, p: Presented, items: seq<Item>, needs: map<Key, Need>)
    requires PresentedWell(p)
  {
    && KeysWithRole(items, true) == needs.Keys
    && FrozenAsPresented(env, c, p, items, 0) && FrozenAsPresented(env, c, p, items, 1)
    && FrozenAsPresented(env, c, p, items, 2)
  }

  lemma PresentedIsNeeded(env: DocEnv, c: Candidate, p: Presented, nodes: seq<Home>, i: nat)
    requires PresentedWell(p) && PresentedMatch(env, c, p) && i < 3
    requires forall h | h in nodes :: h.base.record.Present?
    ensures PresentedKey(env, c, i).Some?
    ensures PresentedKey(env, c, i).value in AddAll(env, NOTHING, DecisionRequirements(c, p, nodes)).needs
  {
    hide NodesRequirements, AddAll;
    var qs := DecisionRequirements(c, p, nodes);
    AddAllKeys(env, NOTHING, qs);
    assert qs[i] in qs && qs[i].raw == CandidateRequirements(c)[i].raw;
  }

  /** Every envelope of every need is the frozen one exactly if the presented records keep theirs. */
  lemma EnvelopesAgree(env: DocEnv, c: Candidate, p: Presented, nodes: seq<Home>, items: seq<Item>)
    requires PresentedWell(p) && PresentedMatch(env, c, p) && forall h | h in nodes :: h.base.record.Present?
    requires var d := AddAll(env, NOTHING, DecisionRequirements(c, p, nodes));
             !d.divergent && forall k | k in d.needs :: k in Frozen(items)
    ensures var needs := AddAll(env, NOTHING, DecisionRequirements(c, p, nodes)).needs;
            (forall k | k in needs :: forall e | e in needs[k].envelopes :: e == Frozen(items)[k].1)
            <==> forall i: nat | i < 3 :: FrozenAsPresented(env, c, p, items, i)
  {
    hide AddAll, DecisionRequirements, Frozen, PresentedMatch, PresentedKey;
    var needs := AddAll(env, NOTHING, DecisionRequirements(c, p, nodes)).needs;
    forall i: nat | i < 3
      ensures PresentedKey(env, c, i).Some? && PresentedKey(env, c, i).value in needs
      ensures p.envelopes[i] in needs[PresentedKey(env, c, i).value].envelopes
    {
      PresentedIsNeeded(env, c, p, nodes, i);
      EnvelopesArePresented(env, c, p, nodes, PresentedKey(env, c, i).value);
    }
    if forall i: nat | i < 3 :: FrozenAsPresented(env, c, p, items, i) {
      forall k, e | k in needs && e in needs[k].envelopes ensures e == Frozen(items)[k].1 {
        EnvelopesArePresented(env, c, p, nodes, k);
        var i: nat :| i < 3 && PresentedKey(env, c, i) == Some(k) && p.envelopes[i] == e;
        assert FrozenAsPresented(env, c, p, items, i);
      }
    }
  }

  /** No code of the decision part: the items are the needs, as presented. */
  lemma CleanIsAgreed(env: DocEnv, c: Candidate, p: Presented, nodes: seq<Home>, items: seq<Item>, codes: set<Code>)
    requires PresentedWell(p) && PresentedMatch(env, c, p) && forall h | h in nodes :: h.base.record.Present?
    requires var d := AddAll(env, NOTHING, DecisionRequirements(c, p, nodes));
             !d.divergent && DecisionCodes(items, d.needs, codes)
    ensures codes == {}
            <==> DecisionAgrees(env, c, p, items, AddAll(env, NOTHING, DecisionRequirements(c, p, nodes)).needs)
  {
    hide AddAll, DecisionRequirements, Frozen, PresentedMatch, DecisionCodes, FrozenAsPresented;
    var needs := AddAll(env, NOTHING, DecisionRequirements(c, p, nodes)).needs;
    CleanDecision(items, needs, codes);
    if KeysWithRole(items, true) == needs.Keys {
      assert forall k | k in needs :: k in KeysWithRole(items, true);
      EnvelopesAgree(env, c, p, nodes, items);
    }
  }

  /** How a gap in the needs is reported. */
  function OfGap(gap: Gap): Partition {
    match gap
    case StatementNotStored => Partition(NotEvaluated, map[], {EvidenceNotStored})
    case BirthNotAttested => Partition(NotEvaluated, map[], {OfItems(AttestationMissing)})
    case FileTooBig => Partition(Fail, map[], {SourceLimit})
    case FileUnreadable => Partition(Fail, map[], {StoredFileDivergent})
    case RecordDivergent => Partition(Fail, map[], {OfItems(FrozenItemDivergent)})
  }

  /** The partition on a branch that stands: derive the needs, then compare the items with them. */
  method Compare(env: DocEnv, readable: Readable, c: Candidate, p: Presented, cap: int, items: seq<Item>,
                 nodes: seq<Home>)
    returns (r: Partition)
    requires PresentedWell(p) && DistinctItems(items) && forall h | h in nodes :: h.base.record.Present?
    ensures var d := AddAll(env, NOTHING, DecisionRequirements(c, p, nodes));
            && (r.status == Pass <==>
                  DecisionSound(env, readable, c, p, nodes, d) && |d.needs| <= cap
                  && DecisionAgrees(env, c, p, items, d.needs))
            && (r.status == Pass ==>
                  && r.codes == {} && r.needs.Keys == d.needs.Keys
                  && forall k | k in r.needs :: r.needs[k] == d.needs[k].(envelopes := {Frozen(items)[k].1}))
            && (!DecisionSound(env, readable, c, p, nodes, d) ==> exists gap :: r == OfGap(gap))
            && (r == OfGap(StatementNotStored) <==> c.statement == None)
            && (r == OfGap(BirthNotAttested) ==> exists h :: h in nodes && LacksStatement(h))
            && (r == OfGap(FileTooBig) ==>
                  SomeFails(readable, StoredRequirements(c, nodes), FileTooBig) || |d.needs| > cap)
            && (r == OfGap(FileUnreadable) ==> SomeFails(readable, StoredRequirements(c, nodes), FileUnreadable))
            && (DecisionSound(env, readable, c, p, nodes, d) ==>
                  if |d.needs| > cap then r == Partition(Fail, map[], {SourceLimit})
                  else
                    && r.needs.Keys == d.needs.Keys
                    && (forall k | k in d.needs ::
                          r.needs[k] == if k in KeysWithRole(items, true)
                                        then d.needs[k].(envelopes := {Frozen(items)[k].1}) else d.needs[k])
                    && exists codes :: r.codes == OfItemCodes(codes) && DecisionCodes(items, d.needs, codes)
                                       && r.status == (if codes == {} then Pass else Fail))
  {
    hide AddAll, DecisionRequirements, PresentedMatch, Frozen, DistinctItems, DecisionCodes, KeysWithRole;
    hide FrozenAsPresented;
    hide AllDecode, SomeFails, StoredRequirements;
    var derived := DecisionNeeds(env, readable, c, p, nodes);
    if derived.Err? { return OfGap(derived.error); }
    if |derived.value| > cap { return Partition(Fail, map[], {SourceLimit}); }
    var codes, bound := DecisionPartition(items, derived.value);
    assert DecisionCodes(items, derived.value, codes);
    CleanIsAgreed(env, c, p, nodes, items, codes);
    if code :| code in codes { assert OfItems(code) in OfItemCodes(codes); }
    assert codes == {} ==> OfItemCodes(codes) == {};
    return Partition(if codes == {} then Pass else Fail, bound, OfItemCodes(codes));
  }

  /** The nodes of a branch in its order, founder first. */
  function InOrder(nodes: seq<Home>, agents: seq<string>): seq<Home>
    requires forall a | a in agents :: a in Index(nodes)
  {
    seq(|agents|, i requires 0 <= i < |agents| => Index(nodes)[agents[i]])
  }

  /** When the whole decision part passes: along an accepted branch that was also the one claimed. */
  ghost predicate DecisionPasses(env: DocEnv, readable: Readable, checks: Checks, c: Candidate, p: Presented, cap: int,
                                 items: seq<Item>, parent: string, fact: Branch, nodes: seq<Home>)
    requires PresentedWell(p)
  {
    var b := fact.agents;
    && |items| <= cap && fact == Branch(Pass, b, {})
    && AreNodes(nodes, b) && IsAccepted(checks, Index(nodes), parent, c.child, b)
    && (forall a | a in b :: a in Index(nodes) && Index(nodes)[a].base.record.Present?)
    && var ordered := InOrder(nodes, b);
       var d := AddAll(env, NOTHING, DecisionRequirements(c, p, ordered));
       DecisionSound(env, readable, c, p, ordered, d) && |d.needs| <= cap && DecisionAgrees(env, c, p, items, d.needs)
  }

  /** The branch the preflight works with is the accepted one of the parent. */
  lemma PreflightUsesTheBranch(checks: Checks, homes: Store, parent: string, child: string, b: seq<string>,
                               listed: seq<Home>, facts: seq<L.Structure>)
    requires P.FactsFit(Bases(homes), checks.verify, listed, facts) && IsAccepted(checks, homes, parent, child, b)
    requires exists h :: h in listed && h.base.agentId == parent
    ensures P.BranchOf(facts, parent) == L.Members(b)
  {
    hide IsAccepted, P.BranchOf, Bases;
    AcceptedIsStructure(checks, homes, parent, child, b);
    var i :| 0 <= i < |listed| && listed[i].base.agentId == parent;
    BranchOfFact(Bases(homes), checks.verify, listed, facts, parent, b, i);
  }

  lemma {:induction false} BranchOfFact(bases: map<string, L.Home>, verify: L.Verifier, listed: seq<Home>,
                                        facts: seq<L.Structure>, parent: string, b: seq<string>, i: nat)
    requires P.FactsFit(bases, verify, listed, facts) && i < |listed| && listed[i].base.agentId == parent
    requires L.StructureOf(bases, verify, parent) == Ok(L.Pass(parent, b))
    ensures P.BranchOf(facts, parent) == L.Members(b)
  {
    hide L.Walk, L.FirstRejection, L.Reversed;
    var n := |facts| - 1;
    assert L.StructureOf(bases, verify, listed[n].base.agentId) == Ok(facts[n]);
    if facts[n].agentId != parent { BranchOfFact(bases, verify, listed[..n], facts[..n], parent, b, i); }
  }

  /** The nodes of a branch are stored with their records. */
  lemma BranchIsStored(nodes: seq<Home>, b: seq<string>)
    requires L.IsBranch(Bases(Index(nodes)), b)
    ensures forall a | a in b :: a in Index(nodes) && Index(nodes)[a].base.record.Present?
    ensures forall h | h in InOrder(nodes, b) :: h.base.record.Present?
  {
    hide Index;
    forall a | a in b ensures a in Index(nodes) && Index(nodes)[a].base.record.Present? {
      var i :| 0 <= i < |b| && b[i] == a;
      assert L.Usable(Bases(Index(nodes)), b[i]);
    }
  }

  /**
   * `decision_partition`: the cap on items, the branch verified anew and compared with the claimed one
   * (`fact`), then needs and items. It passes exactly as `DecisionPasses` says, and everything else is
   * told apart.
   */
  method Decide(env: DocEnv, readable: Readable, checks: Checks, c: Candidate, p: Presented, maxPopulation: nat,
                items: seq<Item>, parent: string, fact: Branch, nodes: seq<Home>)
    returns (r: Partition, actual: Branch)
    requires PresentedWell(p) && DistinctItems(items)
    ensures r.status == Pass
            <==> DecisionPasses(env, readable, checks, c, p, Cap(maxPopulation), items, parent, fact, nodes)
    ensures r.status == Pass ==> r.codes == {}
    ensures |items| > Cap(maxPopulation) ==> r == Partition(Fail, map[], {SourceLimit})
    ensures |items| <= Cap(maxPopulation) && actual.status != Pass ==>
              r == Partition(actual.status, map[], OfBranchCodes(actual.codes))
    ensures |items| <= Cap(maxPopulation) ==>
              (BranchDivergent in r.codes <==> actual.status == Pass && actual != fact)
    ensures |items| <= Cap(maxPopulation) ==>
              (EvidenceNotStored in r.codes <==> actual.status == Pass && actual == fact && c.statement == None)
    ensures actual.status == Pass
            <==> exists b :: AreNodes(nodes, b) && IsAccepted(checks, Index(nodes), parent, c.child, b)
    ensures actual.status == Pass ==>
              && actual.codes == {} && AreNodes(nodes, actual.agents)
              && IsAccepted(checks, Index(nodes), parent, c.child, actual.agents)
  {
    hide AreNodes, IsAccepted, Index, AllDecode, AddAll, DecisionRequirements, InOrder, DecisionSound, DecisionAgrees;
    var cap := Cap(maxPopulation);
    actual := VerifyBranch(checks, nodes, parent, c.child);
    if |items| > cap { return Partition(Fail, map[], {SourceLimit}), actual; }
    if actual.status != Pass { return Partition(actual.status, map[], OfBranchCodes(actual.codes)), actual; }
    AcceptedIsBranch(checks, Index(nodes), parent, c.child, actual.agents);
    BranchIsStored(nodes, actual.agents);
    if IsAccepted(checks, Index(nodes), parent, c.child, fact.agents) {
      AcceptedOnce(checks, Index(nodes), parent, c.child, actual.agents, fact.agents);
    }
    if actual != fact { return Partition(Fail, map[], {BranchDivergent}), actual; }
    r := Compare(env, readable, c, p, cap, items, InOrder(nodes, actual.agents));
  }
}
