/**
 * The frozen items of an operation against what it needs: the DECISION part rests on the candidate
 * and its branch, the POPULATION part on every other counted home. Both parts passing is an exact
 * cover, and freezes exactly the needs that the preflight derives.
 */
module FrozenCover {
  import opened Prelude
  import opened Needs
  import L = Lineage

  datatype Verdict = Pass | Fail | NotEvaluated

  /** `aggregate`: a contradiction dominates, and nothing at all is no pass. */
  function Aggregate(values: seq<Verdict>): Verdict {
    if Fail in values then Fail
    else if values != [] && forall i | 0 <= i < |values| :: values[i] == Pass then Pass
    else NotEvaluated
  }

  lemma AggregateIs(values: seq<Verdict>)
    ensures Aggregate(values) == Fail <==> exists i :: 0 <= i < |values| && values[i] == Fail
    ensures Aggregate(values) == Pass <==> values != [] && forall i | 0 <= i < |values| :: values[i] == Pass
  {
    if values != [] && forall i | 0 <= i < |values| :: values[i] == Pass {
      assert Fail !in values;
    }
  }

  datatype Code =
    | DecisionRoleMismatch | AttestationMissing | AttestationUnexpected | FrozenItemDivergent
    | PopulationRoleMismatch | HistoricalUnavailable

  datatype Item = Item(decision: bool, key: Key, envelope: Hash)

  /** The items of a validated operation name every key once. */
  predicate DistinctItems(items: seq<Item>) { forall i, j | 0 <= i < j < |items| :: items[i].key != items[j].key }

  // ---- the decision part ------------------------------------------------------------------------

  /** Envelope digests the operation presents its three records with, and their record digests. */
  datatype Presented = Presented(envelopes: seq<Hash>, records: seq<Hash>)

  predicate PresentedWell(p: Presented) { |p.envelopes| == 3 && |p.records| == 3 }

  function PresentedRequirements(c: Candidate, p: Presented): seq<Requirement>
    requires PresentedWell(p)
  {
    var q := CandidateRequirements(c);
    [q[0].(envelope := Some(p.envelopes[0])), q[1].(envelope := Some(p.envelopes[1])),
     q[2].(envelope := Some(p.envelopes[2]))]
  }

  /** An agent of the branch: its individual record, and those of its birth unless it is a founder. */
  function NodeRequirements(h: Home): seq<Requirement>
    requires h.base.record.Present?
  {
    [IndividualRequirement(h, h.base.record.value)]
    + (if h.base.record.value.role == L.Founder then [] else BirthRequirements(h))
  }

  function NodesRequirements(nodes: seq<Home>): seq<Requirement>
    requires forall h | h in nodes :: h.base.record.Present?
  {
    if nodes == [] then [] else NodesRequirements(nodes[..|nodes| - 1]) + NodeRequirements(nodes[|nodes| - 1])
  }

  function DecisionRequirements(c: Candidate, p: Presented, nodes: seq<Home>): seq<Requirement>
    requires PresentedWell(p) && forall h | h in nodes :: h.base.record.Present?
  {
    PresentedRequirements(c, p) + NodesRequirements(nodes)
  }

  /** Presented record `i` is the one the operation names by digest. */
  predicate PresentedAt(env: DocEnv, c: Candidate, p: Presented, i: nat)
    requires PresentedWell(p) && i < 3
  {
    var q := CandidateRequirements(c)[i];
    q.raw.Some? && KeyOf(env, q.kind, q.raw.value).Some?
      && KeyOf(env, q.kind, q.raw.value).value.recordSha == p.records[i]
  }

  predicate PresentedMatch(env: DocEnv, c: Candidate, p: Presented)
    requires PresentedWell(p)
  {
    PresentedAt(env, c, p, 0) && PresentedAt(env, c, p, 1) && PresentedAt(env, c, p, 2)
  }

  /** A record that was read, whose canonical bytes have this digest. */
  predicate ReadsWith(env: DocEnv, kind: Kind, raw: bytes, sha: Hash) {
    env.read(kind, raw).Some? && env.sha(env.read(kind, raw).value.canonical) == sha
  }

  /** The presented records match exactly if the three digests are those of admission, qualification and statement. */
  lemma PresentedMeans(env: DocEnv, c: Candidate, p: Presented)
    requires PresentedWell(p)
    ensures PresentedMatch(env, c, p)
            <==> && ReadsWith(env, Admission, c.admission, p.records[0])
                 && ReadsWith(env, Qualification, c.qualification, p.records[1])
                 && c.statement.Some? && ReadsWith(env, Statement, c.statement.value, p.records[2])
  {
  }

  /** The frozen items by key, with their role and envelope. */
  function Frozen(items: seq<Item>): map<Key, (bool, Hash)> {
    if items == [] then map[]
    else
      var last := items[|items| - 1];
      Frozen(items[..|items| - 1])[last.key := (last.decision, last.envelope)]
  }

  predicate HasItem(items: seq<Item>, k: Key) { exists i :: 0 <= i < |items| && items[i].key == k }

  lemma OneMoreKey(items: seq<Item>, n: nat, k: Key)
    requires n < |items|
    ensures HasItem(items[..n + 1], k) <==> HasItem(items[..n], k) || items[n].key == k
  {
    if HasItem(items[..n], k) {
      var i :| 0 <= i < n && items[..n][i].key == k;
      assert items[..n + 1][i].key == k;
    }
    assert items[..n + 1][n] == items[n];
  }

  lemma {:induction false} FrozenHas(items: seq<Item>, k: Key)
    ensures k in Frozen(items) <==> HasItem(items, k)
  {
    hide HasItem;
    if items != [] {
      var n := |items| - 1;
      FrozenHas(items[..n], k);
      OneMoreKey(items, n, k);
      assert items[..n + 1] == items;
    } else {
      NoItem(k);
    }
  }

  lemma NoItem(k: Key)
    ensures !HasItem([], k)
  {
  }

  lemma {:induction false} FrozenItem(items: seq<Item>, i: nat)
    requires DistinctItems(items) && i < |items|
    ensures items[i].key in Frozen(items) && Frozen(items)[items[i].key] == (items[i].decision, items[i].envelope)
  {
    var n := |items| - 1;
    if i < n {
      FrozenItem(items[..n], i);
      assert items[..n][i] == items[i] && items[i].key != items[n].key;
    }
  }

  lemma FrozenKeys(items: seq<Item>)
    ensures forall k :: k in Frozen(items) <==> exists i :: 0 <= i < |items| && items[i].key == k
    ensures DistinctItems(items) ==>
              forall i | 0 <= i < |items| ::
                items[i].key in Frozen(items) && Frozen(items)[items[i].key] == (items[i].decision, items[i].envelope)
  {
    hide Frozen;
    forall k ensures k in Frozen(items) <==> exists i :: 0 <= i < |items| && items[i].key == k { FrozenHas(items, k); }
    if DistinctItems(items) {
      forall i | 0 <= i < |items|
        ensures items[i].key in Frozen(items) && Frozen(items)[items[i].key] == (items[i].decision, items[i].envelope)
      {
        FrozenItem(items, i);
      }
    }
  }

  /** The keys frozen with the decision role, or with the population role. */
  function KeysWithRole(items: seq<Item>, decision: bool): set<Key> {
    set k | k in Frozen(items) && Frozen(items)[k].0 == decision
  }

  // ---- the envelopes of a need --------------------------------------------------------------------

  /** A stored requirement with this key. */
  predicate Asks(env: DocEnv, q: Requirement, k: Key) { q.raw.Some? && KeyOf(env, q.kind, q.raw.value) == Some(k) }

  /** What a need says of the requirements behind it: their record, and all their places and envelopes. */
  ghost predicate NeedSays(env: DocEnv, qs: seq<Requirement>, k: Key, n: Need) {
    && (forall q | q in qs && Asks(env, q, k) :: env.read(q.kind, q.raw.value).value.canonical == n.record)
    && (forall s :: s in n.namespaces <==> exists q :: q in qs && Asks(env, q, k) && q.namespace == s)
    && (forall e :: e in n.envelopes <==> exists q :: q in qs && Asks(env, q, k) && q.envelope == Some(e))
  }

  /** Every need of a derivation without divergent records says what its requirements say. */
  lemma {:induction false} NeedsSay(env: DocEnv, qs: seq<Requirement>, k: Key)
    requires !AddAll(env, NOTHING, qs).divergent && k in AddAll(env, NOTHING, qs).needs
    ensures NeedSays(env, qs, k, AddAll(env, NOTHING, qs).needs[k])
    decreases |qs|
  {
    var n := |qs| - 1;
    var before, q := AddAll(env, NOTHING, qs[..n]), qs[n];
    assert qs == qs[..n] + [q];
    if k in before.needs {
      NeedsSay(env, qs[..n], k);
      NeedGrows(env, qs[..n], before, q, k);
    } else {
      AddAllKeys(env, NOTHING, qs[..n]);
      NeedStarts(env, qs[..n], before, q, k);
    }
  }

  lemma NeedGrows(env: DocEnv, qs: seq<Requirement>, d: Derivation, q: Requirement, k: Key)
    requires k in d.needs && NeedSays(env, qs, k, d.needs[k]) && !Added(env, d, q).divergent
    ensures k in Added(env, d, q).needs && NeedSays(env, qs + [q], k, Added(env, d, q).needs[k])
  {
    var n, next, all := d.needs[k], Added(env, d, q).needs[k], qs + [q];
    assert forall x :: x in all <==> x in qs || x == q;
    forall s ensures s in next.namespaces <==> exists x :: x in all && Asks(env, x, k) && x.namespace == s {
      assert s in n.namespaces <==> exists x :: x in qs && Asks(env, x, k) && x.namespace == s;
      if Asks(env, q, k) && q.namespace == s { assert q in all; }
    }
    forall e ensures e in next.envelopes <==> exists x :: x in all && Asks(env, x, k) && x.envelope == Some(e) {
      assert e in n.envelopes <==> exists x :: x in qs && Asks(env, x, k) && x.envelope == Some(e);
      if Asks(env, q, k) && q.envelope == Some(e) { assert q in all; }
    }
  }

  lemma NeedStarts(env: DocEnv, qs: seq<Requirement>, d: Derivation, q: Requirement, k: Key)
    requires k !in d.needs && k in Added(env, d, q).needs && forall x | x in qs :: !Asks(env, x, k)
    ensures NeedSays(env, qs + [q], k, Added(env, d, q).needs[k])
  {
    assert forall x :: x in qs + [q] <==> x in qs || x == q;
    assert Asks(env, q, k);
  }

  /** The key of presented record `i`. */
  function PresentedKey(env: DocEnv, c: Candidate, i: nat): Option<Key>
    requires i < 3
  {
    var q := CandidateRequirements(c)[i];
    if q.raw.Some? then KeyOf(env, q.kind, q.raw.value) else None
  }

  lemma {:induction false} NodesNameNoEnvelope(nodes: seq<Home>)
    requires forall h | h in nodes :: h.base.record.Present?
    ensures forall q | q in NodesRequirements(nodes) :: q.envelope == None
  {
    if nodes != [] { NodesNameNoEnvelope(nodes[..|nodes| - 1]); }
  }

  /** The envelopes of a need are those that presented records of its key were presented with. */
  lemma EnvelopesArePresented(env: DocEnv, c: Candidate, p: Presented, nodes: seq<Home>, k: Key)
    requires PresentedWell(p) && forall h | h in nodes :: h.base.record.Present?
    requires var d := AddAll(env, NOTHING, DecisionRequirements(c, p, nodes)); !d.divergent && k in d.needs
    ensures forall e :: e in AddAll(env, NOTHING, DecisionRequirements(c, p, nodes)).needs[k].envelopes
              <==> exists i: nat :: i < 3 && PresentedKey(env, c, i) == Some(k) && p.envelopes[i] == e
  {
    hide AddAll, DecisionRequirements, Asks, PresentedKey;
    var qs := DecisionRequirements(c, p, nodes);
    NeedsSay(env, qs, k);
    forall e
      ensures e in AddAll(env, NOTHING, qs).needs[k].envelopes
              <==> exists i: nat :: i < 3 && PresentedKey(env, c, i) == Some(k) && p.envelopes[i] == e
    {
      assert e in AddAll(env, NOTHING, qs).needs[k].envelopes
             <==> exists q :: q in qs && Asks(env, q, k) && q.envelope == Some(e);
      if q :| q in qs && Asks(env, q, k) && q.envelope == Some(e) {
        var i := PresentedOf(env, c, p, nodes, k, e, q);
      }
      if i: nat :| i < 3 && PresentedKey(env, c, i) == Some(k) && p.envelopes[i] == e {
        PresentedAsks(env, c, p, nodes, k, e, i);
      }
    }
  }

  lemma PresentedOf(env: DocEnv, c: Candidate, p: Presented, nodes: seq<Home>, k: Key, e: Hash, q: Requirement)
    returns (i: nat)
    requires PresentedWell(p) && forall h | h in nodes :: h.base.record.Present?
    requires q in DecisionRequirements(c, p, nodes) && Asks(env, q, k) && q.envelope == Some(e)
    ensures i < 3 && PresentedKey(env, c, i) == Some(k) && p.envelopes[i] == e
  {
    hide NodesRequirements;
    NodesNameNoEnvelope(nodes);
    var presented := PresentedRequirements(c, p);
    assert q in presented;
    i :| 0 <= i < |presented| && presented[i] == q;
  }

  lemma PresentedAsks(env: DocEnv, c: Candidate, p: Presented, nodes: seq<Home>, k: Key, e: Hash, i: nat)
    requires PresentedWell(p) && forall h | h in nodes :: h.base.record.Present?
    requires i < 3 && PresentedKey(env, c, i) == Some(k) && p.envelopes[i] == e
    ensures exists q :: q in DecisionRequirements(c, p, nodes) && Asks(env, q, k) && q.envelope == Some(e)
  {
    hide NodesRequirements;
    var presented := PresentedRequirements(c, p);
    assert presented[i] in presented && presented[i] in DecisionRequirements(c, p, nodes);
    assert Asks(env, presented[i], k);
  }

  /** Does the envelope a decision need was presented with differ from the frozen one? */
  predicate Conflicts(n: Need, envelope: Hash) { n.envelopes != {} && n.envelopes != {envelope} }

  lemma ConflictIsOther(n: Need, envelope: Hash)
    ensures Conflicts(n, envelope) <==> exists e :: e in n.envelopes && e != envelope
  {
    if n.envelopes != {} && forall e | e in n.envelopes :: e == envelope {
      var e :| e in n.envelopes;
      assert n.envelopes == {envelope};
    }
  }

  /** The items of the decision role in a dict; `mismatch` is a need frozen with the other role. */
  method CollectDecision(items: seq<Item>, needs: map<Key, Need>) returns (frozen: map<Key, Hash>, mismatch: bool)
    requires DistinctItems(items)
    ensures frozen.Keys == KeysWithRole(items, true)
    ensures forall k | k in frozen :: Frozen(items)[k] == (true, frozen[k])
    ensures mismatch <==> exists k :: k in needs && k in KeysWithRole(items, false)
  {
    hide Frozen, KeysWithRole, DistinctItems;
    frozen, mismatch := map[], false;
    NoItems();
    for n := 0 to |items|
      invariant frozen.Keys == KeysWithRole(items[..n], true)
      invariant forall k | k in frozen :: k in Frozen(items[..n]) && Frozen(items[..n])[k] == (true, frozen[k])
      invariant mismatch <==> exists k :: k in needs && k in KeysWithRole(items[..n], false)
    {
      var item := items[n];
      OneMoreItem(items, n);
      if item.decision {
        frozen := frozen[item.key := item.envelope];
      } else if item.key in needs {
        assert item.key in KeysWithRole(items[..n + 1], false);
        mismatch := true;
      }
    }
    assert items[..|items|] == items;
  }

  lemma NoItems()
    ensures Frozen([]) == map[] && forall d :: KeysWithRole([], d) == {}
  {
  }

  function CodesOf(mismatch: bool, missing: bool, unexpected: bool, divergent: bool): (codes: set<Code>)
    ensures DecisionRoleMismatch in codes <==> mismatch
    ensures AttestationMissing in codes <==> missing
    ensures AttestationUnexpected in codes <==> unexpected
    ensures FrozenItemDivergent in codes <==> divergent
    ensures codes <= {DecisionRoleMismatch, AttestationMissing, AttestationUnexpected, FrozenItemDivergent}
    ensures codes == {} <==> !mismatch && !missing && !unexpected && !divergent
  {
    (if mismatch then {DecisionRoleMismatch} else {}) + (if missing then {AttestationMissing} else {})
    + (if unexpected then {AttestationUnexpected} else {}) + (if divergent then {FrozenItemDivergent} else {})
  }

  /** What the decision codes say. */
  ghost predicate DecisionCodes(items: seq<Item>, needs: map<Key, Need>, codes: set<Code>) {
    var decision, population := KeysWithRole(items, true), KeysWithRole(items, false);
    && (DecisionRoleMismatch in codes <==> exists k :: k in needs && k in population)
    && (AttestationMissing in codes <==> exists k :: k in needs && k !in decision)
    && (AttestationUnexpected in codes <==> exists k :: k in decision && k !in needs)
    && (FrozenItemDivergent in codes
        <==> exists k, e :: k in needs && k in decision && e in needs[k].envelopes && e != Frozen(items)[k].1)
    && codes <= {DecisionRoleMismatch, AttestationMissing, AttestationUnexpected, FrozenItemDivergent}
  }

  /** The decision part, against needs that were derived without looking at the items. */
  method DecisionPartition(items: seq<Item>, needs: map<Key, Need>) returns (codes: set<Code>, bound: map<Key, Need>)
    requires DistinctItems(items)
    ensures DecisionCodes(items, needs, codes)
    ensures bound.Keys == needs.Keys
    ensures forall k | k in needs ::
              bound[k] == if k in KeysWithRole(items, true)
                          then needs[k].(envelopes := {Frozen(items)[k].1}) else needs[k]
  {
    hide DistinctItems, Conflicts;
    var frozen, mismatch := CollectDecision(items, needs);
    hide KeysWithRole;
    var missing := exists k :: k in needs && k !in frozen;
    var unexpected := exists k :: k in frozen && k !in needs;
    var divergent := exists k :: k in needs && k in frozen && Conflicts(needs[k], frozen[k]);
    assert unexpected <==> exists k :: k in KeysWithRole(items, true) && k !in needs by {
      if unexpected { var k :| k in frozen && k !in needs; assert k in frozen.Keys; }
      if k :| k in KeysWithRole(items, true) && k !in needs { assert k in frozen.Keys; }
    }
    assert divergent
           <==> exists k, e :: k in needs && k in KeysWithRole(items, true) && e in needs[k].envelopes
                               && e != Frozen(items)[k].1 by {
      forall k | k in needs && k in frozen
        ensures Conflicts(needs[k], frozen[k]) <==> exists e :: e in needs[k].envelopes && e != Frozen(items)[k].1
      {
        ConflictIsOther(needs[k], frozen[k]);
      }
      assert forall k :: k in frozen <==> k in KeysWithRole(items, true);
    }
    codes := CodesOf(mismatch, missing, unexpected, divergent);
    hide CodesOf;
    assert DecisionCodes(items, needs, codes);
    bound := map k | k in needs :: if k in frozen then needs[k].(envelopes := {frozen[k]}) else needs[k];
  }

  lemma OneMoreItem(items: seq<Item>, n: nat)
    requires n < |items| && DistinctItems(items)
    ensures Frozen(items[..n + 1]) == Frozen(items[..n])[items[n].key := (items[n].decision, items[n].envelope)]
    ensures items[n].key !in Frozen(items[..n])
    ensures forall d :: KeysWithRole(items[..n + 1], d)
                        == KeysWithRole(items[..n], d) + (if d == items[n].decision then {items[n].key} else {})
  {
    assert items[..n + 1][..n] == items[..n];
    FrozenKeys(items[..n]);
    forall i | 0 <= i < |items[..n]| ensures items[..n][i].key != items[n].key {
      assert items[..n][i] == items[i];
    }
  }

  // ---- the population part ------------------------------------------------------------------------

  datatype Class = Included | ExcludedOwn | Unclassified | Blocking

  /** A classified home with the envelopes stored beside its records. */
  datatype Housed = Housed(
    home: Home,
    class_: Class,
    individual: Option<bytes>,
    admission: Option<bytes>,
    qualification: Option<bytes>,
    statement: Option<bytes>)

  /** One stored copy of an envelope; the digest is None when it is absent or cannot be decoded. */
  datatype Copy = Copy(key: Key, namespace: string, digest: Option<Hash>)

  type EnvelopeDigest = bytes -> Option<Hash>

  function DigestOf(digest: EnvelopeDigest, raw: Option<bytes>): Option<Hash> {
    if raw.Some? then digest(raw.value) else None
  }

  /** The records of a counted home can be keyed: it was classified before. */
  predicate Keyed(env: DocEnv, h: Housed) {
    && HasRole(h.home)
    && KeyOf(env, Individual, h.home.base.record.value.body).Some?
    && (h.home.individualEnvelope <==> h.individual.Some?)
    && (h.home.base.record.value.role == L.Descendant ==>
          && h.home.admission.Some? && KeyOf(env, Admission, h.home.admission.value).Some?
          && h.home.qualification.Some? && KeyOf(env, Qualification, h.home.qualification.value).Some?
          && h.home.statement.Some? && KeyOf(env, Statement, h.home.statement.value).Some?)
  }

  function IndividualKey(env: DocEnv, h: Housed): Key
    requires Keyed(env, h)
  {
    KeyOf(env, Individual, h.home.base.record.value.body).value
  }

  /** The copies a counted home holds: of its individual record if it has an envelope, and of its birth. */
  function CopiesOf(env: DocEnv, digest: EnvelopeDigest, h: Housed): seq<Copy>
    requires Keyed(env, h)
  {
    var id := h.home.base.agentId;
    (if h.individual.Some? then
       [Copy(IndividualKey(env, h), id + "/individual", DigestOf(digest, h.individual))]
     else [])
    + (if h.home.base.record.value.role == L.Descendant then
         [Copy(KeyOf(env, Admission, h.home.admission.value).value, id + "/admission", DigestOf(digest, h.admission)),
          Copy(KeyOf(env, Qualification, h.home.qualification.value).value, id + "/qualification",
               DigestOf(digest, h.qualification)),
          Copy(KeyOf(env, Statement, h.home.statement.value).value, id + "/statement", DigestOf(digest, h.statement))]
       else [])
  }

  /** What a home stores of each kind: the record, the envelope beside it, and its place. */
  function Shelf(h: Housed, kind: Kind): (Option<bytes>, Option<bytes>, string)
    requires h.home.base.record.Present?
  {
    var record, id := h.home.base.record.value, h.home.base.agentId;
    match kind
    case Individual => (if h.individual.Some? then Some(record.body) else None, h.individual, id + "/individual")
    case Admission =>
      (if record.role == L.Descendant then h.home.admission else None, h.admission, id + "/admission")
    case Qualification =>
      (if record.role == L.Descendant then h.home.qualification else None, h.qualification, id + "/qualification")
    case Statement =>
      (if record.role == L.Descendant then h.home.statement else None, h.statement, id + "/statement")
  }

  /** A copy pairs the key of a stored record with the digest of the envelope beside that record. */
  predicate IsCopy(env: DocEnv, digest: EnvelopeDigest, h: Housed, c: Copy)
    requires h.home.base.record.Present?
  {
    var shelf := Shelf(h, c.key.kind);
    && shelf.0.Some? && KeyOf(env, c.key.kind, shelf.0.value) == Some(c.key) && c.namespace == shelf.2
    && c.digest == (if shelf.1.Some? then digest(shelf.1.value) else None)
  }

  /** A counted home holds exactly the copies on its shelves. */
  lemma CopiesAre(env: DocEnv, digest: EnvelopeDigest, h: Housed, c: Copy)
    requires Keyed(env, h)
    ensures c in CopiesOf(env, digest, h) <==> IsCopy(env, digest, h, c)
  {
  }

  /** Counted homes outside the branch that are not the candidate's own. */
  predicate IsOther(h: Housed, branch: set<string>, own: Option<string>) {
    h.home.base.agentId !in branch && Some(h.home.base.agentId) != own && h.class_ == Included
  }

  function AllCopies(env: DocEnv, digest: EnvelopeDigest, homes: seq<Housed>, branch: set<string>,
                     own: Option<string>): seq<Copy>
    requires forall h | h in homes && IsOther(h, branch, own) :: Keyed(env, h)
  {
    if homes == [] then []
    else
      var h := homes[|homes| - 1];
      AllCopies(env, digest, homes[..|homes| - 1], branch, own)
        + (if IsOther(h, branch, own) then CopiesOf(env, digest, h) else [])
  }

  function CopyKeys(copies: seq<Copy>): set<Key> { set c | c in copies :: c.key }

  /** A copied key is frozen as it must be: a decision key as DECISION, any other as POPULATION. */
  predicate CopyAgrees(items: seq<Item>, decisionKeys: set<Key>, c: Copy) {
    && c.key in Frozen(items)
    && Frozen(items)[c.key].0 == (c.key in decisionKeys)
    && c.digest == Some(Frozen(items)[c.key].1)
  }

  /** The code a copy draws, if any: it diverges, has the other role, or is not frozen and cannot be late. */
  predicate CopyDraws(items: seq<Item>, decisionKeys: set<Key>, late: set<Key>, c: Copy, code: Code) {
    var frozen := Frozen(items);
    match code
    case FrozenItemDivergent =>
      if c.key in decisionKeys then !(c.key in frozen && frozen[c.key].0 && c.digest == Some(frozen[c.key].1))
      else c.key in frozen && !frozen[c.key].0 && c.digest != Some(frozen[c.key].1)
    case PopulationRoleMismatch => c.key !in decisionKeys && c.key in frozen && frozen[c.key].0
    case AttestationMissing => c.key !in decisionKeys && c.key !in frozen && c.key !in late
    case _ => false
  }

  /** A POPULATION item that no copy and no decision need asks for: its record is absent, or it is not expected. */
  ghost predicate ItemDraws(item: Item, decisionKeys: set<Key>, copies: seq<Copy>, absent: set<Key>, code: Code) {
    && !item.decision && item.key !in decisionKeys && (forall c | c in copies :: c.key != item.key)
    && code == (if item.key in absent then AttestationMissing else AttestationUnexpected)
  }

  /** The verdict of the population part, over the copies and the frozen items. */
  ghost predicate PopulationAgrees(items: seq<Item>, decisionKeys: set<Key>, copies: seq<Copy>) {
    && (forall c | c in copies :: CopyAgrees(items, decisionKeys, c))
    && (forall k | k in KeysWithRole(items, false) :: k in CopyKeys(copies) || k in decisionKeys)
  }

  /** `_partition`: every copy against its item, then every POPULATION item against the copies. */
  method PopulationPartition(items: seq<Item>, decisionKeys: set<Key>, copies: seq<Copy>, absent: set<Key>,
                             late: set<Key>)
    returns (verdict: Verdict, codes: set<Code>)
    requires DistinctItems(items)
    ensures verdict == Pass <==> PopulationAgrees(items, decisionKeys, copies)
    ensures verdict == NotEvaluated <==>
              (&& (exists c :: c in copies && c.key !in decisionKeys && c.key !in Frozen(items) && c.key in late)
               && (forall c | c in copies ::
                    CopyAgrees(items, decisionKeys, c)
                    || (c.key !in decisionKeys && c.key !in Frozen(items) && c.key in late))
               && (forall k | k in KeysWithRole(items, false) :: k in CopyKeys(copies) || k in decisionKeys))
    ensures verdict == Pass ==> codes == {}
    ensures verdict == NotEvaluated ==> codes == {HistoricalUnavailable}
    ensures verdict == Fail ==> codes != {} && forall code :: code in codes <==>
              (exists c :: c in copies && CopyDraws(items, decisionKeys, late, c, code))
              || (exists i :: 0 <= i < |items| && ItemDraws(items[i], decisionKeys, copies, absent, code))
  {
    hide CopyDraws, ItemDraws, CopyAgrees, Frozen;
    codes := CopyCodes(items, decisionKeys, copies, late);
    ghost var copied := codes;
    for n := 0 to |items|
      invariant forall code :: code in codes
                  <==> (code in copied
                        || exists i :: 0 <= i < n && ItemDraws(items[i], decisionKeys, copies, absent, code))
    {
      var item := items[n];
      CodeOfItem(item, decisionKeys, copies, absent);
      if !item.decision && item.key !in CopyKeys(copies) && item.key !in decisionKeys {
        codes := codes + {if item.key in absent then AttestationMissing else AttestationUnexpected};
      }
    }
    NoCodes(items, decisionKeys, copies, absent, late, codes);
    if codes != {} { return Fail, codes; }
    if exists i :: 0 <= i < |copies| && IsLate(items, decisionKeys, late, copies[i]) {
      LateCopies(items, decisionKeys, copies, late);
      return NotEvaluated, {HistoricalUnavailable};
    }
    return Pass, {};
  }

  /** A copied individual record that no item names, and whose home may have been stored later. */
  predicate IsLate(items: seq<Item>, decisionKeys: set<Key>, late: set<Key>, c: Copy) {
    c.key !in decisionKeys && c.key !in Frozen(items) && c.key in late
  }

  lemma LateCopies(items: seq<Item>, decisionKeys: set<Key>, copies: seq<Copy>, late: set<Key>)
    requires exists i :: 0 <= i < |copies| && IsLate(items, decisionKeys, late, copies[i])
    ensures exists c :: c in copies && IsLate(items, decisionKeys, late, c) && !CopyAgrees(items, decisionKeys, c)
  {
    hide Frozen;
    var i :| 0 <= i < |copies| && IsLate(items, decisionKeys, late, copies[i]);
    assert copies[i] in copies;
  }

  lemma CodeOfItem(item: Item, decisionKeys: set<Key>, copies: seq<Copy>, absent: set<Key>)
    ensures forall code :: ItemDraws(item, decisionKeys, copies, absent, code)
              <==> !item.decision && item.key !in CopyKeys(copies) && item.key !in decisionKeys
                   && code == (if item.key in absent then AttestationMissing else AttestationUnexpected)
  {
    assert item.key in CopyKeys(copies) <==> exists c :: c in copies && c.key == item.key;
  }

  /** The loop over the copies. */
  method CopyCodes(items: seq<Item>, decisionKeys: set<Key>, copies: seq<Copy>, late: set<Key>)
    returns (codes: set<Code>)
    ensures forall code :: code in codes <==>
              exists c :: c in copies && CopyDraws(items, decisionKeys, late, c, code)
  {
    hide CopyDraws;
    codes := {};
    for n := 0 to |copies|
      invariant forall code :: code in codes <==>
                  exists i :: 0 <= i < n && CopyDraws(items, decisionKeys, late, copies[i], code)
    {
      var code := CheckCopy(items, decisionKeys, late, copies[n]);
      if code.Some? { codes := codes + {code.value}; }
    }
    forall code ensures code in codes <==> exists c :: c in copies && CopyDraws(items, decisionKeys, late, c, code) {
      if c :| c in copies && CopyDraws(items, decisionKeys, late, c, code) {
        var i :| 0 <= i < |copies| && copies[i] == c;
      }
    }
  }

  /** One copy: the one code it draws. */
  method CheckCopy(items: seq<Item>, decisionKeys: set<Key>, late: set<Key>, c: Copy) returns (code: Option<Code>)
    ensures forall x :: code == Some(x) <==> CopyDraws(items, decisionKeys, late, c, x)
  {
    var frozen := Frozen(items);
    if c.key in decisionKeys {
      var agrees := c.key in frozen && frozen[c.key].0 && c.digest == Some(frozen[c.key].1);
      return if agrees then None else Some(FrozenItemDivergent);
    }
    if c.key !in frozen { return if c.key in late then None else Some(AttestationMissing); }
    if frozen[c.key].0 { return Some(PopulationRoleMismatch); }
    return if c.digest != Some(frozen[c.key].1) then Some(FrozenItemDivergent) else None;
  }

  /** A copy draws no code exactly if it agrees or may be late. */
  lemma NoCode(items: seq<Item>, decisionKeys: set<Key>, late: set<Key>, c: Copy)
    ensures (forall x :: !CopyDraws(items, decisionKeys, late, c, x))
            <==> CopyAgrees(items, decisionKeys, c) || IsLate(items, decisionKeys, late, c)
  {
    hide Frozen;
    assert !CopyDraws(items, decisionKeys, late, c, FrozenItemDivergent)
           && !CopyDraws(items, decisionKeys, late, c, PopulationRoleMismatch)
           && !CopyDraws(items, decisionKeys, late, c, AttestationMissing)
           <==> CopyAgrees(items, decisionKeys, c) || IsLate(items, decisionKeys, late, c);
  }

  lemma NoCodes(items: seq<Item>, decisionKeys: set<Key>, copies: seq<Copy>, absent: set<Key>, late: set<Key>,
                codes: set<Code>)
    requires DistinctItems(items)
    requires forall code :: code in codes <==>
               (exists c :: c in copies && CopyDraws(items, decisionKeys, late, c, code))
               || (exists i :: 0 <= i < |items| && ItemDraws(items[i], decisionKeys, copies, absent, code))
    ensures codes == {} <==>
              && (forall c | c in copies ::
                    CopyAgrees(items, decisionKeys, c) || IsLate(items, decisionKeys, late, c))
              && (forall k | k in KeysWithRole(items, false) :: k in CopyKeys(copies) || k in decisionKeys)
  {
    hide CopyDraws, ItemDraws, CopyAgrees, IsLate, Frozen, DistinctItems, KeysWithRole;
    PopulationItems(items, decisionKeys, copies);
    forall c | c in copies
      ensures (forall x :: !CopyDraws(items, decisionKeys, late, c, x))
              <==> CopyAgrees(items, decisionKeys, c) || IsLate(items, decisionKeys, late, c)
    {
      NoCode(items, decisionKeys, late, c);
    }
    forall i | 0 <= i < |items|
      ensures (forall x :: !ItemDraws(items[i], decisionKeys, copies, absent, x))
              <==> items[i].decision || items[i].key in CopyKeys(copies) || items[i].key in decisionKeys
    {
      var item := items[i];
      CodeOfItem(item, decisionKeys, copies, absent);
      var x := if item.key in absent then AttestationMissing else AttestationUnexpected;
      assert ItemDraws(item, decisionKeys, copies, absent, x)
             <==> !item.decision && item.key !in CopyKeys(copies) && item.key !in decisionKeys;
    }
    if codes == {} {
      forall c, x | c in copies ensures !CopyDraws(items, decisionKeys, late, c, x) { assert x !in codes; }
      forall i, x | 0 <= i < |items| ensures !ItemDraws(items[i], decisionKeys, copies, absent, x) {
        assert x !in codes;
      }
    } else {
      var code :| code in codes;
    }
  }

  lemma PopulationItems(items: seq<Item>, decisionKeys: set<Key>, copies: seq<Copy>)
    requires DistinctItems(items)
    ensures (forall i | 0 <= i < |items| ::
              !items[i].decision ==> items[i].key in CopyKeys(copies) || items[i].key in decisionKeys)
            <==> forall k | k in KeysWithRole(items, false) :: k in CopyKeys(copies) || k in decisionKeys
  {
    hide CopyKeys;
    FrozenKeys(items);
    forall k | k in KeysWithRole(items, false)
      ensures exists i :: 0 <= i < |items| && items[i].key == k && !items[i].decision
    {
      var i :| 0 <= i < |items| && items[i].key == k;
    }
  }

  // ---- the exact cover ----------------------------------------------------------------------------

  /** Each need is frozen once, in its one role, and every stored copy names the frozen envelope. */
  ghost predicate IsExactCover(items: seq<Item>, needs: map<Key, Need>, copies: seq<Copy>) {
    && KeysWithRole(items, true) == needs.Keys
    && KeysWithRole(items, false) == CopyKeys(copies) - needs.Keys
    && (forall c | c in copies :: c.key in Frozen(items) && c.digest == Some(Frozen(items)[c.key].1))
    && (forall k | k in needs :: k in Frozen(items) && forall e | e in needs[k].envelopes :: e == Frozen(items)[k].1)
  }

  /** The aggregate of both parts passes exactly when the frozen items are an exact cover of the needs. */
  lemma PassIsExactCover(items: seq<Item>, needs: map<Key, Need>, codes: set<Code>, copies: seq<Copy>,
                         population: Verdict)
    requires DistinctItems(items) && DecisionCodes(items, needs, codes)
    requires population == Pass <==> PopulationAgrees(items, needs.Keys, copies)
    ensures Aggregate([if codes == {} then Pass else Fail, population]) == Pass <==> IsExactCover(items, needs, copies)
  {
    hide Frozen, DistinctItems;
    CleanDecision(items, needs, codes);
    if codes == {} && population == Pass {
      forall c | c in copies ensures c.key in needs || c.key in KeysWithRole(items, false) {
        assert CopyAgrees(items, needs.Keys, c);
      }
    }
    if IsExactCover(items, needs, copies) {
      forall c | c in copies ensures CopyAgrees(items, needs.Keys, c) {
        assert c.key in CopyKeys(copies);
        assert c.key in KeysWithRole(items, true) || c.key in KeysWithRole(items, false);
      }
    }
    hide DecisionCodes, PopulationAgrees, IsExactCover;
    var values := [if codes == {} then Pass else Fail, population];
    assert values[0] == Pass <==> codes == {};
    assert values[1] == population;
  }

  /** No decision code: the decision items are the needs, and the presented envelopes are the frozen ones. */
  lemma CleanDecision(items: seq<Item>, needs: map<Key, Need>, codes: set<Code>)
    requires DecisionCodes(items, needs, codes)
    ensures codes == {} <==>
              (&& KeysWithRole(items, true) == needs.Keys
               && (forall k | k in needs ::
                     k in Frozen(items) && forall e | e in needs[k].envelopes :: e == Frozen(items)[k].1))
  {
    hide Frozen;
    if codes == {} {
      forall k | k in needs ensures k in KeysWithRole(items, true) {}
      assert KeysWithRole(items, true) == needs.Keys;
    } else {
      var code :| code in codes;
    }
  }

  // ---- frozen is derived ------------------------------------------------------------------------------

  lemma {:induction false} NodesKeys(env: DocEnv, nodes: seq<Home>)
    requires forall h | h in nodes :: h.base.record.Present?
    ensures forall k :: k in KeysOf(env, NodesRequirements(nodes))
                        <==> exists h :: h in nodes && k in KeysOf(env, NodeRequirements(h))
  {
    hide KeysOf, NodeRequirements;
    if nodes == [] {
      assert KeysOf(env, []) == {} by { NoKeys(env); }
    } else {
      var n := |nodes| - 1;
      NodesKeys(env, nodes[..n]);
      assert nodes == nodes[..n] + [nodes[n]];
      KeysOfConcat(env, NodesRequirements(nodes[..n]), NodeRequirements(nodes[n]));
    }
  }

  lemma NoKeys(env: DocEnv)
    ensures KeysOf(env, []) == {}
  {
  }

  /** An agent of the branch needs the same in both derivations. */
  lemma BranchHomeKeys(env: DocEnv, h: Home, branch: set<string>, potential: Option<string>)
    requires HasRole(h) && h.base.agentId in branch && (potential.Some? ==> potential.value !in branch)
    ensures HomeKeys(env, h, branch, potential) == KeysOf(env, NodeRequirements(h))
  {
    assert HomeRequirements(h, h.base.record.value, branch, potential) == NodeRequirements(h);
  }

  /** A counted home outside the branch needs what it holds copies for, if founders hold their envelope. */
  lemma OtherHomeKeys(env: DocEnv, digest: EnvelopeDigest, h: Housed, branch: set<string>, potential: Option<string>)
    requires Keyed(env, h) && h.home.base.agentId !in branch && Some(h.home.base.agentId) != potential
    requires IsFounder(h.home) ==> h.individual.Some?
    ensures HomeKeys(env, h.home, branch, potential) == CopyKeys(CopiesOf(env, digest, h))
  {
    var record := h.home.base.record.value;
    var qs, copies := HomeRequirements(h.home, record, branch, potential), CopiesOf(env, digest, h);
    assert |qs| == |copies|;
    assert forall i | 0 <= i < |qs| ::
        qs[i].raw.Some? && KeyOf(env, qs[i].kind, qs[i].raw.value) == Some(copies[i].key);
    SameKeys(env, qs, copies);
  }

  lemma SameKeys(env: DocEnv, qs: seq<Requirement>, copies: seq<Copy>)
    requires |qs| == |copies|
    requires forall i | 0 <= i < |qs| ::
               qs[i].raw.Some? && KeyOf(env, qs[i].kind, qs[i].raw.value) == Some(copies[i].key)
    ensures KeysOf(env, qs) == CopyKeys(copies)
  {
    hide KeyOf;
    forall k | k in CopyKeys(copies) ensures k in KeysOf(env, qs) {
      var i :| 0 <= i < |copies| && copies[i].key == k;
      assert qs[i] in qs;
    }
    forall k | k in KeysOf(env, qs) ensures k in CopyKeys(copies) {
      var i :| 0 <= i < |qs| && qs[i].raw.Some? && KeyOf(env, qs[i].kind, qs[i].raw.value) == Some(k);
      assert copies[i] in copies;
    }
  }

  lemma {:induction false} AllCopyKeys(env: DocEnv, digest: EnvelopeDigest, homes: seq<Housed>, branch: set<string>,
                                       own: Option<string>)
    requires forall h | h in homes && IsOther(h, branch, own) :: Keyed(env, h)
    ensures forall k :: k in CopyKeys(AllCopies(env, digest, homes, branch, own))
                        <==> exists h ::
                               && h in homes && h.class_ == Included && h.home.base.agentId !in branch
                               && Some(h.home.base.agentId) != own && IsOther(h, branch, own)
                               && k in CopyKeys(CopiesOf(env, digest, h))
  {
    hide CopiesOf, Keyed;
    if homes != [] {
      var n := |homes| - 1;
      AllCopyKeys(env, digest, homes[..n], branch, own);
      assert homes == homes[..n] + [homes[n]];
      if IsOther(homes[n], branch, own) {
        CopyKeysConcat(AllCopies(env, digest, homes[..n], branch, own), CopiesOf(env, digest, homes[n]));
      } else {
        assert AllCopies(env, digest, homes, branch, own) == AllCopies(env, digest, homes[..n], branch, own);
      }
    }
  }

  lemma CopyKeysConcat(a: seq<Copy>, b: seq<Copy>)
    ensures CopyKeys(a + b) == CopyKeys(a) + CopyKeys(b)
  {
  }

  function HomesOf(homes: seq<Housed>): seq<Home> { seq(|homes|, i requires 0 <= i < |homes| => homes[i].home) }

  /** Every home is classified: counted, or the candidate's own. */
  ghost predicate Classified(env: DocEnv, c: Candidate, homes: seq<Housed>, branch: set<string>, own: Option<string>) {
    && (forall h | h in homes :: Keyed(env, h))
    && (forall h | h in homes :: h.class_ == (if Some(h.home.base.agentId) == own then ExcludedOwn else Included))
    && (own.Some? ==> own.value !in branch)
    && (forall h | h in homes && Some(h.home.base.agentId) == own :: OwnPresents(env, c, h.home))
    && (forall h | h in homes && IsFounder(h.home) && h.home.base.agentId !in branch :: h.individual.Some?)
  }

  /** The homes of the branch, however ordered. */
  predicate NodesAre(nodes: seq<Home>, homes: seq<Housed>, branch: set<string>) {
    && (forall n | n in nodes :: n.base.agentId in branch && exists h :: h in homes && h.home == n)
    && (forall h | h in homes && h.home.base.agentId in branch :: h.home in nodes)
  }

  /**
   * The preflight derives exactly the union of the two parts' needs, when every home is classified and
   * every founder holds its envelope.
   */
  lemma DerivedIsUnion(env: DocEnv, digest: EnvelopeDigest, c: Candidate, p: Presented, homes: seq<Housed>,
                       nodes: seq<Home>, branch: set<string>, own: Option<string>)
    requires PresentedWell(p) && c.statement.Some? && Classified(env, c, homes, branch, own)
             && NodesAre(nodes, homes, branch)
    ensures forall n | n in nodes :: n.base.record.Present?
    ensures Derived(env, c, HomesOf(homes), branch, own).needs.Keys
            == KeysOf(env, DecisionRequirements(c, p, nodes)) + CopyKeys(AllCopies(env, digest, homes, branch, own))
  {
    forall n | n in nodes ensures HasRole(n) && n.base.record.Present? {
      var h :| h in homes && h.home == n;
    }
    hide Keyed, OwnPresents, HasRole, HomeKeys, CopiesOf, IsFounder, KeysOf, CopyKeys, Derived, AllCopies;
    hide NodeRequirements, NodesRequirements, CandidateRequirements, PresentedRequirements;
    var left := Derived(env, c, HomesOf(homes), branch, own).needs;
    var decision := KeysOf(env, DecisionRequirements(c, p, nodes));
    var population := CopyKeys(AllCopies(env, digest, homes, branch, own));
    NodesKeys(env, nodes);
    AllCopyKeys(env, digest, homes, branch, own);
    KeysOfConcat(env, PresentedRequirements(c, p), NodesRequirements(nodes));
    PresentedKeys(env, c, p);
    forall k ensures k in left <==> k in decision || k in population {
      DerivedKeys(env, c, HomesOf(homes), branch, own, k);
      UnionAt(env, digest, c, homes, nodes, branch, own, k);
    }
  }

  lemma PresentedKeys(env: DocEnv, c: Candidate, p: Presented)
    requires PresentedWell(p)
    ensures KeysOf(env, PresentedRequirements(c, p)) == KeysOf(env, CandidateRequirements(c))
  {
    var a, b := PresentedRequirements(c, p), CandidateRequirements(c);
    assert forall i | 0 <= i < 3 :: a[i].kind == b[i].kind && a[i].raw == b[i].raw;
    forall k | k in KeysOf(env, a) ensures k in KeysOf(env, b) {
      var i :| 0 <= i < 3 && a[i].raw.Some? && KeyOf(env, a[i].kind, a[i].raw.value) == Some(k);
      assert b[i] in b;
    }
    forall k | k in KeysOf(env, b) ensures k in KeysOf(env, a) {
      var i :| 0 <= i < 3 && b[i].raw.Some? && KeyOf(env, b[i].kind, b[i].raw.value) == Some(k);
      assert a[i] in a;
    }
  }

  /** One key: from a home's needs to the part it belongs to, and back. */
  lemma UnionAt(env: DocEnv, digest: EnvelopeDigest, c: Candidate, homes: seq<Housed>, nodes: seq<Home>,
                branch: set<string>, own: Option<string>, k: Key)
    requires c.statement.Some? && Classified(env, c, homes, branch, own) && NodesAre(nodes, homes, branch)
    requires forall n | n in nodes :: n.base.record.Present?
    ensures (k in KeysOf(env, CandidateRequirements(c))
            || exists g :: g in HomesOf(homes) && k in HomeKeys(env, g, branch, own))
            <==> (k in KeysOf(env, CandidateRequirements(c))
                  || (exists n :: n in nodes && k in KeysOf(env, NodeRequirements(n)))
                  || (exists h :: h in homes && IsOther(h, branch, own) && k in CopyKeys(CopiesOf(env, digest, h))))
  {
    hide HomeKeys, CopiesOf, KeysOf, CopyKeys, NodeRequirements, CandidateRequirements, Keyed, OwnPresents, IsFounder;
    forall h | h in homes
      ensures h.home in HomesOf(homes)
      ensures h.home.base.agentId in branch ==>
                h.home in nodes && HomeKeys(env, h.home, branch, own) == KeysOf(env, NodeRequirements(h.home))
      ensures Some(h.home.base.agentId) == own ==>
                HomeKeys(env, h.home, branch, own) <= KeysOf(env, CandidateRequirements(c))
      ensures IsOther(h, branch, own) ==> HomeKeys(env, h.home, branch, own) == CopyKeys(CopiesOf(env, digest, h))
    {
      HomePart(env, digest, c, homes, branch, own, h);
    }
    if g :| g in HomesOf(homes) && k in HomeKeys(env, g, branch, own) {
      var i :| 0 <= i < |homes| && homes[i].home == g;
      assert homes[i] in homes;
    }
    if n :| n in nodes && k in KeysOf(env, NodeRequirements(n)) {
      var h :| h in homes && h.home == n;
      assert h.home in HomesOf(homes);
    }
  }

  lemma HomePart(env: DocEnv, digest: EnvelopeDigest, c: Candidate, homes: seq<Housed>, branch: set<string>,
                 own: Option<string>, h: Housed)
    requires c.statement.Some? && Classified(env, c, homes, branch, own) && h in homes
    ensures h.home in HomesOf(homes) && h.home.base.record.Present?
    ensures h.home.base.agentId in branch ==>
              HomeKeys(env, h.home, branch, own) == KeysOf(env, NodeRequirements(h.home))
    ensures Some(h.home.base.agentId) == own ==>
              HomeKeys(env, h.home, branch, own) <= KeysOf(env, CandidateRequirements(c))
    ensures IsOther(h, branch, own) ==>
              Keyed(env, h) && HomeKeys(env, h.home, branch, own) == CopyKeys(CopiesOf(env, digest, h))
  {
    var i :| 0 <= i < |homes| && homes[i] == h;
    assert HomesOf(homes)[i] == h.home;
    hide HomeKeys, CopiesOf, KeysOf, CopyKeys, NodeRequirements, CandidateRequirements, OwnPresents;
    if h.home.base.agentId in branch {
      BranchHomeKeys(env, h.home, branch, own);
    } else if Some(h.home.base.agentId) == own {
      OwnHomeKeys(env, c, h.home, branch);
    } else {
      OtherHomeKeys(env, digest, h, branch, own);
    }
  }

  /**
   * A passing cover freezes exactly the derived needs, one item each, and so keeps to the bound on
   * needs.
   */
  lemma CoverIsDerived(env: DocEnv, digest: EnvelopeDigest, c: Candidate, p: Presented, homes: seq<Housed>,
                       nodes: seq<Home>,
                       branch: set<string>, own: Option<string>, items: seq<Item>, needs: map<Key, Need>)
    requires PresentedWell(p) && c.statement.Some? && Classified(env, c, homes, branch, own)
             && NodesAre(nodes, homes, branch)
    requires forall n | n in nodes :: n.base.record.Present?
    requires needs.Keys == KeysOf(env, DecisionRequirements(c, p, nodes))
    requires DistinctItems(items) && IsExactCover(items, needs, AllCopies(env, digest, homes, branch, own))
    requires forall g, h | g in homes && h in homes && g.home.base.agentId == h.home.base.agentId :: g == h
    ensures Frozen(items).Keys == Derived(env, c, HomesOf(homes), branch, own).needs.Keys
    ensures |items| == |Derived(env, c, HomesOf(homes), branch, own).needs|
    ensures (own.Some? ==> exists h :: h in homes && Some(h.home.base.agentId) == own) ==>
              |items| <= 4 * Population(HomesOf(homes), own) - 3 * Founders(HomesOf(homes), own) + 3
  {
    DerivedIsUnion(env, digest, c, p, homes, nodes, branch, own);
    CoverKeys(items, needs, AllCopies(env, digest, homes, branch, own));
    hide Derived, AllCopies, CopyKeys, KeysOf, Classified, DecisionRequirements;
    hide Frozen, DistinctItems, IsExactCover, NodesAre, Population, Founders;
    var derived := Derived(env, c, HomesOf(homes), branch, own).needs;
    assert |derived| == |derived.Keys|;
    if own.Some? ==> exists h :: h in homes && Some(h.home.base.agentId) == own {
      BoundOfHoused(env, c, homes, branch, own);
    }
  }

  lemma CoverKeys(items: seq<Item>, needs: map<Key, Need>, copies: seq<Copy>)
    requires DistinctItems(items) && IsExactCover(items, needs, copies)
    ensures Frozen(items).Keys == needs.Keys + CopyKeys(copies) && |items| == |Frozen(items).Keys|
  {
    hide Frozen, CopyKeys, KeysWithRole, DistinctItems;
    RolesAreAll(items);
    FrozenSize(items);
  }

  lemma RolesAreAll(items: seq<Item>)
    ensures Frozen(items).Keys == KeysWithRole(items, true) + KeysWithRole(items, false)
  {
    hide Frozen;
  }

  lemma {:induction false} FrozenSize(items: seq<Item>)
    requires DistinctItems(items)
    ensures |Frozen(items).Keys| == |items|
  {
    if items != [] {
      var n := |items| - 1;
      FrozenSize(items[..n]);
      OneMoreItem(items, n);
      assert items[..n + 1] == items;
      assert Frozen(items).Keys == Frozen(items[..n]).Keys + {items[n].key};
    }
  }

  lemma BoundOfHoused(env: DocEnv, c: Candidate, homes: seq<Housed>, branch: set<string>, own: Option<string>)
    requires Classified(env, c, homes, branch, own)
    requires own.Some? ==> exists h :: h in homes && Some(h.home.base.agentId) == own
    requires forall g, h | g in homes && h in homes && g.home.base.agentId == h.home.base.agentId :: g == h
    ensures |Derived(env, c, HomesOf(homes), branch, own).needs|
            <= 4 * Population(HomesOf(homes), own) - 3 * Founders(HomesOf(homes), own) + 3
  {
    forall g | g in HomesOf(homes) ensures HasRole(g) && exists h :: h in homes && h.home == g {
      var i :| 0 <= i < |homes| && HomesOf(homes)[i] == g;
      assert homes[i] in homes;
    }
    hide Derived, Population, Founders, Keyed, OwnPresents, HasRole;
    if own.Some? {
      var h :| h in homes && Some(h.home.base.agentId) == own;
      NeedBound(env, c, HomesOf(homes), branch, Some(h.home), 0);
    } else {
      NeedBound(env, c, HomesOf(homes), branch, None, 0);
    }
  }
}
