/**
 * The records one birth rests on, derived by key: the candidate's own three, and those of every
 * structural home. Counting them against the bound that the limits rest on.
 */
module Needs {
  import opened Prelude
  import L = Lineage

  type Hash = string

  const RECORD_CAP := 65536
  const STATEMENT_CAP := 16384
  const MAX_ITEMS := 252

  /** The most needs a policy for `m` individuals allows. */
  function Cap(m: nat): int { if 4 * m - 4 < MAX_ITEMS then 4 * m - 4 else MAX_ITEMS }

  datatype Kind = Individual | Qualification | Admission | Statement

  datatype Key = Key(kind: Kind, agentId: string, specId: string, recordSha: Hash)

  /** One needed record with the places it is kept in and the envelopes it was presented with. */
  datatype Need = Need(record: bytes, namespaces: set<string>, envelopes: set<Hash>)

  /** A record that is needed; `raw` is None when it is not stored. */
  datatype Requirement = Requirement(kind: Kind, raw: Option<bytes>, namespace: string, envelope: Option<Hash>)

  function SizeCap(kind: Kind): nat { if kind == Statement then STATEMENT_CAP else RECORD_CAP }

  /** A stored record beyond the byte limit of its kind. */
  predicate TooBig(q: Requirement) { q.raw.Some? && |q.raw.value| > SizeCap(q.kind) }

  /** The canonical record and the subject named in it, None when it cannot be decoded. */
  datatype DocEnv = DocEnv(read: (Kind, bytes) -> Option<Document>, sha: bytes -> Hash)

  datatype Document = Document(agentId: string, specId: string, canonical: bytes)

  function KeyOf(env: DocEnv, kind: Kind, raw: bytes): Option<Key> {
    match env.read(kind, raw)
    case None => None
    case Some(d) => Some(Key(kind, d.agentId, d.specId, env.sha(d.canonical)))
  }

  /** `_add`; None when the record cannot be keyed or differs from the one with the same key. */
  function AddNeed(env: DocEnv, needs: map<Key, Need>, q: Requirement): Option<map<Key, Need>>
    requires q.raw.Some?
  {
    match env.read(q.kind, q.raw.value)
    case None => None
    case Some(d) =>
      var k := Key(q.kind, d.agentId, d.specId, env.sha(d.canonical));
      var envelope := if q.envelope.Some? then {q.envelope.value} else {};
      if k !in needs then Some(needs[k := Need(d.canonical, {q.namespace}, envelope)])
      else if needs[k].record != d.canonical then None
      else Some(needs[k := Need(d.canonical, needs[k].namespaces + {q.namespace}, needs[k].envelopes + envelope)])
  }

  /** The accumulators of the derivation. */
  datatype Derivation = Derivation(needs: map<Key, Need>, missing: bool, divergent: bool)

  const NOTHING := Derivation(map[], false, false)

  /** `add`, its limits aside: a missing record and a divergent one are only noted. */
  function Added(env: DocEnv, d: Derivation, q: Requirement): Derivation {
    if q.raw == None then d.(missing := true)
    else
      match AddNeed(env, d.needs, q)
      case None => d.(divergent := true)
      case Some(needs) => d.(needs := needs)
  }

  function AddAll(env: DocEnv, d: Derivation, qs: seq<Requirement>): Derivation {
    if qs == [] then d else Added(env, AddAll(env, d, qs[..|qs| - 1]), qs[|qs| - 1])
  }

  /** The keys that stored requirements have. */
  function KeysOf(env: DocEnv, qs: seq<Requirement>): set<Key> {
    set q | q in qs && q.raw.Some? && KeyOf(env, q.kind, q.raw.value).Some? :: KeyOf(env, q.kind, q.raw.value).value
  }

  /** A stored home, with the records and envelopes beside its own record. */
  datatype Home = Home(
    base: L.Home,
    individualEnvelope: bool,
    admission: Option<bytes>,
    qualification: Option<bytes>,
    statement: Option<bytes>)

  /** The candidate as its operation presents it. */
  datatype Candidate = Candidate(child: string, admission: bytes, qualification: bytes, statement: Option<bytes>)

  function CandidateRequirements(c: Candidate): seq<Requirement> {
    [Requirement(Admission, Some(c.admission), c.child + "/admission", None),
     Requirement(Qualification, Some(c.qualification), c.child + "/qualification", None),
     Requirement(Statement, c.statement, c.child + "/statement", None)]
  }

  /** Is the individual record of this home needed? Never that of the candidate's own home. */
  predicate NeedsIndividual(h: Home, role: L.Role, branch: set<string>, potential: Option<string>) {
    && Some(h.base.agentId) != potential
    && (role == L.Founder || h.individualEnvelope || h.base.agentId in branch)
  }

  function IndividualRequirement(h: Home, record: L.Record): Requirement {
    Requirement(Individual, Some(record.body), h.base.agentId + "/individual", None)
  }

  /** The three records of a birth. */
  function BirthRequirements(h: Home): seq<Requirement> {
    [Requirement(Admission, h.admission, h.base.agentId + "/admission", None),
     Requirement(Qualification, h.qualification, h.base.agentId + "/qualification", None),
     Requirement(Statement, h.statement, h.base.agentId + "/statement", None)]
  }

  function HomeRequirements(h: Home, record: L.Record, branch: set<string>,
                            potential: Option<string>): seq<Requirement>
  {
    (if NeedsIndividual(h, record.role, branch, potential) then [IndividualRequirement(h, record)] else [])
    + (if record.role == L.Descendant then BirthRequirements(h) else [])
  }

  /** What one home adds. */
  function TakeHome(env: DocEnv, d: Derivation, h: Home, branch: set<string>, potential: Option<string>): Derivation {
    match h.base.record
    case Present(record) =>
      AddAll(env, if record.role == L.OtherRole then d.(divergent := true) else d,
             HomeRequirements(h, record, branch, potential))
    case Missing => d.(missing := true)
    case _ => d.(missing := true, divergent := true)
  }

  function TakeHomes(env: DocEnv, d: Derivation, homes: seq<Home>, branch: set<string>,
                     potential: Option<string>): Derivation
  {
    if homes == [] then d
    else
      var last := homes[|homes| - 1];
      TakeHome(env, TakeHomes(env, d, homes[..|homes| - 1], branch, potential), last, branch, potential)
  }

  /** Everything one open operation needs. */
  function Derived(env: DocEnv, c: Candidate, homes: seq<Home>, branch: set<string>,
                   potential: Option<string>): Derivation
  {
    TakeHomes(env, AddAll(env, NOTHING, CandidateRequirements(c)), homes, branch, potential)
  }

  // ---- which keys are derived --------------------------------------------------------------------

  /** The keys of the derivation are exactly those of the stored records, however often each occurs. */
  lemma {:induction false} AddAllKeys(env: DocEnv, d: Derivation, qs: seq<Requirement>)
    ensures AddAll(env, d, qs).needs.Keys == d.needs.Keys + KeysOf(env, qs)
  {
    if qs != [] {
      var n := |qs| - 1;
      AddAllKeys(env, d, qs[..n]);
      assert qs == qs[..n] + [qs[n]];
      AddedKeys(env, AddAll(env, d, qs[..n]), qs[n]);
      assert KeysOf(env, qs) == KeysOf(env, qs[..n]) + KeysOf(env, [qs[n]]);
    }
  }

  lemma AddedKeys(env: DocEnv, d: Derivation, q: Requirement)
    ensures Added(env, d, q).needs.Keys == d.needs.Keys + KeysOf(env, [q])
  {
    assert q in [q];
  }

  /** The keys one home adds. */
  function HomeKeys(env: DocEnv, h: Home, branch: set<string>, potential: Option<string>): set<Key> {
    if h.base.record.Present? then KeysOf(env, HomeRequirements(h, h.base.record.value, branch, potential)) else {}
  }

  lemma TakeHomeKeys(env: DocEnv, d: Derivation, h: Home, branch: set<string>, potential: Option<string>)
    ensures TakeHome(env, d, h, branch, potential).needs.Keys == d.needs.Keys + HomeKeys(env, h, branch, potential)
  {
    if h.base.record.Present? {
      var record := h.base.record.value;
      AddAllKeys(env, if record.role == L.OtherRole then d.(divergent := true) else d,
                 HomeRequirements(h, record, branch, potential));
    }
  }

  /** The keys of a group of homes. */
  function HomesKeys(env: DocEnv, homes: seq<Home>, branch: set<string>, potential: Option<string>): set<Key> {
    set h, k | h in homes && k in HomeKeys(env, h, branch, potential) :: k
  }

  lemma {:induction false} TakeHomesKeys(env: DocEnv, d: Derivation, homes: seq<Home>, branch: set<string>,
                                         potential: Option<string>)
    ensures TakeHomes(env, d, homes, branch, potential).needs.Keys
            == d.needs.Keys + HomesKeys(env, homes, branch, potential)
  {
    hide TakeHome, HomeKeys, HomesKeys;
    if homes == [] {
      NoHomes(env, branch, potential);
    } else {
      var n := |homes| - 1;
      TakeHomesKeys(env, d, homes[..n], branch, potential);
      TakeHomeKeys(env, TakeHomes(env, d, homes[..n], branch, potential), homes[n], branch, potential);
      OneMoreHome(env, homes, branch, potential);
    }
  }

  lemma NoHomes(env: DocEnv, branch: set<string>, potential: Option<string>)
    ensures HomesKeys(env, [], branch, potential) == {}
  {
  }

  lemma OneMoreHome(env: DocEnv, homes: seq<Home>, branch: set<string>, potential: Option<string>)
    requires homes != []
    ensures var n := |homes| - 1;
            HomesKeys(env, homes, branch, potential)
            == HomesKeys(env, homes[..n], branch, potential) + HomeKeys(env, homes[n], branch, potential)
  {
    hide HomeKeys;
    var n := |homes| - 1;
    assert homes == homes[..n] + [homes[n]];
  }

  /** A key is derived exactly when a stored record of the candidate or of some home has it. */
  lemma DerivedKeys(env: DocEnv, c: Candidate, homes: seq<Home>, branch: set<string>, potential: Option<string>, k: Key)
    ensures k in Derived(env, c, homes, branch, potential).needs
            <==> k in KeysOf(env, CandidateRequirements(c))
                 || exists h :: h in homes && k in HomeKeys(env, h, branch, potential)
  {
    hide HomeKeys, TakeHomes;
    AddAllKeys(env, NOTHING, CandidateRequirements(c));
    TakeHomesKeys(env, AddAll(env, NOTHING, CandidateRequirements(c)), homes, branch, potential);
  }

  // ---- what is missing and what diverges ----------------------------------------------------------

  /** A stored record that cannot be keyed. */
  predicate Unreadable(env: DocEnv, q: Requirement) { q.raw.Some? && env.read(q.kind, q.raw.value) == None }

  /** The stored record has this key, and these are its canonical bytes. */
  predicate ReadsAs(env: DocEnv, q: Requirement, k: Key, canonical: bytes) {
    && q.raw.Some? && env.read(q.kind, q.raw.value).Some?
    && (var d := env.read(q.kind, q.raw.value).value;
        canonical == d.canonical && k == Key(q.kind, d.agentId, d.specId, env.sha(canonical)))
  }

  /** Two different records of one key: the subjects are the same, and so are the digests of the two. */
  ghost predicate Clash(env: DocEnv, p: Requirement, q: Requirement) {
    exists k, a, b :: ReadsAs(env, p, k, a) && ReadsAs(env, q, k, b) && a != b
  }

  ghost predicate HasClash(env: DocEnv, qs: seq<Requirement>) {
    exists i, j :: 0 <= i < |qs| && 0 <= j < |qs| && Clash(env, qs[i], qs[j])
  }

  /** The record reads differently from the one that is kept for its key. */
  ghost predicate Differs(env: DocEnv, d: Derivation, q: Requirement) {
    exists k, a :: ReadsAs(env, q, k, a) && k in d.needs && d.needs[k].record != a
  }

  predicate HasUnreadable(env: DocEnv, qs: seq<Requirement>) {
    exists i :: 0 <= i < |qs| && Unreadable(env, qs[i])
  }

  predicate HasAbsent(qs: seq<Requirement>) { exists i :: 0 <= i < |qs| && qs[i].raw == None }

  lemma FlagsConcat(env: DocEnv, a: seq<Requirement>, b: seq<Requirement>)
    ensures HasAbsent(a + b) <==> HasAbsent(a) || HasAbsent(b)
    ensures HasUnreadable(env, a + b) <==> HasUnreadable(env, a) || HasUnreadable(env, b)
  {
    hide Unreadable;
    if i :| 0 <= i < |a| && a[i].raw == None { assert (a + b)[i].raw == None; }
    if i :| 0 <= i < |b| && b[i].raw == None { assert (a + b)[|a| + i].raw == None; }
    if i :| 0 <= i < |a| && Unreadable(env, a[i]) { assert Unreadable(env, (a + b)[i]); }
    if i :| 0 <= i < |b| && Unreadable(env, b[i]) { assert Unreadable(env, (a + b)[|a| + i]); }
  }

  lemma FlagsOfOne(env: DocEnv, q: Requirement)
    ensures HasAbsent([q]) <==> q.raw == None
    ensures HasUnreadable(env, [q]) <==> Unreadable(env, q)
  {
    assert [q][0] == q;
  }

  /** The flags and the records of a derivation are those of the requirements, and of what was noted besides. */
  ghost predicate Tells(env: DocEnv, d: Derivation, qs: seq<Requirement>, missing: bool, divergent: bool) {
    && (d.missing <==> missing || HasAbsent(qs))
    && (d.divergent <==> divergent || HasUnreadable(env, qs) || HasClash(env, qs))
    && (forall k | k in d.needs :: exists i :: 0 <= i < |qs| && ReadsAs(env, qs[i], k, d.needs[k].record))
    && (forall i, k, a | 0 <= i < |qs| && ReadsAs(env, qs[i], k, a) :: k in d.needs)
  }

  lemma NothingTells(env: DocEnv)
    ensures Tells(env, NOTHING, [], false, false)
  {
  }

  /** A record that differs from the one of its key clashes with a requirement before it. */
  lemma OneMoreClash(env: DocEnv, d: Derivation, qs: seq<Requirement>, q: Requirement, missing: bool, divergent: bool)
    requires Tells(env, d, qs, missing, divergent)
    ensures HasClash(env, qs + [q])
            <==> HasClash(env, qs) || Differs(env, d, q)
  {
    hide ReadsAs;
    var all := qs + [q];
    assert all[|qs|] == q && forall i | 0 <= i < |qs| :: all[i] == qs[i];
    if HasClash(env, all) {
      var i, j :| 0 <= i < |all| && 0 <= j < |all| && Clash(env, all[i], all[j]);
      var k, a, b :| ReadsAs(env, all[i], k, a) && ReadsAs(env, all[j], k, b) && a != b;
      if i < |qs| && j < |qs| {
        assert Clash(env, qs[i], qs[j]);
      } else {
        SameReading(env, q, k, a, b);
        ClashWithLast(env, d, qs, q, if j == |qs| then i else j, k, if j == |qs| then a else b, if j == |qs| then b
            else a);
      }
    }
    if HasClash(env, qs) {
      var i, j :| 0 <= i < |qs| && 0 <= j < |qs| && Clash(env, qs[i], qs[j]);
      assert Clash(env, all[i], all[j]);
    }
    if Differs(env, d, q) {
      var k, a :| ReadsAs(env, q, k, a) && k in d.needs && d.needs[k].record != a;
      var l :| 0 <= l < |qs| && ReadsAs(env, qs[l], k, d.needs[k].record);
      assert Clash(env, all[l], all[|qs|]);
    }
  }

  /** Two readings of a key, one by the last requirement: it differs from the record kept, or an earlier one does. */
  lemma ClashWithLast(env: DocEnv, d: Derivation, qs: seq<Requirement>, q: Requirement, p: nat, k: Key, a: bytes,
                      b: bytes)
    requires p < |qs| && ReadsAs(env, qs[p], k, a) && ReadsAs(env, q, k, b) && a != b && k in d.needs
    requires exists i :: 0 <= i < |qs| && ReadsAs(env, qs[i], k, d.needs[k].record)
    ensures d.needs[k].record != b || HasClash(env, qs)
  {
    hide ReadsAs;
    var l :| 0 <= l < |qs| && ReadsAs(env, qs[l], k, d.needs[k].record);
    if d.needs[k].record == b { assert Clash(env, qs[p], qs[l]); }
  }

  lemma SameReading(env: DocEnv, q: Requirement, k: Key, a: bytes, b: bytes)
    requires a != b
    ensures !(ReadsAs(env, q, k, a) && ReadsAs(env, q, k, b))
  {
  }

  lemma AddedTells(env: DocEnv, d: Derivation, qs: seq<Requirement>, q: Requirement, missing: bool, divergent: bool)
    requires Tells(env, d, qs, missing, divergent)
    ensures Tells(env, Added(env, d, q), qs + [q], missing, divergent)
  {
    hide HasClash, HasAbsent, HasUnreadable, ReadsAs, Unreadable, Added, Differs;
    OneMoreClash(env, d, qs, q, missing, divergent);
    AddedFlags(env, d, q);
    FlagsOfOne(env, q);
    FlagsConcat(env, qs, [q]);
    AddedRecords(env, d, qs, q, Added(env, d, q));
  }

  /** Every record kept is that of some requirement. */
  lemma AddedRecords(env: DocEnv, d: Derivation, qs: seq<Requirement>, q: Requirement, n: Derivation)
    requires forall k | k in d.needs :: exists i :: 0 <= i < |qs| && ReadsAs(env, qs[i], k, d.needs[k].record)
    requires forall k | k in d.needs :: k in n.needs && n.needs[k].record == d.needs[k].record
    requires forall k | k in n.needs && k !in d.needs :: ReadsAs(env, q, k, n.needs[k].record)
    requires forall i, k, a | 0 <= i < |qs| && ReadsAs(env, qs[i], k, a) :: k in d.needs
    requires forall k, a | ReadsAs(env, q, k, a) :: k in n.needs
    ensures forall i, k, a | 0 <= i < |qs + [q]| && ReadsAs(env, (qs + [q])[i], k, a) :: k in n.needs
    ensures forall k | k in n.needs :: exists i ::
              0 <= i < |qs + [q]| && ReadsAs(env, (qs + [q])[i], k, n.needs[k].record)
  {
    hide ReadsAs;
    var all := qs + [q];
    forall k | k in n.needs ensures exists i :: 0 <= i < |all| && ReadsAs(env, all[i], k, n.needs[k].record) {
      if k in d.needs {
        var i :| 0 <= i < |qs| && ReadsAs(env, qs[i], k, d.needs[k].record);
        assert ReadsAs(env, all[i], k, n.needs[k].record);
      } else {
        assert ReadsAs(env, all[|qs|], k, n.needs[k].record);
      }
    }
  }

  /** What one requirement does to the flags and to the records. */
  lemma AddedFlags(env: DocEnv, d: Derivation, q: Requirement)
    ensures var n := Added(env, d, q);
            && (n.missing <==> d.missing || q.raw == None)
            && (n.divergent <==> d.divergent || Unreadable(env, q) || Differs(env, d, q))
            && (forall k | k in d.needs :: k in n.needs && n.needs[k].record == d.needs[k].record)
            && (forall k | k in n.needs && k !in d.needs :: ReadsAs(env, q, k, n.needs[k].record))
            && (forall k, a | ReadsAs(env, q, k, a) :: k in n.needs)
  {
    if q.raw.Some? && env.read(q.kind, q.raw.value).Some? {
      var doc := env.read(q.kind, q.raw.value).value;
      assert ReadsAs(env, q, Key(q.kind, doc.agentId, doc.specId, env.sha(doc.canonical)), doc.canonical);
    }
  }

  lemma {:induction false} AddAllTells(env: DocEnv, d: Derivation, before: seq<Requirement>, qs: seq<Requirement>,
                                       missing: bool, divergent: bool)
    requires Tells(env, d, before, missing, divergent)
    ensures Tells(env, AddAll(env, d, qs), before + qs, missing, divergent)
  {
    hide Tells, Added;
    if qs == [] {
      assert before + qs == before;
    } else {
      var n := |qs| - 1;
      AddAllTells(env, d, before, qs[..n], missing, divergent);
      AddedTells(env, AddAll(env, d, qs[..n]), before + qs[..n], qs[n], missing, divergent);
      assert before + qs == before + qs[..n] + [qs[n]];
    }
  }

  /** The requirements of all the homes whose records are read. */
  function HomesRequirements(homes: seq<Home>, branch: set<string>, potential: Option<string>): seq<Requirement> {
    if homes == [] then []
    else
      var h := homes[|homes| - 1];
      HomesRequirements(homes[..|homes| - 1], branch, potential)
      + if h.base.record.Present? then HomeRequirements(h, h.base.record.value, branch, potential) else []
  }

  /** Everything the operation and the homes ask for. */
  function AllRequirements(c: Candidate, homes: seq<Home>, branch: set<string>,
                           potential: Option<string>): seq<Requirement>
  {
    CandidateRequirements(c) + HomesRequirements(homes, branch, potential)
  }

  predicate NoRecord(h: Home) { !h.base.record.Present? }

  /** A record that is there and is none, or is of neither role. */
  predicate OddRecord(h: Home) {
    || h.base.record.Oversized? || h.base.record.Divergent?
    || (h.base.record.Present? && h.base.record.value.role == L.OtherRole)
  }

  lemma TakeHomeTells(env: DocEnv, d: Derivation, before: seq<Requirement>, h: Home, branch: set<string>,
                      potential: Option<string>, missing: bool, divergent: bool)
    requires Tells(env, d, before, missing, divergent)
    ensures Tells(env, TakeHome(env, d, h, branch, potential),
                  before + if h.base.record.Present? then HomeRequirements(h, h.base.record.value, branch, potential)
                      else [],
                  missing || NoRecord(h), divergent || OddRecord(h))
  {
    var noted := d.(missing := d.missing || NoRecord(h), divergent := d.divergent || OddRecord(h));
    assert Tells(env, noted, before, missing || NoRecord(h), divergent || OddRecord(h));
    hide Tells, AddAll, HomeRequirements;
    if h.base.record.Present? {
      AddAllTells(env, noted, before, HomeRequirements(h, h.base.record.value, branch, potential), missing
        || NoRecord(h),
                  divergent || OddRecord(h));
    } else {
      assert before + [] == before;
    }
  }

  lemma {:induction false} TakeHomesTell(env: DocEnv, d: Derivation, before: seq<Requirement>, homes: seq<Home>,
                                         branch: set<string>, potential: Option<string>)
    requires Tells(env, d, before, false, false)
    ensures Tells(env, TakeHomes(env, d, homes, branch, potential), before
            + HomesRequirements(homes, branch, potential),
                  exists h :: h in homes && NoRecord(h), exists h :: h in homes && OddRecord(h))
  {
    hide Tells, TakeHome, NoRecord, OddRecord, HomeRequirements;
    if homes == [] {
      assert before + [] == before;
    } else {
      var n := |homes| - 1;
      var h, rest := homes[n], homes[..n];
      assert homes == rest + [h];
      TakeHomesTell(env, d, before, rest, branch, potential);
      TakeHomeTells(env, TakeHomes(env, d, rest, branch, potential), before
        + HomesRequirements(rest, branch, potential), h,
                    branch, potential, exists g :: g in rest && NoRecord(g), exists g :: g in rest && OddRecord(g));
      var more := if h.base.record.Present? then HomeRequirements(h, h.base.record.value, branch, potential) else [];
      assert before + HomesRequirements(rest, branch, potential) + more
             == before + (HomesRequirements(rest, branch, potential) + more);
    }
  }

  /** A descendant without all three records of its birth. */
  predicate LacksBirth(h: Home) {
    && h.base.record.Present? && h.base.record.value.role == L.Descendant
    && (h.admission == None || h.qualification == None || h.statement == None)
  }

  lemma {:induction false} LackingHomes(env: DocEnv, homes: seq<Home>, branch: set<string>, potential: Option<string>)
    ensures HasAbsent(HomesRequirements(homes, branch, potential)) <==> exists h :: h in homes && LacksBirth(h)
  {
    if homes != [] {
      hide HomeRequirements, HasAbsent, LacksBirth;
      var n := |homes| - 1;
      var h, rest := homes[n], homes[..n];
      assert homes == rest + [h];
      LackingHomes(env, rest, branch, potential);
      LackingHome(env, h, branch, potential);
      FlagsConcat(env, HomesRequirements(rest, branch, potential),
                  if h.base.record.Present? then HomeRequirements(h, h.base.record.value, branch, potential) else []);
    }
  }

  lemma LackingHome(env: DocEnv, h: Home, branch: set<string>, potential: Option<string>)
    ensures HasAbsent(if h.base.record.Present? then HomeRequirements(h, h.base.record.value, branch, potential)
              else [])
            <==> LacksBirth(h)
  {
    if h.base.record.Present? {
      var record, birth := h.base.record.value, BirthRequirements(h);
      FlagsConcat(env, if NeedsIndividual(h, record.role, branch, potential) then [IndividualRequirement(h, record)]
          else [],
                  if record.role == L.Descendant then birth else []);
      assert birth[0].raw == h.admission && birth[1].raw == h.qualification && birth[2].raw == h.statement;
    }
  }

  /**
   * What the derivation says of the candidate and the homes: evidence is missing if a statement, a record
   * or a part of a birth is; it diverges if a record is none, cannot be keyed, or clashes with another.
   */
  lemma DerivedSays(env: DocEnv, c: Candidate, homes: seq<Home>, branch: set<string>, potential: Option<string>)
    ensures var d, qs := Derived(env, c, homes, branch, potential), AllRequirements(c, homes, branch, potential);
            && (d.missing <==> c.statement == None || exists h :: h in homes && (NoRecord(h) || LacksBirth(h)))
            && (d.divergent
               <==> (exists h :: h in homes && OddRecord(h)) || HasUnreadable(env, qs) || HasClash(env, qs))
            && (forall k | k in d.needs :: exists i :: 0 <= i < |qs| && ReadsAs(env, qs[i], k, d.needs[k].record))
  {
    hide AddAll, TakeHomes, HomesRequirements, HasClash, HasUnreadable, ReadsAs, OddRecord, LacksBirth, NoRecord;
    var birth := CandidateRequirements(c);
    NothingTells(env);
    AddAllTells(env, NOTHING, [], birth, false, false);
    assert [] + birth == birth;
    TakeHomesTell(env, AddAll(env, NOTHING, birth), birth, homes, branch, potential);
    LackingHomes(env, homes, branch, potential);
    FlagsConcat(env, birth, HomesRequirements(homes, branch, potential));
    assert birth[2].raw == c.statement;
  }

  // ---- the bound ----------------------------------------------------------------------------------

  /** Homes other than the candidate's own. */
  function Population(homes: seq<Home>, potential: Option<string>): nat {
    if homes == [] then 0
    else
      Population(homes[..|homes| - 1], potential)
      + (if Some(homes[|homes| - 1].base.agentId) != potential then 1 else 0)
  }

  predicate IsFounder(h: Home) { h.base.record.Present? && h.base.record.value.role == L.Founder }

  function Founders(homes: seq<Home>, potential: Option<string>): nat {
    if homes == [] then 0
    else
      var h := homes[|homes| - 1];
      Founders(homes[..|homes| - 1], potential) + (if Some(h.base.agentId) != potential && IsFounder(h) then 1 else 0)
  }

  /** The record of a home is one of a founder or of a descendant. */
  predicate HasRole(h: Home) {
    h.base.record.Present? && (h.base.record.value.role == L.Founder || h.base.record.value.role == L.Descendant)
  }

  /** The keys of one birth: the presented ones, and the own home's statement when none is presented. */
  function BirthKeys(env: DocEnv, c: Candidate, own: Option<Home>): set<Key> {
    KeysOf(env, CandidateRequirements(c))
    + (if c.statement == None && own.Some? then KeysOf(env, [BirthRequirements(own.value)[2]]) else {})
  }

  /** The candidate's own home stores the records that its operation presents. */
  predicate OwnPresents(env: DocEnv, c: Candidate, own: Home) {
    && KeysOf(env, [BirthRequirements(own)[0]]) <= KeysOf(env, [CandidateRequirements(c)[0]])
    && KeysOf(env, [BirthRequirements(own)[1]]) <= KeysOf(env, [CandidateRequirements(c)[1]])
    && (c.statement.Some? ==> KeysOf(env, [BirthRequirements(own)[2]]) <= KeysOf(env, [CandidateRequirements(c)[2]]))
  }

  lemma KeysOfOne(env: DocEnv, q: Requirement)
    ensures |KeysOf(env, [q])| <= 1
  {
    assert q in [q];
    var keys := KeysOf(env, [q]);
    if k :| k in keys { assert keys == {k}; }
  }

  lemma {:induction false} KeysOfSize(env: DocEnv, qs: seq<Requirement>)
    ensures |KeysOf(env, qs)| <= |qs|
  {
    if qs != [] {
      hide KeysOf;
      var n := |qs| - 1;
      KeysOfSize(env, qs[..n]);
      assert qs == qs[..n] + [qs[n]];
      KeysOfConcat(env, qs[..n], [qs[n]]);
      KeysOfOne(env, qs[n]);
      UnionSize(KeysOf(env, qs[..n]), KeysOf(env, [qs[n]]));
    } else {
      assert KeysOf(env, qs) == {};
    }
  }

  lemma UnionSize<T>(a: set<T>, b: set<T>)
    ensures |a + b| <= |a| + |b|
  {
    assert a + b == a + (b - a);
    assert |a + (b - a)| == |a| + |b - a|;
    assert (b - a) + (b * a) == b;
  }

  /** The most a home can add: one record of a founder, four of a descendant, none of the own home. */
  function Weight(h: Home, potential: Option<string>): nat {
    if Some(h.base.agentId) == potential then 0 else if IsFounder(h) then 1 else 4
  }

  lemma KeysOfConcat(env: DocEnv, a: seq<Requirement>, b: seq<Requirement>)
    ensures KeysOf(env, a + b) == KeysOf(env, a) + KeysOf(env, b)
  {
  }

  /** The own home adds only keys of the birth. */
  lemma OwnHomeKeys(env: DocEnv, c: Candidate, own: Home, branch: set<string>)
    requires OwnPresents(env, c, own)
    ensures HomeKeys(env, own, branch, Some(own.base.agentId)) <= BirthKeys(env, c, Some(own))
  {
    var b, q := BirthRequirements(own), CandidateRequirements(c);
    assert b == [b[0]] + ([b[1]] + [b[2]]);
    KeysOfConcat(env, [b[0]], [b[1]] + [b[2]]);
    KeysOfConcat(env, [b[1]], [b[2]]);
    assert q == [q[0]] + ([q[1]] + [q[2]]);
    KeysOfConcat(env, [q[0]], [q[1]] + [q[2]]);
    KeysOfConcat(env, [q[1]], [q[2]]);
    assert [] + b == b;
  }

  lemma HomeKeysSize(env: DocEnv, h: Home, branch: set<string>, potential: Option<string>)
    requires HasRole(h) && Some(h.base.agentId) != potential
    ensures |HomeKeys(env, h, branch, potential)| <= Weight(h, potential)
  {
    var qs := HomeRequirements(h, h.base.record.value, branch, potential);
    KeysOfSize(env, qs);
  }

  /** One home adds at most its weight to the keys beyond those of the birth. */
  lemma HomeStep(env: DocEnv, d: Derivation, h: Home, branch: set<string>, potential: Option<string>, birth: set<Key>)
    requires HasRole(h)
    requires Some(h.base.agentId) == potential ==> HomeKeys(env, h, branch, potential) <= birth
    ensures |TakeHome(env, d, h, branch, potential).needs.Keys + birth| <= |d.needs.Keys + birth| + Weight(h, potential)
  {
    hide TakeHome, HomeKeys, HasRole, Weight;
    TakeHomeKeys(env, d, h, branch, potential);
    var more := HomeKeys(env, h, branch, potential);
    if Some(h.base.agentId) == potential {
      Absorbed(d.needs.Keys, more, birth, 0);
    } else {
      HomeKeysSize(env, h, branch, potential);
      Absorbed(d.needs.Keys, more, birth, Weight(h, potential));
    }
  }

  /** New keys count unless they are among `birth` already. */
  lemma Absorbed(keys: set<Key>, more: set<Key>, birth: set<Key>, w: nat)
    requires more <= birth || |more| <= w
    ensures |keys + more + birth| <= |keys + birth| + w
  {
    if more <= birth {
      assert keys + more + birth == keys + birth;
    } else {
      assert keys + more + birth == keys + birth + more;
      UnionSize(keys + birth, more);
    }
  }

  /** The homes' keys beyond those of the birth are at most the weight of the population. */
  lemma {:induction false} HomesBound(env: DocEnv, homes: seq<Home>, branch: set<string>, potential: Option<string>,
                                      d: Derivation, birth: set<Key>)
    requires d.needs.Keys <= birth && |birth| <= 3
    requires forall h | h in homes :: HasRole(h)
    requires forall h | h in homes && Some(h.base.agentId) == potential :: HomeKeys(env, h, branch, potential) <= birth
    ensures |TakeHomes(env, d, homes, branch, potential).needs.Keys + birth|
            <= 3 + 4 * Population(homes, potential) - 3 * Founders(homes, potential)
  {
    if homes == [] {
      assert d.needs.Keys + birth == birth;
    } else {
      hide TakeHome, HomeKeys, HasRole;
      var n := |homes| - 1;
      assert homes[n] in homes;
      HomesBound(env, homes[..n], branch, potential, d, birth);
      HomeStep(env, TakeHomes(env, d, homes[..n], branch, potential), homes[n], branch, potential, birth);
    }
  }

  lemma BirthKeysSize(env: DocEnv, c: Candidate, own: Option<Home>)
    ensures |BirthKeys(env, c, own)| <= 3
  {
    var q := CandidateRequirements(c);
    KeysOfSize(env, q);
    if c.statement == None && own.Some? {
      KeysOfConcat(env, q[..2], q[2..]);
      assert q == q[..2] + q[2..];
      KeysOfSize(env, q[..2]);
      assert KeysOf(env, q[2..]) == {};
      var last := KeysOf(env, [BirthRequirements(own.value)[2]]);
      KeysOfSize(env, [BirthRequirements(own.value)[2]]);
      UnionSize(KeysOf(env, q), last);
    }
  }

  /**
   * The bound on derived needs: with a role in every record, and an own home that stores what its
   * operation presents, at most 4P - 3F + 3 keys; and at most 4M - 4 when P is below M and a founder
   * exists.
   */
  lemma NeedBound(env: DocEnv, c: Candidate, homes: seq<Home>, branch: set<string>, own: Option<Home>, m: nat)
    requires forall h | h in homes :: HasRole(h)
    requires own.Some? ==> OwnPresents(env, c, own.value)
    requires own.Some? ==> forall h | h in homes && h.base.agentId == own.value.base.agentId :: h == own.value
    ensures var potential := if own.Some? then Some(own.value.base.agentId) else None;
            var p, f := Population(homes, potential), Founders(homes, potential);
            && |Derived(env, c, homes, branch, potential).needs| <= 4 * p - 3 * f + 3
            && (p < m && f >= 1 ==> |Derived(env, c, homes, branch, potential).needs| <= 4 * m - 4)
  {
    hide HasRole, OwnPresents;
    var potential := if own.Some? then Some(own.value.base.agentId) else None;
    var d, birth := AddAll(env, NOTHING, CandidateRequirements(c)), BirthKeys(env, c, own);
    AddAllKeys(env, NOTHING, CandidateRequirements(c));
    BirthKeysSize(env, c, own);
    if own.Some? { OwnHomeKeys(env, c, own.value, branch); }
    HomesBound(env, homes, branch, potential, d, birth);
    var needs := Derived(env, c, homes, branch, potential).needs;
    UnionSize(needs.Keys, birth);
    SubsetSize(needs.Keys, needs.Keys + birth);
    assert |needs| == |needs.Keys|;
  }

  lemma SubsetSize<T>(a: set<T>, b: set<T>)
    requires a <= b
    ensures |a| <= |b|
  {
    assert b == a + (b - a);
    assert |a + (b - a)| == |a| + |b - a|;
  }
}
