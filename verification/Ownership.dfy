/**
 Startup assignment of cluster ownership: colliding risk scores are quarantined,
 the rest is backfilled from the authoritative pods table, and the result is validated.
 */
module Ownership {
  import opened Sql
  import opened Schema
  import KeySwap
  import Text

  datatype Pod = Pod(uid: Option<string>, cluster: Option<string>)

  /** A row of a cluster-owned table; `kind` is resource_type, `sbom` is sbom_id, `cells` every other column. */
  datatype Row = Row(
    id: nat, uid: Option<string>, cluster: Option<string>, kind: Option<string>, sbom: Option<nat>,
    cells: map<Column, Option<string>>)

  type Tables = map<Table, seq<Row>>

  datatype Target = Target(table: Table, uidColumn: Column, podKindOnly: bool)

  const RISK := Target(RiskScores, ResourceUid, true)
  const SBOMS := Target(Sboms, PodUid, false)
  const INSIGHTS := Target(Insights, ResourceUid, true)

  function PodTable(table: Table): Target {
    Target(table, PodUid, false)
  }

  const TARGETS: seq<Target> :=
    [ PodTable(AssetSecurityState), PodTable(AttackPaths), PodTable(CveMatches), PodTable(EventsIndex),
      Target(ExceptionPolicies, ResourceUid, false), PodTable(MalwareMatches), PodTable(PodAttackSteps),
      PodTable(PodCapabilities), PodTable(PodImageScans), PodTable(PodInstances), PodTable(PodNetworkConnections),
      PodTable(PodProcesses), PodTable(PodRiskProfiles), PodTable(PodRuntimeMetrics), PodTable(RuntimeBehaviorFacts),
      PodTable(RuntimeEvents), PodTable(RuntimeIncidents), PodTable(RuntimeSignals), SBOMS, INSIGHTS, RISK,
      Target(PolicyViolations, ResourceUid, true) ]

  /** Tables whose rows may name an SBOM. */
  const LINKED: set<Table> := {CveMatches, MalwareMatches, PodImageScans}

  predicate Separate(targets: seq<Target>) {
    forall i, j | 0 <= i < j < |targets| :: targets[i].table != targets[j].table
  }

  /** Rows that name an SBOM are updated before SBOMs are. */
  predicate LinksFirst(targets: seq<Target>) {
    forall i, j | 0 <= i < j < |targets| :: targets[i].table == SBOMS.table ==> targets[j].table !in LINKED
  }

  /** The shipped list names each table once, and SBOMs after everything that names them. */
  lemma TargetsAreSeparate()
    ensures Separate(TARGETS) && LinksFirst(TARGETS) && RISK in TARGETS
  {
    assert TARGETS[20] == RISK;
  }

  // ---------------------------------------------------------------- reading the pods table

  predicate Lists(p: Pod, uid: Option<string>) {
    Eq(p.uid, uid).Holds() && Present(p.cluster)
  }

  /** The distinct clusters the pods table gives for a UID. */
  function Owners(pods: seq<Pod>, uid: Option<string>): set<string> {
    set p | p in pods && Lists(p, uid) :: p.cluster.value
  }

  /** `MIN(cluster_id)` over the same pods; NULL when there are none. */
  function MinOwner(pods: seq<Pod>, uid: Option<string>): Option<string> {
    if pods == [] then None
    else
      var rest, p := MinOwner(pods[1..], uid), pods[0];
      if !Lists(p, uid) then rest
      else if rest.None? || Text.Less(p.cluster.value, rest.value) then p.cluster
      else rest
  }

  lemma {:induction false} MinOwnerIsAnOwner(pods: seq<Pod>, uid: Option<string>)
    ensures MinOwner(pods, uid).None? <==> Owners(pods, uid) == {}
    ensures MinOwner(pods, uid).Some? ==> MinOwner(pods, uid).value in Owners(pods, uid)
    ensures MinOwner(pods, uid).Some? ==> forall o | o in Owners(pods, uid) :: !Text.Less(o, MinOwner(pods, uid).value)
  {
    if pods != [] {
      MinOwnerIsLeast(pods, uid);
      MinOwnerIsAnOwner(pods[1..], uid);
      assert pods == [pods[0]] + pods[1..];
      if Lists(pods[0], uid) {
        assert pods[0].cluster.value in Owners(pods, uid);
      }
      assert Owners(pods[1..], uid) <= Owners(pods, uid);
      assert Owners(pods, uid) <= Owners(pods[1..], uid) + if Lists(pods[0], uid) then {pods[0].cluster.value} else {};
    }
  }

  lemma {:induction false} MinOwnerIsLeast(pods: seq<Pod>, uid: Option<string>)
    ensures MinOwner(pods, uid).Some? ==>
      forall p | p in pods && Lists(p, uid) :: !Text.Less(p.cluster.value, MinOwner(pods, uid).value)
  {
    if pods != [] {
      MinOwnerIsLeast(pods[1..], uid);
      forall p | MinOwner(pods, uid).Some? && p in pods && Lists(p, uid)
        ensures !Text.Less(p.cluster.value, MinOwner(pods, uid).value)
      {
        MinOwnerBelow(pods, uid, p);
      }
    }
  }

  lemma MinOwnerBelow(pods: seq<Pod>, uid: Option<string>, p: Pod)
    requires p in pods && Lists(p, uid) && MinOwner(pods, uid).Some?
    requires MinOwner(pods[1..], uid).Some? && p in pods[1..] ==>
      !Text.Less(p.cluster.value, MinOwner(pods[1..], uid).value)
    ensures !Text.Less(p.cluster.value, MinOwner(pods, uid).value)
  {
    var rest, first, c := MinOwner(pods[1..], uid), pods[0], p.cluster.value;
    Text.LessAsymmetric(c, c);
    if p in pods[1..] {
      MinOwnerFound(pods[1..], uid, p);
      if Lists(first, uid) && Text.Less(first.cluster.value, rest.value) {
        Text.LessAsymmetric(first.cluster.value, rest.value);
        Text.AtMostTransitive(first.cluster.value, rest.value, c);
      }
    }
  }

  lemma {:induction false} MinOwnerFound(pods: seq<Pod>, uid: Option<string>, p: Pod)
    requires p in pods && Lists(p, uid)
    ensures MinOwner(pods, uid).Some?
  {
    if pods[0] != p {
      MinOwnerFound(pods[1..], uid, p);
    }
  }

  lemma SoleOwner(pods: seq<Pod>, uid: Option<string>, c: string)
    requires |Owners(pods, uid)| == 1
    ensures MinOwner(pods, uid) == Some(c) <==> Owners(pods, uid) == {c}
    ensures MinOwner(pods, uid).Some? && MinOwner(pods, uid).value in Owners(pods, uid) && Present(MinOwner(pods, uid))
  {
    MinOwnerIsAnOwner(pods, uid);
    var m := MinOwner(pods, uid).value;
    assert |Owners(pods, uid) - {m}| == 0;
    assert Owners(pods, uid) == {m};
  }

  // ---------------------------------------------------------------- quarantine

  datatype Evidence = Evidence(proposed: string, original: Row)
  type Quarantine = map<nat, Evidence>

  predicate IsPod(kind: Option<string>) {
    kind.Some? && Text.Lower(kind.value) == "pod"
  }

  /** Pod in any letter case, and nothing else. */
  lemma IsPodMeans(kind: Option<string>)
    ensures IsPod(kind) <==>
      && kind.Some? && |kind.value| == 3 && Text.LowerChar(kind.value[0]) == 'p'
      && Text.LowerChar(kind.value[1]) == 'o' && Text.LowerChar(kind.value[2]) == 'd'
  {
    if kind.Some? && |kind.value| == 3 {
      var l := Text.Lower(kind.value);
      assert l == [l[0], l[1], l[2]];
    }
    assert |"pod"| == 3 && "pod"[0] == 'p' && "pod"[1] == 'o' && "pod"[2] == 'd';
  }

  /** Assigning `row` to its sole owner would meet another row of the same snapshot identity. */
  predicate Collides(pods: seq<Pod>, rows: seq<Row>, row: Row) {
    && |Owners(pods, row.uid)| == 1
    && !Present(row.cluster) && IsPod(row.kind)
    && exists j | 0 <= j < |rows| ::
         && rows[j].id != row.id
         && Eq(rows[j].uid, row.uid).And(Eq(rows[j].kind, row.kind)).Holds()
         && (Eq(rows[j].cluster, MinOwner(pods, row.uid)).Holds() || !Present(rows[j].cluster))
  }

  /** INSERT ... SELECT ... ON CONFLICT DO NOTHING, over the first `n` rows. */
  function Recorded(pods: seq<Pod>, rows: seq<Row>, q: Quarantine, n: nat): Quarantine
    requires n <= |rows|
  {
    if n == 0 then q
    else
      var before, row := Recorded(pods, rows, q, n - 1), rows[n - 1];
      if Collides(pods, rows, row) && row.id !in before
      then before[row.id := EvidenceOf(pods, row)] else before
  }

  predicate DistinctIds(rows: seq<Row>) {
    forall i, j | 0 <= i < j < |rows| :: rows[i].id != rows[j].id
  }

  /** What a colliding row is recorded as. */
  function EvidenceOf(pods: seq<Pod>, row: Row): Evidence {
    Evidence(Coalesce(MinOwner(pods, row.uid), ""), row)
  }

  lemma {:induction false} RecordedKeeps(pods: seq<Pod>, rows: seq<Row>, q: Quarantine, n: nat, id: nat)
    requires n <= |rows| && id in q
    ensures id in Recorded(pods, rows, q, n) && Recorded(pods, rows, q, n)[id] == q[id]
  {
    if n > 0 {
      RecordedKeeps(pods, rows, q, n - 1, id);
    }
  }

  lemma {:induction false} RecordedOnly(pods: seq<Pod>, rows: seq<Row>, q: Quarantine, n: nat, id: nat)
    requires n <= |rows| && id !in q && forall i | 0 <= i < n :: rows[i].id != id
    ensures id !in Recorded(pods, rows, q, n)
  {
    if n > 0 {
      RecordedOnly(pods, rows, q, n - 1, id);
    }
  }

  lemma {:induction false} RecordedRow(pods: seq<Pod>, rows: seq<Row>, q: Quarantine, n: nat, i: nat)
    requires i < n <= |rows| && DistinctIds(rows) && rows[i].id !in q
    ensures rows[i].id in Recorded(pods, rows, q, n) <==> Collides(pods, rows, rows[i])
    ensures rows[i].id in Recorded(pods, rows, q, n) ==>
      Recorded(pods, rows, q, n)[rows[i].id] == EvidenceOf(pods, rows[i])
  {
    if i == n - 1 {
      RecordedOnly(pods, rows, q, n - 1, rows[i].id);
    } else {
      RecordedRow(pods, rows, q, n - 1, i);
    }
  }

  /**
   Evidence once recorded is never replaced; otherwise exactly the colliding rows are recorded,
   each as it is and with the cluster proposed for it.
   */
  lemma RecordedExactly(pods: seq<Pod>, rows: seq<Row>, q: Quarantine, id: nat)
    requires DistinctIds(rows)
    ensures var r := Recorded(pods, rows, q, |rows|);
      && (id in q ==> id in r && r[id] == q[id])
      && (id !in q ==> (id in r <==> exists i :: 0 <= i < |rows| && rows[i].id == id && Collides(pods, rows, rows[i])))
      && (id !in q && id in r ==>
            exists i :: 0 <= i < |rows| && rows[i].id == id && r[id] == EvidenceOf(pods, rows[i]))
  {
    if id in q {
      RecordedKeeps(pods, rows, q, |rows|, id);
    } else if i :| 0 <= i < |rows| && rows[i].id == id {
      RecordedRow(pods, rows, q, |rows|, i);
    } else {
      RecordedOnly(pods, rows, q, |rows|, id);
    }
  }

  // ---------------------------------------------------------------- backfill and validation

  /** The WHERE clause of the ownership UPDATE. */
  predicate Selected(t: Target, pods: seq<Pod>, q: Quarantine, row: Row) {
    && !Present(row.cluster) && Present(row.uid)
    && (t.podKindOnly ==> IsPod(row.kind))
    && (t == RISK ==> row.id !in q)
    && |Owners(pods, row.uid)| == 1
  }

  function BackfilledRow(t: Target, pods: seq<Pod>, q: Quarantine, row: Row): Row {
    if Selected(t, pods, q, row) then row.(cluster := MinOwner(pods, row.uid)) else row
  }

  function Backfilled(t: Target, pods: seq<Pod>, q: Quarantine, rows: seq<Row>): seq<Row> {
    seq(|rows|, i requires 0 <= i < |rows| => BackfilledRow(t, pods, q, rows[i]))
  }

  predicate Inconsistent(t: Target, pods: seq<Pod>, row: Row) {
    && Present(row.cluster) && Present(row.uid)
    && (t.podKindOnly ==> IsPod(row.kind))
    && !exists p | p in pods :: Eq(p.uid, row.uid).And(Eq(p.cluster, row.cluster)).Holds()
  }

  predicate Consistent(t: Target, pods: seq<Pod>, rows: seq<Row>) {
    forall i | 0 <= i < |rows| :: !Inconsistent(t, pods, rows[i])
  }

  /**
   What one UPDATE does to a row: an owned row and every other column are untouched, an
   unowned one gets cluster c exactly when it is eligible and c is its UID's only owner,
   repeating changes nothing, and the later validation sees the same verdict.
   */
  lemma BackfillRow(t: Target, pods: seq<Pod>, q: Quarantine, row: Row, c: string)
    ensures var r := BackfilledRow(t, pods, q, row);
      && r.(cluster := row.cluster) == row
      && (Present(row.cluster) ==> r == row)
      && (!Present(row.cluster) && c != "" ==>
            (r.cluster == Some(c) <==>
             Present(row.uid) && (t.podKindOnly ==> IsPod(row.kind)) && (t == RISK ==> row.id !in q)
             && Owners(pods, row.uid) == {c}))
      && BackfilledRow(t, pods, q, r) == r
      && (Inconsistent(t, pods, r) <==> Inconsistent(t, pods, row))
  {
    if Selected(t, pods, q, row) {
      SoleOwner(pods, row.uid, c);
      var m := MinOwner(pods, row.uid).value;
      var p :| p in pods && Lists(p, row.uid) && p.cluster.value == m;
      assert Eq(p.uid, row.uid).And(Eq(p.cluster, Some(m))).Holds();
    } else if Owners(pods, row.uid) == {c} {
      assert |{c}| == 1;
    }
  }

  /** An owned row is inconsistent exactly when its cluster is not among the owners pods lists for its UID. */
  lemma InconsistentMeans(t: Target, pods: seq<Pod>, row: Row)
    ensures Inconsistent(t, pods, row) <==>
      && Present(row.cluster) && Present(row.uid) && (t.podKindOnly ==> IsPod(row.kind))
      && row.cluster.value !in Owners(pods, row.uid)
  {
    if Present(row.cluster) && row.cluster.value in Owners(pods, row.uid) {
      var p :| p in pods && Lists(p, row.uid) && p.cluster.value == row.cluster.value;
      assert Eq(p.uid, row.uid).And(Eq(p.cluster, row.cluster)).Holds();
    }
    if p :| p in pods && Eq(p.uid, row.uid).And(Eq(p.cluster, row.cluster)).Holds() {
      assert Present(row.cluster) ==> Lists(p, row.uid);
    }
  }

  // ---------------------------------------------------------------- risk scores over many startups

  datatype Scores = Scores(rows: seq<Row>, quarantine: Quarantine)

  function RecordedOnce(pods: seq<Pod>, s: Scores): Scores {
    s.(quarantine := Recorded(pods, s.rows, s.quarantine, |s.rows|))
  }

  /** Quarantine, then backfill, as one startup applies them to risk_scores. */
  function Startup(pods: seq<Pod>, s: Scores): Scores {
    var q := RecordedOnce(pods, s).quarantine;
    Scores(Backfilled(RISK, pods, q, s.rows), q)
  }

  predicate SameSnapshot(a: Row, b: Row) {
    Present(a.cluster) && Eq(a.kind, b.kind).And(Eq(a.uid, b.uid)).And(Eq(a.cluster, b.cluster)).Holds()
  }

  predicate OwnedDistinct(rows: seq<Row>) {
    forall i, j | 0 <= i < j < |rows| :: !SameSnapshot(rows[i], rows[j])
  }

  /** A quarantined row is still unowned and still equal to its recorded evidence. */
  predicate EvidenceIntact(s: Scores) {
    forall i | 0 <= i < |s.rows| && s.rows[i].id in s.quarantine ::
      !Present(s.rows[i].cluster) && s.rows[i] == s.quarantine[s.rows[i].id].original
  }

  predicate Sound(s: Scores) {
    DistinctIds(s.rows) && OwnedDistinct(s.rows) && EvidenceIntact(s)
  }

  lemma ColliderIsRecorded(pods: seq<Pod>, rows: seq<Row>, q: Quarantine, i: nat)
    requires i < |rows| && DistinctIds(rows)
    ensures Collides(pods, rows, rows[i]) ==> rows[i].id in Recorded(pods, rows, q, |rows|)
    ensures rows[i].id in Recorded(pods, rows, q, |rows|) && rows[i].id !in q ==>
      Collides(pods, rows, rows[i]) && Recorded(pods, rows, q, |rows|)[rows[i].id].original == rows[i]
  {
    if rows[i].id in q {
      RecordedKeeps(pods, rows, q, |rows|, rows[i].id);
    } else {
      RecordedRow(pods, rows, q, |rows|, i);
    }
  }

  lemma StartupKeepsDistinct(pods: seq<Pod>, s: Scores)
    requires DistinctIds(s.rows) && OwnedDistinct(s.rows)
    ensures OwnedDistinct(Startup(pods, s).rows)
  {
    var rows, s' := s.rows, Startup(pods, s);
    forall i, j | 0 <= i < |rows| && 0 <= j < |rows| && i != j && Selected(RISK, pods, s'.quarantine, rows[i])
      ensures !SameSnapshot(s'.rows[i], s'.rows[j])
    {
      ColliderIsRecorded(pods, rows, s.quarantine, i);
      assert rows[i].id != rows[j].id;
      SoleOwner(pods, rows[i].uid, "");
      BackfillRow(RISK, pods, s'.quarantine, rows[j], "");
    }
    forall i, j | 0 <= i < j < |rows| ensures !SameSnapshot(s'.rows[i], s'.rows[j]) {
      if Selected(RISK, pods, s'.quarantine, rows[j]) {
        assert !SameSnapshot(s'.rows[j], s'.rows[i]);
      }
    }
  }

  /** Row `j` has the type and UID of row `i`, and is owned by `c` or by nobody. */
  predicate Rival(rows: seq<Row>, i: nat, j: nat, c: string)
    requires i < |rows| && j < |rows|
  {
    && j != i && rows[i].kind.Some? && rows[i].uid.Some?
    && rows[j].kind == rows[i].kind && rows[j].uid == rows[i].uid
    && (rows[j].cluster == Some(c) || !Present(rows[j].cluster))
  }

  ghost predicate HasRival(rows: seq<Row>, i: nat, c: string)
    requires i < |rows|
  {
    exists j: nat :: j < |rows| && Rival(rows, i, j, c)
  }

  lemma CollidesIffRival(pods: seq<Pod>, rows: seq<Row>, i: nat, c: string)
    requires i < |rows| && DistinctIds(rows) && !Present(rows[i].cluster) && IsPod(rows[i].kind)
    requires Owners(pods, rows[i].uid) == {c}
    ensures Collides(pods, rows, rows[i]) <==> HasRival(rows, i, c)
  {
    assert |Owners(pods, rows[i].uid)| == |{c}| == 1;
    SoleOwner(pods, rows[i].uid, c);
    if j: nat :| j < |rows| && Rival(rows, i, j, c) {
      assert rows[j].id != rows[i].id;
    }
    if Collides(pods, rows, rows[i]) {
      var j :| 0 <= j < |rows| && rows[j].id != rows[i].id
               && Eq(rows[j].uid, rows[i].uid).And(Eq(rows[j].kind, rows[i].kind)).Holds()
               && (Eq(rows[j].cluster, MinOwner(pods, rows[i].uid)).Holds() || !Present(rows[j].cluster));
      assert Rival(rows, i, j, c);
    }
  }

  /**
   What one startup does to an unowned Pod score with a sole owner that was not quarantined before:
   it is assigned exactly when no rival shares its type and UID, and quarantined otherwise.
   */
  lemma ScoreIsAssignedIff(pods: seq<Pod>, s: Scores, i: nat, c: string)
    requires DistinctIds(s.rows) && i < |s.rows| && s.rows[i].id !in s.quarantine
    requires !Present(s.rows[i].cluster) && Present(s.rows[i].uid) && IsPod(s.rows[i].kind)
    requires Owners(pods, s.rows[i].uid) == {c}
    ensures Startup(pods, s).rows[i].cluster == Some(c) <==> !HasRival(s.rows, i, c)
    ensures s.rows[i].id in Startup(pods, s).quarantine <==> HasRival(s.rows, i, c)
  {
    assert |Owners(pods, s.rows[i].uid)| == |{c}| == 1;
    SoleOwner(pods, s.rows[i].uid, c);
    CollidesIffRival(pods, s.rows, i, c);
    ColliderIsRecorded(pods, s.rows, s.quarantine, i);
  }

  /** Another row would have the type, UID and cluster of row `i` if everything unambiguous were assigned. */
  ghost predicate WouldMeet(pods: seq<Pod>, rows: seq<Row>, i: nat)
    requires i < |rows|
  {
    var after := Backfilled(RISK, pods, map[], rows);
    exists j :: 0 <= j < |rows| && j != i && SameSnapshot(after[i], after[j])
  }

  /** The quarantine takes exactly the rows that assigning everything would make collide. */
  lemma QuarantinedIffWouldMeet(pods: seq<Pod>, rows: seq<Row>, q: Quarantine, i: nat)
    requires DistinctIds(rows) && i < |rows| && rows[i].id !in q && Present(rows[i].uid)
    ensures rows[i].id in Recorded(pods, rows, q, |rows|) <==>
      !Present(rows[i].cluster) && IsPod(rows[i].kind) && |Owners(pods, rows[i].uid)| == 1 && WouldMeet(pods, rows, i)
  {
    ColliderIsRecorded(pods, rows, q, i);
    if !Present(rows[i].cluster) && IsPod(rows[i].kind) && |Owners(pods, rows[i].uid)| == 1 {
      SoleOwner(pods, rows[i].uid, "");
      var c := MinOwner(pods, rows[i].uid).value;
      SoleOwner(pods, rows[i].uid, c);
      CollidesIffRival(pods, rows, i, c);
      forall j: nat | j < |rows| && j != i
        ensures Rival(rows, i, j, c) <==>
          SameSnapshot(Backfilled(RISK, pods, map[], rows)[i], Backfilled(RISK, pods, map[], rows)[j])
      {
        RivalWouldMeet(pods, rows, i, j, c);
      }
    }
  }

  lemma RivalWouldMeet(pods: seq<Pod>, rows: seq<Row>, i: nat, j: nat, c: string)
    requires i < |rows| && j < |rows| && j != i && Present(rows[i].uid)
    requires !Present(rows[i].cluster) && IsPod(rows[i].kind) && Owners(pods, rows[i].uid) == {c}
    ensures Rival(rows, i, j, c) <==>
      SameSnapshot(BackfilledRow(RISK, pods, map[], rows[i]), BackfilledRow(RISK, pods, map[], rows[j]))
  {
    assert |Owners(pods, rows[i].uid)| == |{c}| == 1;
    SoleOwner(pods, rows[i].uid, c);
    if rows[j].uid == rows[i].uid {
      UnownedIsUnassigned(RISK, pods, map[], rows[j]);
    }
  }

  predicate EvidenceKept(a: Quarantine, b: Quarantine) {
    a.Keys <= b.Keys && forall id | id in a :: b[id] == a[id]
  }

  lemma RecordingKeepsEvidence(pods: seq<Pod>, s: Scores)
    requires DistinctIds(s.rows) && EvidenceIntact(s)
    ensures EvidenceIntact(RecordedOnce(pods, s)) && EvidenceKept(s.quarantine, RecordedOnce(pods, s).quarantine)
  {
    var q' := RecordedOnce(pods, s).quarantine;
    forall id | id in s.quarantine ensures id in q' && q'[id] == s.quarantine[id] {
      RecordedKeeps(pods, s.rows, s.quarantine, |s.rows|, id);
    }
    forall i | 0 <= i < |s.rows| && s.rows[i].id in q'
      ensures !Present(s.rows[i].cluster) && s.rows[i] == q'[s.rows[i].id].original
    {
      ColliderIsRecorded(pods, s.rows, s.quarantine, i);
    }
  }

  lemma StartupKeepsEvidence(pods: seq<Pod>, s: Scores)
    requires DistinctIds(s.rows) && EvidenceIntact(s)
    ensures DistinctIds(Startup(pods, s).rows) && EvidenceIntact(Startup(pods, s))
    ensures EvidenceKept(s.quarantine, Startup(pods, s).quarantine)
    ensures forall i | 0 <= i < |s.rows| && s.rows[i].id in s.quarantine :: Startup(pods, s).rows[i] == s.rows[i]
  {
    RecordingKeepsEvidence(pods, s);
  }

  /** Rerunning a startup against the same pods changes neither rows nor evidence. */
  lemma StartupIsIdempotent(pods: seq<Pod>, s: Scores)
    requires DistinctIds(s.rows) && EvidenceIntact(s)
    ensures Startup(pods, Startup(pods, s)) == Startup(pods, s)
  {
    var s' := Startup(pods, s);
    var rows, rows', q' := s.rows, s'.rows, s'.quarantine;
    StartupKeepsEvidence(pods, s);
    forall i | 0 <= i < |rows'| ensures Collides(pods, rows', rows'[i]) ==> rows'[i].id in q' {
      if Collides(pods, rows', rows'[i]) && rows'[i].id !in q' {
        SoleOwner(pods, rows'[i].uid, "");
        assert rows'[i] == rows[i];
        var j :| 0 <= j < |rows'| && rows'[j].id != rows'[i].id
                 && Eq(rows'[j].uid, rows'[i].uid).And(Eq(rows'[j].kind, rows'[i].kind)).Holds()
                 && (Eq(rows'[j].cluster, MinOwner(pods, rows'[i].uid)).Holds() || !Present(rows'[j].cluster));
        BackfillRow(RISK, pods, q', rows[j], "");
        assert Collides(pods, rows, rows[i]);
        ColliderIsRecorded(pods, rows, s.quarantine, i);
      }
    }
    NothingToRecord(pods, rows', q', |rows'|);
    forall i | 0 <= i < |rows'| ensures BackfilledRow(RISK, pods, q', rows'[i]) == rows'[i] {
      BackfillRow(RISK, pods, q', rows[i], "");
    }
    assert Startup(pods, s').rows == rows';
  }

  lemma {:induction false} NothingToRecord(pods: seq<Pod>, rows: seq<Row>, q: Quarantine, n: nat)
    requires n <= |rows|
    requires forall i | 0 <= i < |rows| :: Collides(pods, rows, rows[i]) ==> rows[i].id in q
    ensures Recorded(pods, rows, q, n) == q
  {
    if n > 0 {
      NothingToRecord(pods, rows, q, n - 1);
    }
  }

  /**
   Between startups the pods table may change, other writers insert rows under the unique key and
   the scorer upserts snapshots on it; a startup that is cut short or refused before its UPDATE of
   risk_scores only records.
   */
  datatype Event =
    | Restarted(pods: seq<Pod>) | CutShort(pods: seq<Pod>) | Inserted(row: Row) | Upserted(row: Row)

  predicate Admitted(s: Scores, row: Row) {
    && row.id !in s.quarantine
    && forall i | 0 <= i < |s.rows| :: s.rows[i].id != row.id && !SameSnapshot(s.rows[i], row)
  }

  function Step(s: Scores, e: Event): Scores {
    match e
    case Restarted(pods) => Startup(pods, s)
    case CutShort(pods) => RecordedOnce(pods, s)
    case Inserted(row) => if Admitted(s, row) then s.(rows := s.rows + [row]) else s
    case Upserted(row) => Upsert(s, row)
  }

  /** The first row from `i` on that holds the snapshot key of `row`. */
  function Holder(rows: seq<Row>, row: Row, i: nat): (r: Option<nat>)
    requires i <= |rows|
    ensures r.Some? ==> i <= r.value < |rows| && SameSnapshot(rows[r.value], row)
    ensures r.None? ==> forall j | i <= j < |rows| :: !SameSnapshot(rows[j], row)
    decreases |rows| - i
  {
    if i == |rows| then None else if SameSnapshot(rows[i], row) then Some(i) else Holder(rows, row, i + 1)
  }

  /**
   INSERT ... ON CONFLICT (resource_type, resource_uid, cluster_id) DO UPDATE: a conflict rewrites
   the other columns of the row that holds the key. The scorer refuses an unowned identity.
   */
  function Upsert(s: Scores, row: Row): Scores {
    var i := Holder(s.rows, row, 0);
    if !Present(row.cluster) || !Present(row.uid) then s
    else if i.Some? then s.(rows := s.rows[i.value := s.rows[i.value].(cells := row.cells)])
    else if Admitted(s, row) then s.(rows := s.rows + [row])
    else s
  }

  /** The sequence has not issued the id yet. */
  predicate Unused(s: Scores, id: nat) {
    id !in s.quarantine && forall i | 0 <= i < |s.rows| :: s.rows[i].id != id
  }

  lemma UpsertTakesEffect(s: Scores, row: Row)
    requires Present(row.cluster) && Present(row.uid) && row.kind.Some? && Unused(s, row.id)
    ensures exists i :: 0 <= i < |Upsert(s, row).rows| && SameSnapshot(Upsert(s, row).rows[i], row)
                        && Upsert(s, row).rows[i].cells == row.cells
  {
    var i, after := Holder(s.rows, row, 0), Upsert(s, row).rows;
    var k := if i.Some? then i.value else |s.rows|;
    assert SameSnapshot(after[k], row) && after[k].cells == row.cells;
  }

  /** An upsert moves no row between keys and touches no quarantined row. */
  lemma UpsertIsSound(s: Scores, row: Row)
    requires Sound(s)
    ensures Sound(Upsert(s, row)) && Upsert(s, row).quarantine == s.quarantine && |s.rows| <= |Upsert(s, row).rows|
    ensures forall i | 0 <= i < |s.rows| && s.rows[i].id in s.quarantine :: Upsert(s, row).rows[i] == s.rows[i]
    ensures !Present(row.cluster) || !Present(row.uid) ==> Upsert(s, row) == s
    ensures Present(row.cluster) && Present(row.uid) && row.kind.Some? && Unused(s, row.id) ==>
      exists i :: 0 <= i < |Upsert(s, row).rows| && SameSnapshot(Upsert(s, row).rows[i], row)
                  && Upsert(s, row).rows[i].cells == row.cells
  {
    if Present(row.cluster) && Present(row.uid) && row.kind.Some? && Unused(s, row.id) {
      UpsertTakesEffect(s, row);
    }
    var rows, after := s.rows, Upsert(s, row).rows;
    if |after| == |rows| {
      forall i | 0 <= i < |rows|
        ensures after[i].id == rows[i].id && after[i].kind == rows[i].kind && after[i].uid == rows[i].uid
        ensures after[i].cluster == rows[i].cluster && (!Present(rows[i].cluster) ==> after[i] == rows[i])
      {
      }
      assert forall i, j | 0 <= i < j < |rows| :: SameSnapshot(after[i], after[j]) == SameSnapshot(rows[i], rows[j]);
    }
  }

  function Run(s: Scores, events: seq<Event>): Scores
    decreases |events|
  {
    if events == [] then s else Run(Step(s, events[0]), events[1..])
  }

  /** A new id is inserted unless an owned row already has its type, UID and cluster. */
  lemma InsertTakesEffect(s: Scores, row: Row)
    requires Unused(s, row.id)
    ensures Step(s, Inserted(row)) ==
      if exists i :: 0 <= i < |s.rows| && Present(s.rows[i].cluster) && s.rows[i].cluster == row.cluster
                     && s.rows[i].kind.Some? && s.rows[i].kind == row.kind
                     && s.rows[i].uid.Some? && s.rows[i].uid == row.uid
      then s else s.(rows := s.rows + [row])
  {
    if Admitted(s, row) {
      assert forall i | 0 <= i < |s.rows| :: !SameSnapshot(s.rows[i], row);
    } else {
      var i :| 0 <= i < |s.rows| && SameSnapshot(s.rows[i], row);
    }
  }

  /** Histories compose, and one event is one step. */
  lemma {:induction false} RunComposes(s: Scores, a: seq<Event>, b: seq<Event>, e: Event)
    ensures Run(s, a + b) == Run(Run(s, a), b) && Run(s, [e]) == Step(s, e)
    decreases |a|
  {
    assert Run(Step(s, e), [e][1..]) == Step(s, e);
    if a == [] {
      assert a + b == b;
    } else {
      assert (a + b)[1..] == a[1..] + b;
      RunComposes(Step(s, a[0]), a[1..], b, e);
    }
  }

  /**
   Over any history of startups, inserts and upserts: owned scores stay distinct, every row quarantined
   along the way stays unowned and as recorded, and the first evidence is never replaced.
   */
  lemma {:induction false} HistoryIsSound(s: Scores, events: seq<Event>)
    requires Sound(s)
    ensures Sound(Run(s, events))
    ensures EvidenceKept(s.quarantine, Run(s, events).quarantine)
    ensures |s.rows| <= |Run(s, events).rows|
    ensures forall i | 0 <= i < |s.rows| && s.rows[i].id in s.quarantine :: Run(s, events).rows[i] == s.rows[i]
    decreases |events|
  {
    if events != [] {
      var s' := Step(s, events[0]);
      if events[0].Restarted? {
        StartupKeepsDistinct(events[0].pods, s);
        StartupKeepsEvidence(events[0].pods, s);
      } else if events[0].CutShort? {
        RecordingKeepsEvidence(events[0].pods, s);
      } else if events[0].Upserted? {
        UpsertIsSound(s, events[0].row);
      }
      HistoryIsSound(s', events[1..]);
    }
  }

  // ---------------------------------------------------------------- what can refuse an UPDATE

  /** A unique index that mentions cluster_id, partial to rows whose columns are non-empty or NULL as listed. */
  datatype Key = Key(columns: seq<Column>, present: set<Column>, absent: set<Column>)

  /** The keys in force by table, `sbom_owner_immutable`, and the tables under `sbom_association_owner`. */
  datatype Guards = Guards(keys: map<Table, seq<Key>>, ownerFrozen: bool, linksChecked: set<Table>)

  function KeysOf(g: Guards, table: Table): seq<Key> {
    if table in g.keys then g.keys[table] else []
  }

  function Columns(t: Target, row: Row): KeySwap.Row {
    row.cells[ResourceType := row.kind][t.uidColumn := row.uid][ClusterId := row.cluster]
  }

  predicate Covers(t: Target, k: Key, row: Row) {
    && (forall c | c in k.present :: Present(KeySwap.Cell(Columns(t, row), c)))
    && (forall c | c in k.absent :: KeySwap.Cell(Columns(t, row), c).None?)
  }

  /** Both rows are indexed and have one key value. */
  predicate Duplicate(t: Target, k: Key, a: Row, b: Row) {
    Covers(t, k, a) && Covers(t, k, b) && KeySwap.Clash(Columns(t, a), Columns(t, b), k.columns)
  }

  predicate UniqueOn(t: Target, k: Key, rows: seq<Row>) {
    forall i, j | 0 <= i < |rows| && 0 <= j < |rows| && i != j :: !Duplicate(t, k, rows[i], rows[j])
  }

  /** `fortuna_sbom_association_owner`: a named SBOM is live, owned, and of this Pod and container. */
  predicate LinkOk(t: Target, sboms: seq<Row>, row: Row) {
    row.sbom.Some? ==> exists i :: 0 <= i < |sboms| && LinksTo(t, row, sboms[i])
  }

  predicate LinksTo(t: Target, row: Row, s: Row) {
    && row.sbom == Some(s.id)
    && Eq(s.cluster, row.cluster).And(Eq(s.uid, row.uid)).Holds()
    && KeySwap.Cell(s.cells, DeletedAt).None? && Present(s.cluster) && Present(s.uid)
    && (t.table == MalwareMatches
        || Eq(KeySwap.Cell(s.cells, ContainerName), KeySwap.Cell(row.cells, ContainerName)).Holds())
  }

  /**
   The UPDATE fails as a whole: a trigger raises for a row it selects, or a key in force fails.
   Keys are checked at the end; `RowByRowIsTheSame` shows that checking each row gives no other verdict.
   */
  predicate Refused(g: Guards, t: Target, pods: seq<Pod>, q: Quarantine, rows: seq<Row>, sboms: seq<Row>) {
    || (exists i :: 0 <= i < |rows| && Selected(t, pods, q, rows[i])
                    && RowRefused(g, t, sboms, rows[i], BackfilledRow(t, pods, q, rows[i])))
    || (exists k | k in KeysOf(g, t.table) :: !UniqueOn(t, k, Backfilled(t, pods, q, rows)))
  }

  predicate RowRefused(g: Guards, t: Target, sboms: seq<Row>, before: Row, after: Row) {
    || (t.table == SBOMS.table && g.ownerFrozen && (after.cluster != before.cluster || after.uid != before.uid))
    || (t.table in g.linksChecked && !LinkOk(t, sboms, after))
  }

  /** The cluster a row is about to have. */
  function Heir(t: Target, pods: seq<Pod>, q: Quarantine, row: Row): Option<string> {
    if Selected(t, pods, q, row) then MinOwner(pods, row.uid) else row.cluster
  }

  /** Indexed, whatever the cluster. */
  predicate CoversBeside(t: Target, k: Key, row: Row) {
    && (forall c | c in k.present && c != ClusterId :: Present(KeySwap.Cell(Columns(t, row), c)))
    && (forall c | c in k.absent :: KeySwap.Cell(Columns(t, row), c).None?)
  }

  /** Both rows are or will be of one cluster and already agree on the rest of the key. */
  predicate Collide(t: Target, pods: seq<Pod>, q: Quarantine, k: Key, a: Row, b: Row) {
    && Eq(Heir(t, pods, q, a), Heir(t, pods, q, b)).Holds()
    && CoversBeside(t, k, a) && CoversBeside(t, k, b)
    && forall c | c in k.columns && c != ClusterId ::
         Eq(KeySwap.Cell(Columns(t, a), c), KeySwap.Cell(Columns(t, b), c)).Holds()
  }

  /** What a caller can look for before the statement: a row about to be assigned that something stands against. */
  predicate Obstructed(g: Guards, t: Target, pods: seq<Pod>, q: Quarantine, rows: seq<Row>, sboms: seq<Row>, i: nat)
    requires i < |rows|
  {
    && Selected(t, pods, q, rows[i])
    && (|| (t.table == SBOMS.table && g.ownerFrozen)
        || (t.table in g.linksChecked && !LinkOk(t, sboms, rows[i].(cluster := MinOwner(pods, rows[i].uid))))
        || (exists k, j | k in KeysOf(g, t.table) && 0 <= j < |rows| && j != i ::
            Collide(t, pods, q, k, rows[i], rows[j])))
  }

  predicate Blocked(g: Guards, t: Target, pods: seq<Pod>, q: Quarantine, rows: seq<Row>, sboms: seq<Row>) {
    exists i :: 0 <= i < |rows| && Obstructed(g, t, pods, q, rows, sboms, i)
  }

  /** Keys mention the cluster and are not partial to unowned rows; the UID has a column of its own. */
  predicate ClusterKeys(g: Guards, t: Target) {
    && t.uidColumn != ClusterId
    && forall k | k in KeysOf(g, t.table) :: ClusterId in k.columns && ClusterId !in k.absent
  }

  predicate KeysHold(g: Guards, t: Target, rows: seq<Row>) {
    forall k | k in KeysOf(g, t.table) :: UniqueOn(t, k, rows)
  }

  /** The checks on the smallest tables. */
  lemma SmallTables(t: Target, pods: seq<Pod>, k: Key, a: Row, b: Row)
    ensures Consistent(t, pods, [a]) <==> !Inconsistent(t, pods, a)
    ensures UniqueOn(t, k, [a, b]) <==> !Duplicate(t, k, a, b)
  {
    assert [a][0] == a && [a, b][0] == a && [a, b][1] == b;
    DuplicateIsSymmetric(t, k, a, b);
    DuplicateIsSymmetric(t, k, b, a);
  }

  /** Two rows of which one is assigned clash afterwards exactly when they collide. */
  lemma PairCollides(t: Target, pods: seq<Pod>, q: Quarantine, k: Key, a: Row, b: Row)
    requires t.uidColumn != ClusterId && ClusterId in k.columns && ClusterId !in k.absent && Selected(t, pods, q, a)
    ensures Duplicate(t, k, BackfilledRow(t, pods, q, a), BackfilledRow(t, pods, q, b)) <==>
      Collide(t, pods, q, k, a, b)
  {
    var a', b' := BackfilledRow(t, pods, q, a), BackfilledRow(t, pods, q, b);
    SoleOwner(pods, a.uid, "");
    ColumnsBeside(t, pods, q, a);
    ColumnsBeside(t, pods, q, b);
    assert KeySwap.Cell(Columns(t, a'), ClusterId) == Heir(t, pods, q, a);
    assert KeySwap.Cell(Columns(t, b'), ClusterId) == Heir(t, pods, q, b);
  }

  /** Checked row by row, an assigned row meets no row that it would not meet at the end of the statement. */
  lemma RowByRowIsTheSame(t: Target, pods: seq<Pod>, q: Quarantine, k: Key, a: Row, b: Row)
    requires ClusterId in k.columns && Selected(t, pods, q, a)
    ensures Duplicate(t, k, BackfilledRow(t, pods, q, a), b) ==>
      Duplicate(t, k, BackfilledRow(t, pods, q, a), BackfilledRow(t, pods, q, b))
  {
    SoleOwner(pods, a.uid, "");
    if Selected(t, pods, q, b) {
      assert KeySwap.Cell(Columns(t, BackfilledRow(t, pods, q, a)), ClusterId) == MinOwner(pods, a.uid);
      assert KeySwap.Cell(Columns(t, b), ClusterId) == b.cluster;
    }
  }

  lemma ColumnsBeside(t: Target, pods: seq<Pod>, q: Quarantine, row: Row)
    requires t.uidColumn != ClusterId
    ensures forall c | c != ClusterId ::
      KeySwap.Cell(Columns(t, BackfilledRow(t, pods, q, row)), c) == KeySwap.Cell(Columns(t, row), c)
  {
  }

  lemma DuplicateIsSymmetric(t: Target, k: Key, a: Row, b: Row)
    ensures Duplicate(t, k, a, b) ==> Duplicate(t, k, b, a)
  {
  }

  lemma KeyFailureIsObstruction(
    g: Guards, t: Target, pods: seq<Pod>, q: Quarantine, rows: seq<Row>, sboms: seq<Row>, k: Key)
    requires ClusterKeys(g, t) && KeysHold(g, t, rows) && k in KeysOf(g, t.table)
    requires !UniqueOn(t, k, Backfilled(t, pods, q, rows))
    ensures Blocked(g, t, pods, q, rows, sboms)
  {
    var after := Backfilled(t, pods, q, rows);
    var i, j :| 0 <= i < |rows| && 0 <= j < |rows| && i != j && Duplicate(t, k, after[i], after[j]);
    assert !Duplicate(t, k, rows[i], rows[j]);
    if Selected(t, pods, q, rows[i]) {
      PairCollides(t, pods, q, k, rows[i], rows[j]);
      assert Obstructed(g, t, pods, q, rows, sboms, i);
    } else {
      DuplicateIsSymmetric(t, k, after[i], after[j]);
      PairCollides(t, pods, q, k, rows[j], rows[i]);
      assert Obstructed(g, t, pods, q, rows, sboms, j);
    }
  }

  lemma ObstructionRefuses(g: Guards, t: Target, pods: seq<Pod>, q: Quarantine, rows: seq<Row>, sboms: seq<Row>, i: nat)
    requires ClusterKeys(g, t) && i < |rows| && Obstructed(g, t, pods, q, rows, sboms, i)
    ensures Refused(g, t, pods, q, rows, sboms)
  {
    SoleOwner(pods, rows[i].uid, "");
    if !RowRefused(g, t, sboms, rows[i], BackfilledRow(t, pods, q, rows[i])) {
      var k, j :| k in KeysOf(g, t.table) && 0 <= j < |rows| && j != i && Collide(t, pods, q, k, rows[i], rows[j]);
      PairCollides(t, pods, q, k, rows[i], rows[j]);
      assert !UniqueOn(t, k, Backfilled(t, pods, q, rows)) by {
        var after := Backfilled(t, pods, q, rows);
        assert Duplicate(t, k, after[i], after[j]);
      }
    }
  }

  /** An UPDATE is refused exactly when a row it would assign is obstructed; otherwise the keys still hold. */
  lemma RefusedIffBlocked(g: Guards, t: Target, pods: seq<Pod>, q: Quarantine, rows: seq<Row>, sboms: seq<Row>)
    requires ClusterKeys(g, t) && KeysHold(g, t, rows)
    ensures Refused(g, t, pods, q, rows, sboms) <==> Blocked(g, t, pods, q, rows, sboms)
    ensures !Refused(g, t, pods, q, rows, sboms) ==> KeysHold(g, t, Backfilled(t, pods, q, rows))
  {
    if i :| 0 <= i < |rows| && Obstructed(g, t, pods, q, rows, sboms, i) {
      ObstructionRefuses(g, t, pods, q, rows, sboms, i);
    } else if k :| k in KeysOf(g, t.table) && !UniqueOn(t, k, Backfilled(t, pods, q, rows)) {
      KeyFailureIsObstruction(g, t, pods, q, rows, sboms, k);
    } else if Refused(g, t, pods, q, rows, sboms) {
      var i :| 0 <= i < |rows| && Selected(t, pods, q, rows[i])
               && RowRefused(g, t, sboms, rows[i], BackfilledRow(t, pods, q, rows[i]));
      assert Obstructed(g, t, pods, q, rows, sboms, i);
    }
  }

  /** Once assigned, the same pods assign nothing more, so a repeated UPDATE is never refused. */
  lemma RepeatIsNotBlocked(g: Guards, t: Target, pods: seq<Pod>, q: Quarantine, rows: seq<Row>, sboms: seq<Row>)
    ensures !Blocked(g, t, pods, q, Backfilled(t, pods, q, rows), sboms)
  {
    forall i | 0 <= i < |rows| ensures !Selected(t, pods, q, Backfilled(t, pods, q, rows)[i]) {
      if Selected(t, pods, q, rows[i]) {
        SoleOwner(pods, rows[i].uid, "");
      }
    }
  }

  // ---------------------------------------------------------------- two tables side by side

  const RISK_KEY := Key([ResourceType, ResourceUid, ClusterId], {}, {})
  const INSIGHT_KEY := Key([ClusterId, ResourceUid, CveId, InsightType], {}, {})

  lemma RiskDuplicate(a: Row, b: Row)
    ensures Duplicate(RISK, RISK_KEY, a, b) <==>
      Eq(a.kind, b.kind).And(Eq(a.uid, b.uid)).And(Eq(a.cluster, b.cluster)).Holds()
  {
    var x, y := Columns(RISK, a), Columns(RISK, b);
    assert RISK_KEY.columns[0] == ResourceType && RISK_KEY.columns[1] == ResourceUid
      && RISK_KEY.columns[2] == ClusterId;
    assert KeySwap.Cell(x, ResourceType) == a.kind && KeySwap.Cell(y, ResourceType) == b.kind;
    assert KeySwap.Cell(x, ResourceUid) == a.uid && KeySwap.Cell(y, ResourceUid) == b.uid;
    assert KeySwap.Cell(x, ClusterId) == a.cluster && KeySwap.Cell(y, ClusterId) == b.cluster;
  }

  lemma RiskStaysUnique(pods: seq<Pod>, s: Scores)
    requires DistinctIds(s.rows) && UniqueOn(RISK, RISK_KEY, s.rows)
    ensures UniqueOn(RISK, RISK_KEY, Startup(pods, s).rows)
  {
    var rows, rows', q' := s.rows, Startup(pods, s).rows, Startup(pods, s).quarantine;
    forall i, j | 0 <= i < j < |rows| ensures !SameSnapshot(rows[i], rows[j]) {
      RiskDuplicate(rows[i], rows[j]);
    }
    StartupKeepsDistinct(pods, s);
    forall i, j | 0 <= i < |rows| && 0 <= j < |rows| && i != j ensures !Duplicate(RISK, RISK_KEY, rows'[i], rows'[j]) {
      RiskDuplicate(rows'[i], rows'[j]);
      RiskDuplicate(rows[i], rows[j]);
      assert !Duplicate(RISK, RISK_KEY, rows[i], rows[j]);
      if Present(rows'[i].cluster) {
        assert !SameSnapshot(rows'[if i < j then i else j], rows'[if i < j then j else i]);
      } else {
        UnownedIsUnassigned(RISK, pods, q', rows[i]);
        UnownedIsUnassigned(RISK, pods, q', rows[j]);
      }
    }
  }

  /** The quarantine does its job: after it nothing obstructs the UPDATE of risk_scores, whatever the triggers. */
  lemma RiskIsNeverRefused(g: Guards, pods: seq<Pod>, s: Scores, sboms: seq<Row>)
    requires DistinctIds(s.rows) && KeysHold(g, RISK, s.rows) && g.linksChecked <= LINKED
    requires forall k | k in KeysOf(g, RiskScores) :: k == RISK_KEY
    ensures !Blocked(g, RISK, pods, RecordedOnce(pods, s).quarantine, s.rows, sboms)
  {
    var q := RecordedOnce(pods, s).quarantine;
    forall i | 0 <= i < |s.rows| ensures !Obstructed(g, RISK, pods, q, s.rows, sboms, i) {
      if Selected(RISK, pods, q, s.rows[i]) {
        forall k, j | k in KeysOf(g, RiskScores) && 0 <= j < |s.rows| && j != i
          ensures !Collide(RISK, pods, q, k, s.rows[i], s.rows[j])
        {
          RiskPair(pods, s, i, j);
        }
      }
    }
  }

  lemma RiskPair(pods: seq<Pod>, s: Scores, i: nat, j: nat)
    requires DistinctIds(s.rows) && UniqueOn(RISK, RISK_KEY, s.rows)
    requires i < |s.rows| && j < |s.rows| && i != j && Selected(RISK, pods, RecordedOnce(pods, s).quarantine, s.rows[i])
    ensures !Collide(RISK, pods, RecordedOnce(pods, s).quarantine, RISK_KEY, s.rows[i], s.rows[j])
  {
    RiskStaysUnique(pods, s);
    assert !Duplicate(RISK, RISK_KEY, Startup(pods, s).rows[i], Startup(pods, s).rows[j]);
    assert RISK_KEY.columns[2] == ClusterId;
    PairCollides(RISK, pods, RecordedOnce(pods, s).quarantine, RISK_KEY, s.rows[i], s.rows[j]);
  }

  lemma UnownedIsUnassigned(t: Target, pods: seq<Pod>, q: Quarantine, row: Row)
    ensures !Present(BackfilledRow(t, pods, q, row).cluster) ==> BackfilledRow(t, pods, q, row) == row
  {
    if Selected(t, pods, q, row) {
      SoleOwner(pods, row.uid, "");
    }
  }

  const FINDING: map<Column, Option<string>> := map[CveId := Some("CVE-1"), InsightType := Some("vulnerability")]

  lemma OnePodOwns(u: string, c: string)
    requires c != ""
    ensures var pods := [Pod(Some(u), Some(c))]; Owners(pods, Some(u)) == {c} && MinOwner(pods, Some(u)) == Some(c)
  {
    var pods := [Pod(Some(u), Some(c))];
    assert Lists(pods[0], Some(u));
    assert Owners(pods, Some(u)) == {c};
    assert MinOwner(pods[1..], Some(u)) == None;
  }

  /** Rows that differ in cluster only agree on every other column. */
  lemma TwinsAgree(t: Target, a: Row, b: Row, c: Column)
    requires a.uid == b.uid && a.kind == b.kind && a.cells == b.cells && c != ClusterId
    ensures KeySwap.Cell(Columns(t, a), c) == KeySwap.Cell(Columns(t, b), c)
  {
  }

  lemma FindingIsKeyed(row: Row, c: Column)
    requires row.cells == FINDING && row.uid.Some? && c in INSIGHT_KEY.columns && c != ClusterId
    ensures KeySwap.Cell(Columns(INSIGHTS, row), c).Some?
  {
    assert c == ResourceUid || c == CveId || c == InsightType;
  }

  /** Insights have the same hazard and no quarantine: an owned and an unowned finding of one Pod stop startup. */
  lemma InsightCollisionBlocks()
    ensures var rows := [ Row(1, Some("u"), Some("c"), Some("Pod"), None, FINDING),
                          Row(2, Some("u"), None, Some("Pod"), None, FINDING) ];
      var pods, g := [Pod(Some("u"), Some("c"))], Guards(map[Insights := [INSIGHT_KEY]], false, {});
      && ClusterKeys(g, INSIGHTS) && KeysHold(g, INSIGHTS, rows) && Consistent(INSIGHTS, pods, rows)
      && Blocked(g, INSIGHTS, pods, map[], rows, [])
  {
    var a := Row(1, Some("u"), Some("c"), Some("Pod"), None, FINDING);
    var b := Row(2, Some("u"), None, Some("Pod"), None, FINDING);
    var rows, pods, g := [a, b], [Pod(Some("u"), Some("c"))], Guards(map[Insights := [INSIGHT_KEY]], false, {});
    OnePodOwns("u", "c");
    assert INSIGHT_KEY.columns[0] == ClusterId;
    assert KeySwap.Cell(Columns(INSIGHTS, b), ClusterId) == None;
    assert Text.Lower("Pod") == "pod";
    assert Eq(pods[0].uid, a.uid).And(Eq(pods[0].cluster, a.cluster)).Holds();
    assert Consistent(INSIGHTS, pods, rows);
    assert |Owners(pods, b.uid)| == |{"c"}| == 1;
    forall c | c in INSIGHT_KEY.columns && c != ClusterId
      ensures Eq(KeySwap.Cell(Columns(INSIGHTS, b), c), KeySwap.Cell(Columns(INSIGHTS, a), c)).Holds()
    {
      FindingIsKeyed(a, c);
      TwinsAgree(INSIGHTS, a, b, c);
    }
    assert Collide(INSIGHTS, pods, map[], INSIGHT_KEY, rows[1], rows[0]);
    assert KeysOf(g, INSIGHTS.table) == [INSIGHT_KEY];
    assert INSIGHT_KEY in KeysOf(g, INSIGHTS.table) && rows[0] == a;
    assert Obstructed(g, INSIGHTS, pods, map[], rows, [], 1);
  }

  /** An unowned CVE match whose SBOM is still unowned: the association trigger stops startup at the match. */
  lemma UnownedLinkBlocks()
    ensures var sboms := [Row(7, Some("u"), None, None, None, map[ContainerName := Some("app")])];
      var rows := [Row(1, Some("u"), None, None, Some(7), map[ContainerName := Some("app")])];
      var t, pods, g := PodTable(CveMatches), [Pod(Some("u"), Some("c"))], Guards(map[], true, LINKED);
      && ClusterKeys(g, t) && KeysHold(g, t, rows) && Consistent(t, pods, rows)
      && Blocked(g, t, pods, map[], rows, sboms)
  {
    var sboms := [Row(7, Some("u"), None, None, None, map[ContainerName := Some("app")])];
    var rows := [Row(1, Some("u"), None, None, Some(7), map[ContainerName := Some("app")])];
    var t, pods, g := PodTable(CveMatches), [Pod(Some("u"), Some("c"))], Guards(map[], true, LINKED);
    OnePodOwns("u", "c");
    assert |Owners(pods, rows[0].uid)| == |{"c"}| == 1;
    assert !LinksTo(t, rows[0].(cluster := Some("c")), sboms[0]);
    assert Obstructed(g, t, pods, map[], rows, sboms, 0);
  }

  // ---------------------------------------------------------------- the startup sequence

  /** One table after the first `n` UPDATE statements. */
  function TableAfter(name: Table, rows: seq<Row>, pods: seq<Pod>, q: Quarantine, targets: seq<Target>,
    n: nat): seq<Row>
    requires n <= |targets|
  {
    if n == 0 then rows
    else
      var before := TableAfter(name, rows, pods, q, targets, n - 1);
      if targets[n - 1].table == name then Backfilled(targets[n - 1], pods, q, before) else before
  }

  function AfterUpdates(tables: Tables, pods: seq<Pod>, q: Quarantine, targets: seq<Target>, n: nat)
    : Tables
    requires n <= |targets|
  {
    map name | name in tables :: TableAfter(name, tables[name], pods, q, targets, n)
  }

  /** Each listed table is updated once, by its own statement; the others keep their rows. */
  lemma {:induction false} TableUpdatedOnce(
    name: Table, rows: seq<Row>, pods: seq<Pod>, q: Quarantine, targets: seq<Target>, n: nat)
    requires n <= |targets| && Separate(targets)
    ensures (forall i | 0 <= i < n :: targets[i].table != name) ==> TableAfter(name, rows, pods, q, targets, n) == rows
    ensures forall i | 0 <= i < n && targets[i].table == name ::
      TableAfter(name, rows, pods, q, targets, n) == Backfilled(targets[i], pods, q, rows)
  {
    if n > 0 {
      TableUpdatedOnce(name, rows, pods, q, targets, n - 1);
    }
  }

  lemma ValidationUnmoved(t: Target, pods: seq<Pod>, q: Quarantine, rows: seq<Row>)
    ensures Consistent(t, pods, Backfilled(t, pods, q, rows)) <==> Consistent(t, pods, rows)
  {
    forall i | 0 <= i < |rows|
      ensures Inconsistent(t, pods, Backfilled(t, pods, q, rows)[i]) <==> Inconsistent(t, pods, rows[i])
    {
      BackfillRow(t, pods, q, rows[i], "");
    }
  }

  /** Nothing obstructs the UPDATE of one target, given all tables. */
  predicate Clear(g: Guards, tables: Tables, pods: seq<Pod>, q: Quarantine, t: Target) {
    t.table in tables && !Blocked(g, t, pods, q, tables[t.table], SbomsIn(tables))
  }

  function SbomsIn(tables: Tables): seq<Row> {
    if SBOMS.table in tables then tables[SBOMS.table] else []
  }

  /** What the database keeps true of the targets, and that the list is laid out as the shipped one. */
  ghost predicate Ready(g: Guards, tables: Tables, targets: seq<Target>) {
    && Separate(targets) && LinksFirst(targets) && g.linksChecked <= LINKED
    && forall i | 0 <= i < |targets| :: TargetReady(g, tables, targets[i])
  }

  predicate TargetReady(g: Guards, tables: Tables, t: Target) {
    t.table in tables && ClusterKeys(g, t) && KeysHold(g, t, tables[t.table])
  }

  /** Unless the table's rows name SBOMs, the SBOMs do not matter. */
  lemma BlockedElsewhere(g: Guards, t: Target, pods: seq<Pod>, q: Quarantine, rows: seq<Row>, sboms: seq<Row>,
    other: seq<Row>)
    requires t.table in g.linksChecked ==> sboms == other
    ensures Blocked(g, t, pods, q, rows, sboms) ==> Blocked(g, t, pods, q, rows, other)
  {
    if i :| 0 <= i < |rows| && Obstructed(g, t, pods, q, rows, sboms, i) {
      assert Obstructed(g, t, pods, q, rows, other, i);
    }
  }

  /** The statement of target `n` sees its own table, and the SBOMs if it needs them, as they were at the start. */
  lemma NextRefusedIffNotClear(
    g: Guards, tables: Tables, now: Tables, pods: seq<Pod>, q: Quarantine,
    targets: seq<Target>, n: nat)
    requires Ready(g, tables, targets) && n < |targets| && now == AfterUpdates(tables, pods, q, targets, n)
    ensures var t := targets[n];
      && t.table in now && now[t.table] == tables[t.table]
      && (Refused(g, t, pods, q, now[t.table], SbomsIn(now)) <==> !Clear(g, tables, pods, q, t))
  {
    var t := targets[n];
    assert TargetReady(g, tables, t);
    TableUpdatedOnce(t.table, tables[t.table], pods, q, targets, n);
    if t.table in g.linksChecked && SBOMS.table in tables {
      TableUpdatedOnce(SBOMS.table, tables[SBOMS.table], pods, q, targets, n);
    }
    RefusedIffBlocked(g, t, pods, q, tables[t.table], SbomsIn(now));
    BlockedElsewhere(g, t, pods, q, tables[t.table], SbomsIn(now), SbomsIn(tables));
    BlockedElsewhere(g, t, pods, q, tables[t.table], SbomsIn(tables), SbomsIn(now));
  }

  lemma ReadyAfter(g: Guards, tables: Tables, targets: seq<Target>, n: nat, rows: seq<Row>)
    requires Ready(g, tables, targets) && n < |targets| && KeysHold(g, targets[n], rows)
    ensures Ready(g, tables[targets[n].table := rows], targets)
  {
    var after := tables[targets[n].table := rows];
    forall i | 0 <= i < |targets| ensures TargetReady(g, after, targets[i]) {
      assert TargetReady(g, tables, targets[i]);
    }
  }

  /** An UPDATE that is not refused is the next one of the sequence, and the keys still hold. */
  lemma NextUpdate(
    g: Guards, tables: Tables, now: Tables, pods: seq<Pod>, q: Quarantine,
    targets: seq<Target>, n: nat)
    requires Ready(g, now, targets) && n < |targets| && now == AfterUpdates(tables, pods, q, targets, n)
    requires targets[n].table in now && !Refused(g, targets[n], pods, q, now[targets[n].table], SbomsIn(now))
    ensures var t := targets[n]; var after := now[t.table := Backfilled(t, pods, q, now[t.table])];
      after == AfterUpdates(tables, pods, q, targets, n + 1) && Ready(g, after, targets)
  {
    var t := targets[n];
    assert TargetReady(g, now, t);
    RefusedIffBlocked(g, t, pods, q, now[t.table], SbomsIn(now));
    ReadyAfter(g, now, targets, n, Backfilled(t, pods, q, now[t.table]));
  }

  /** After the UPDATEs, the same pods find nothing to assign: a rerun is not obstructed and changes nothing. */
  lemma RerunIsClear(g: Guards, tables: Tables, pods: seq<Pod>, q: Quarantine, targets: seq<Target>,
    j: nat)
    requires Separate(targets) && j < |targets| && targets[j].table in tables
    ensures var t, after := targets[j], AfterUpdates(tables, pods, q, targets, |targets|);
      Clear(g, after, pods, q, t) && Backfilled(t, pods, q, after[t.table]) == after[t.table]
  {
    var t, after := targets[j], AfterUpdates(tables, pods, q, targets, |targets|);
    TableUpdatedOnce(t.table, tables[t.table], pods, q, targets, |targets|);
    RepeatIsNotBlocked(g, t, pods, q, tables[t.table], SbomsIn(after));
    forall i | 0 <= i < |tables[t.table]| ensures BackfilledRow(t, pods, q, after[t.table][i]) == after[t.table][i] {
      BackfillRow(t, pods, q, tables[t.table][i], "");
    }
  }

  /** Validation of every target, given what the UPDATEs left. */
  lemma ValidationOfAll(tables: Tables, pods: seq<Pod>, q: Quarantine, targets: seq<Target>, j: nat)
    requires Separate(targets) && j < |targets| && targets[j].table in tables
    ensures var t := targets[j];
      Consistent(t, pods, AfterUpdates(tables, pods, q, targets, |targets|)[t.table]) <==>
        Consistent(t, pods, tables[t.table])
  {
    var t := targets[j];
    TableUpdatedOnce(t.table, tables[t.table], pods, q, targets, |targets|);
    ValidationUnmoved(t, pods, q, tables[t.table]);
  }

  /** The quarantine a startup leaves: what it found and what it records. */
  function NextQuarantine(pods: seq<Pod>, tables: Tables, q: Quarantine): Quarantine
    requires RISK.table in tables
  {
    Recorded(pods, tables[RISK.table], q, |tables[RISK.table]|)
  }

  /** What an uninterrupted startup needs, all of it visible before it starts. */
  ghost predicate CanStart(g: Guards, tables: Tables, pods: seq<Pod>, q: Quarantine, targets: seq<Target>) {
    forall i | 0 <= i < |targets| ::
      Clear(g, tables, pods, q, targets[i]) && Consistent(targets[i], pods, tables[targets[i].table])
  }

  /** The quarantine takes risk_scores out of the condition: the other targets decide. */
  lemma OthersDecide(g: Guards, tables: Tables, pods: seq<Pod>, q: Quarantine, targets: seq<Target>)
    requires Ready(g, tables, targets) && RISK in targets && DistinctIds(tables[RISK.table])
    requires forall k | k in KeysOf(g, RiskScores) :: k == RISK_KEY
    ensures var q' := NextQuarantine(pods, tables, q);
      CanStart(g, tables, pods, q', targets) <==>
        forall i | 0 <= i < |targets| ::
          && (targets[i] != RISK ==> Clear(g, tables, pods, q', targets[i]))
          && Consistent(targets[i], pods, tables[targets[i].table])
  {
    var i :| 0 <= i < |targets| && targets[i] == RISK;
    assert TargetReady(g, tables, targets[i]);
    RiskIsNeverRefused(g, pods, Scores(tables[RISK.table], q), SbomsIn(tables));
    assert Clear(g, tables, pods, NextQuarantine(pods, tables, q), RISK);
  }

  class Store {
    const fault: nat -> bool
    const guards: Guards
    var clock: nat
    var pods: seq<Pod>
    var tables: Tables
    var quarantine: Quarantine

    constructor (pods: seq<Pod>, tables: Tables, guards: Guards, fault: nat -> bool)
      ensures this.pods == pods && this.tables == tables && this.guards == guards && this.fault == fault
      ensures quarantine == map[] && clock == 0
    {
      this.pods, this.tables, this.guards, this.fault := pods, tables, guards, fault;
      quarantine, clock := map[], 0;
    }

    /** The statements numbered above `from` up to `to` executed. */
    ghost predicate Executed(from: nat, to: nat) {
      forall k: nat | from < k <= to :: !fault(k)
    }

    /** One UPDATE: it fails as a whole when something interrupts or refuses it. */
    method Update(t: Target) returns (ok: bool)
      requires t.table in tables
      modifies `clock, `tables
      ensures ok ==> tables == old(tables)[t.table := Backfilled(t, pods, quarantine, old(tables)[t.table])]
      ensures !ok ==> tables == old(tables)
      ensures clock == old(clock) + 1
      ensures ok <==>
        !fault(clock) && !Refused(guards, t, pods, quarantine, old(tables)[t.table], SbomsIn(old(tables)))
    {
      clock := clock + 1;
      if fault(clock) { return false; }
      if Refused(guards, t, pods, quarantine, tables[t.table], SbomsIn(tables)) { return false; }
      tables := tables[t.table := Backfilled(t, pods, quarantine, tables[t.table])];
      ok := true;
    }

    /** One UPDATE per target, in order; the first fault or refusal ends the run between two statements. */
    method UpdateAll(targets: seq<Target>) returns (ok: bool, done: nat)
      requires Ready(guards, tables, targets)
      modifies `clock, `tables
      ensures done <= |targets| && tables == AfterUpdates(old(tables), pods, quarantine, targets, done)
      ensures forall i | 0 <= i < done :: Clear(guards, old(tables), pods, quarantine, targets[i])
      ensures Ready(guards, tables, targets)
      ensures ok ==> done == |targets| && clock == old(clock) + done && Executed(old(clock), clock)
      ensures !ok && (forall k: nat :: !fault(k)) ==>
        done < |targets| && !Clear(guards, old(tables), pods, quarantine, targets[done])
    {
      done := 0;
      while done < |targets|
        invariant done <= |targets|
        invariant tables == AfterUpdates(old(tables), pods, quarantine, targets, done)
        invariant Ready(guards, tables, targets)
        invariant clock == old(clock) + done && Executed(old(clock), clock)
        invariant forall i | 0 <= i < done :: Clear(guards, old(tables), pods, quarantine, targets[i])
      {
        var t := targets[done];
        NextRefusedIffNotClear(guards, old(tables), tables, pods, quarantine, targets, done);
        ghost var now := tables;
        ok := Update(t);
        if !ok { return; }
        NextUpdate(guards, old(tables), now, pods, quarantine, targets, done);
        done := done + 1;
      }
      ok := true;
    }

    /** `validateExistingClusterResourceOwnership` */
    method Validate(targets: seq<Target>) returns (ok: bool)
      requires forall i | 0 <= i < |targets| :: targets[i].table in tables
      ensures ok <==> forall i | 0 <= i < |targets| :: Consistent(targets[i], pods, tables[targets[i].table])
    {
      for i := 0 to |targets|
        invariant forall j | 0 <= j < i :: Consistent(targets[j], pods, tables[targets[j].table])
      {
        if !Consistent(targets[i], pods, tables[targets[i].table]) { return false; }
      }
      ok := true;
    }

    /**
     Quarantine, one UPDATE per table, validation. A run that is cut short stops between two
     statements; one that is not succeeds exactly when no row about to be assigned is obstructed
     by a trigger or a key in force, and every owned row agreed with the pods table beforehand.
     */
    method EnsureFoundation(targets: seq<Target>) returns (ok: bool, done: nat)
      requires Ready(guards, tables, targets) && RISK.table in tables
      modifies `clock, `tables, `quarantine
      ensures quarantine == old(quarantine) || quarantine == NextQuarantine(pods, old(tables), old(quarantine))
      ensures done <= |targets| && tables == AfterUpdates(old(tables), pods, quarantine, targets, done)
      ensures Ready(guards, tables, targets)
      ensures ok ==> done == |targets| && clock == old(clock) + 1 + done && Executed(old(clock), clock)
      ensures ok || (forall k: nat :: !fault(k)) ==> quarantine == NextQuarantine(pods, old(tables), old(quarantine))
      ensures (forall k: nat :: !fault(k)) ==>
        (ok <==> CanStart(guards, old(tables), pods, NextQuarantine(pods, old(tables), old(quarantine)), targets))
    {
      clock := clock + 1;
      if fault(clock) { return false, 0; }
      quarantine := NextQuarantine(pods, tables, quarantine);
      ok, done := UpdateAll(targets);
      if !ok { return; }
      forall i | 0 <= i < |targets|
        ensures targets[i].table in tables && (Consistent(targets[i], pods, tables[targets[i].table])
                                               <==> Consistent(targets[i], pods, old(tables)[targets[i].table]))
      {
        assert TargetReady(guards, old(tables), targets[i]);
        ValidationOfAll(old(tables), pods, quarantine, targets, i);
      }
      ok := Validate(targets);
    }
  }
}
