/**
 SBOM ownership: the triggers that freeze it, what they keep over every sequence of
 admitted writes, and the resumable backfill of shared image content.
 */
module SbomIdentity {
  import opened Sql
  import opened Schema
  import Ownership

  datatype Sbom = Sbom(
    cluster: Option<string>, pod: Option<string>, container: Option<string>, digest: Option<string>,
    content: Option<nat>, deleted: bool, rest: string)

  /** Canonical snapshot of an observation: its imageDigest, and everything else it projects. */
  datatype Payload = Payload(digest: Option<string>, rest: string)
  datatype Content = Content(hash: string, payload: Payload)

  datatype Kind = ImageScan | CveMatch | MalwareMatch
  datatype Association = Association(
    kind: Kind, sbom: Option<nat>, cluster: Option<string>, pod: Option<string>, container: Option<string>)

  /** `issued` holds every SBOM id ever used: ids come from a sequence and are never reused. */
  datatype State = State(
    sboms: map<nat, Sbom>, contents: map<nat, Content>, associations: map<nat, Association>, issued: set<nat>)

  // ---------------------------------------------------------------- triggers

  /** `fortuna_sbom_owner_immutable`: content, if any, must exist and carry the row's digest. */
  predicate ContentMatches(contents: map<nat, Content>, s: Sbom) {
    s.content.Some? ==>
      s.content.value in contents && Eq(contents[s.content.value].payload.digest, s.digest).Holds()
  }

  predicate OwnerInsertOk(st: State, s: Sbom) {
    Present(s.cluster) && Present(s.pod) && Present(s.container) && Present(s.digest) && ContentMatches(st.contents, s)
  }

  predicate SameOwner(a: Sbom, b: Sbom) {
    a.cluster == b.cluster && a.pod == b.pod && a.container == b.container && a.digest == b.digest
  }

  predicate OwnerUpdateOk(st: State, before: Sbom, after: Sbom) {
    ContentMatches(st.contents, after) && SameOwner(before, after)
  }

  /** The SBOM belongs to the association's Pod and, except for malware, its container. */
  predicate Agrees(a: Association, s: Sbom) {
    Eq(s.cluster, a.cluster).And(Eq(s.pod, a.pod))
      .And(if a.kind.MalwareMatch? then True else Eq(s.container, a.container)).Holds()
  }

  /** `fortuna_sbom_association_owner` */
  predicate AssociationOk(st: State, a: Association) {
    a.sbom.Some? ==>
      && a.sbom.value in st.sboms
      && var s := st.sboms[a.sbom.value];
         Agrees(a, s) && !s.deleted && Present(s.cluster) && Present(s.pod)
  }

  // ---------------------------------------------------------------- writes

  /** `touched`: the UPDATE names an identity or content column, so the row trigger fires. */
  datatype Write =
    | InsertSbom(id: nat, sbom: Sbom)
    | UpdateSbom(id: nat, sbom: Sbom, touched: bool)
    | DeleteSbom(id: nat)
    | InsertContent(id: nat, content: Content)
    | UpdateContent(id: nat, content: Content)
    | PutAssociation(id: nat, association: Association)
    | DeleteAssociation(id: nat)

  /** A refused write leaves the state as it was. Content updates are always refused. */
  function Apply(st: State, w: Write): State {
    match w
    case InsertSbom(id, s) =>
      if id !in st.issued && OwnerInsertOk(st, s)
      then st.(sboms := st.sboms[id := s], issued := st.issued + {id}) else st
    case UpdateSbom(id, s, touched) =>
      if id in st.sboms
         && (if touched then OwnerUpdateOk(st, st.sboms[id], s)
             else SameOwner(st.sboms[id], s) && s.content == st.sboms[id].content)
      then st.(sboms := st.sboms[id := s]) else st
    case DeleteSbom(id) => st.(sboms := st.sboms - {id})
    case InsertContent(id, c) => if id in st.contents then st else st.(contents := st.contents[id := c])
    case UpdateContent(_, _) => st
    case PutAssociation(id, a) =>
      if AssociationOk(st, a) then st.(associations := st.associations[id := a]) else st
    case DeleteAssociation(id) => st.(associations := st.associations - {id})
  }

  function Run(st: State, writes: seq<Write>): State
    decreases |writes|
  {
    if writes == [] then st else Run(Apply(st, writes[0]), writes[1..])
  }

  /** Histories compose, and one write is one step. */
  lemma {:induction false} RunComposes(st: State, a: seq<Write>, b: seq<Write>, w: Write)
    ensures Run(st, a + b) == Run(Run(st, a), b) && Run(st, [w]) == Apply(st, w)
    decreases |a|
  {
    assert Run(Apply(st, w), [w][1..]) == Apply(st, w);
    if a == [] {
      assert a + b == b;
    } else {
      assert (a + b)[1..] == a[1..] + b;
      RunComposes(Apply(st, a[0]), a[1..], b, w);
    }
  }

  /** Content exists and carries the digest, which is not NULL. */
  predicate CarriesDigest(st: State, content: nat, digest: Option<string>) {
    content in st.contents && digest.Some? && st.contents[content].payload.digest == digest
  }

  /** When an SBOM can be written: new ones fully owned, old ones under their owner, content of their digest only. */
  lemma SbomWriteAdmittedIff(st: State, id: nat, s: Sbom)
    ensures id !in st.issued && id !in st.sboms ==>
      (id in Apply(st, InsertSbom(id, s)).sboms <==>
         && Present(s.cluster) && Present(s.pod) && Present(s.container) && Present(s.digest)
         && (s.content.Some? ==> CarriesDigest(st, s.content.value, s.digest)))
    ensures id in Apply(st, InsertSbom(id, s)).sboms && id !in st.sboms ==> Apply(st, InsertSbom(id, s)).sboms[id] == s
    ensures id in st.sboms ==>
      var old' := st.sboms[id];
      (Apply(st, UpdateSbom(id, s, true)).sboms[id] == s <==>
         || old' == s
         || (&& s.cluster == old'.cluster && s.pod == old'.pod
             && s.container == old'.container && s.digest == old'.digest
             && (s.content.Some? ==> CarriesDigest(st, s.content.value, s.digest))))
    ensures id in st.sboms ==>
      Apply(st, UpdateSbom(id, st.sboms[id].(deleted := true), false)).sboms[id] == st.sboms[id].(deleted := true)
  {
  }

  /** When an association can be written: it names no SBOM, or a live owned one of its own Pod and container. */
  lemma AssociationAdmittedIff(st: State, id: nat, a: Association)
    ensures Apply(st, PutAssociation(id, a)).associations ==
      if a.sbom.Some? ==>
         && a.sbom.value in st.sboms
         && var s := st.sboms[a.sbom.value];
            && !s.deleted && Present(s.cluster) && Present(s.pod) && s.cluster == a.cluster && s.pod == a.pod
            && (a.kind.MalwareMatch? || (s.container.Some? && s.container == a.container))
      then st.associations[id := a] else st.associations
  {
  }

  /** Content is added under a free id and never changed. */
  lemma ContentIsWriteOnce(st: State, id: nat, c: Content)
    ensures Apply(st, InsertContent(id, c)).contents
         == (if id in st.contents then st.contents else st.contents[id := c])
    ensures Apply(st, UpdateContent(id, c)) == st
  {
  }

  /** Over any writes an SBOM keeps its owner and digest, and one that was not there is fully owned. */
  lemma {:induction false} OwnersAreFrozen(st: State, writes: seq<Write>, id: nat)
    requires forall i | i in st.sboms :: i in st.issued
    ensures id in Run(st, writes).sboms && id in st.issued ==>
      id in st.sboms && SameOwner(st.sboms[id], Run(st, writes).sboms[id])
    ensures id in Run(st, writes).sboms && id !in st.issued ==>
      var s := Run(st, writes).sboms[id];
      Present(s.cluster) && Present(s.pod) && Present(s.container) && Present(s.digest)
    decreases |writes|
  {
    if writes != [] {
      OwnersAreFrozen(Apply(st, writes[0]), writes[1..], id);
    }
  }

  // ---------------------------------------------------------------- what startup checks and what it does not

  /** The startup query counts no cluster-owned association without a matching SBOM. */
  predicate AssociationsChecked(st: State) {
    forall id | id in st.associations ::
      var a := st.associations[id];
      a.sbom.Some? && Present(a.cluster) ==> a.sbom.value in st.sboms && Agrees(a, st.sboms[a.sbom.value])
  }

  predicate OwnedActive(s: Sbom) {
    !s.deleted && Present(s.cluster) && Present(s.pod) && Present(s.container) && Present(s.digest)
  }

  /** The startup query finds no two active owned SBOMs of one workload and digest. */
  predicate NoDuplicates(st: State) {
    forall a, b | a in st.sboms && b in st.sboms && a != b ::
      !(OwnedActive(st.sboms[a]) && OwnedActive(st.sboms[b]) && SameOwner(st.sboms[a], st.sboms[b]))
  }

  predicate StartupAccepts(st: State) {
    AssociationsChecked(st) && NoDuplicates(st)
  }

  /** The checks on two SBOMs: they may not both be active, fully owned and of one owner and digest. */
  lemma PairAccepted(a: nat, s: Sbom, b: nat, t: Sbom)
    requires a != b
    ensures StartupAccepts(State(map[a := s, b := t], map[], map[], {a, b})) <==>
      !(&& !s.deleted && !t.deleted && Present(s.cluster) && Present(s.pod) && Present(s.container) && Present(s.digest)
        && s.cluster == t.cluster && s.pod == t.pod && s.container == t.container && s.digest == t.digest)
  {
    var st := State(map[a := s, b := t], map[], map[], {a, b});
    assert st.sboms[a] == s && st.sboms[b] == t;
  }

  /** And on an association: an owned one must name an existing SBOM of its Pod and container, deleted or not. */
  lemma AssociationAccepted(id: nat, s: Sbom, x: nat, a: Association)
    ensures StartupAccepts(State(map[id := s], map[], map[x := a], {id})) <==>
      (a.sbom.Some? && Present(a.cluster) ==>
         && a.sbom == Some(id) && s.cluster == a.cluster && s.pod == a.pod && s.pod.Some?
         && (a.kind.MalwareMatch? || (s.container.Some? && s.container == a.container)))
  {
    var st := State(map[id := s], map[], map[x := a], {id});
    assert st.associations[x] == a && st.sboms[id] == s;
  }

  predicate IdsIssued(st: State) {
    && (forall id | id in st.sboms :: id in st.issued)
    && (forall id | id in st.associations && st.associations[id].sbom.Some? ::
        st.associations[id].sbom.value in st.issued)
  }

  /** No cluster-owned association names an SBOM of another cluster, Pod or container. */
  predicate NoForeignAssociation(st: State) {
    forall id | id in st.associations ::
      var a := st.associations[id];
      a.sbom.Some? && Present(a.cluster) && a.sbom.value in st.sboms ==> Agrees(a, st.sboms[a.sbom.value])
  }

  function MislinkedSboms(st: State): set<nat> {
    set id | id in st.sboms && !ContentMatches(st.contents, st.sboms[id])
  }

  lemma ApplyKeepsAssociations(st: State, w: Write)
    requires IdsIssued(st) && NoForeignAssociation(st)
    ensures IdsIssued(Apply(st, w)) && NoForeignAssociation(Apply(st, w))
  {
    var st' := Apply(st, w);
    forall id | id in st'.associations
      ensures var a := st'.associations[id];
        a.sbom.Some? && Present(a.cluster) && a.sbom.value in st'.sboms ==> Agrees(a, st'.sboms[a.sbom.value])
    {
      if id in st.associations {
        assert var a := st.associations[id];
          a.sbom.Some? && Present(a.cluster) && a.sbom.value in st.sboms ==> Agrees(a, st.sboms[a.sbom.value]);
      }
    }
  }

  /** From a state the startup accepts, no admitted sequence of writes makes an association foreign. */
  lemma {:induction false} OwnershipIsSafe(st: State, writes: seq<Write>)
    requires IdsIssued(st) && (AssociationsChecked(st) || NoForeignAssociation(st))
    ensures NoForeignAssociation(Run(st, writes))
    decreases |writes|
  {
    assert NoForeignAssociation(st);
    if writes != [] {
      ApplyKeepsAssociations(st, writes[0]);
      OwnershipIsSafe(Apply(st, writes[0]), writes[1..]);
    }
  }

  lemma ApplyAddsNoMislink(st: State, w: Write)
    ensures MislinkedSboms(Apply(st, w)) <= MislinkedSboms(st)
    ensures forall id | id in MislinkedSboms(Apply(st, w)) ::
      SameOwner(Apply(st, w).sboms[id], st.sboms[id]) && Apply(st, w).sboms[id].content == st.sboms[id].content
  {
  }

  /**
   An SBOM linked to content of another digest can only be one that startup found that way,
   still with the same link: the triggers admit no new one.
   */
  lemma {:induction false} NoNewMislink(st: State, writes: seq<Write>)
    ensures MislinkedSboms(Run(st, writes)) <= MislinkedSboms(st)
    ensures forall id | id in MislinkedSboms(Run(st, writes)) ::
      Run(st, writes).sboms[id].content == st.sboms[id].content
        && Run(st, writes).sboms[id].digest == st.sboms[id].digest
    decreases |writes|
  {
    if writes != [] {
      ApplyAddsNoMislink(st, writes[0]);
      NoNewMislink(Apply(st, writes[0]), writes[1..]);
    }
  }

  /** Startup never compares stored links with digests, so an old mislink passes every check and stays. */
  lemma OldMislinkPassesStartup()
    ensures exists st: State ::
      IdsIssued(st) && StartupAccepts(st) && 1 in MislinkedSboms(st)
  {
    var s := Sbom(Some("c"), Some("p"), Some("app"), Some("sha256:a"), Some(7), false, "");
    var st := State(map[1 := s], map[7 := Content("h", Payload(Some("sha256:b"), ""))], map[], {1});
    assert 1 in MislinkedSboms(st);
  }

  /** Content linkage holds in every reachable state exactly when it held at the start. */
  lemma LinksHoldIffTheyHeld(st: State)
    ensures (forall writes :: MislinkedSboms(Run(st, writes)) == {}) <==> MislinkedSboms(st) == {}
  {
    var none: seq<Write> :| none == [];
    assert Run(st, none) == st;
    if MislinkedSboms(st) == {} {
      forall writes ensures MislinkedSboms(Run(st, writes)) == {} {
        NoNewMislink(st, writes);
      }
    } else {
      assert MislinkedSboms(Run(st, none)) != {};
    }
  }

  // ---------------------------------------------------------------- the ownership backfill against the trigger

  /** The SBOM as the ownership backfill sees it. */
  function AsRow(id: nat, s: Sbom): Ownership.Row {
    Ownership.Row(id, s.pod, s.cluster, None, None,
                  map[ContainerName := s.container, DeletedAt := if s.deleted then Some("then") else None])
  }

  predicate Resolvable(pods: seq<Ownership.Pod>, id: nat, s: Sbom) {
    Ownership.Selected(Ownership.SBOMS, pods, map[], AsRow(id, s))
  }

  /** The UPDATE of one selected row fires the owner trigger. */
  function Assigned(pods: seq<Ownership.Pod>, id: nat, s: Sbom): Sbom {
    s.(cluster := Ownership.BackfilledRow(Ownership.SBOMS, pods, map[], AsRow(id, s)).cluster)
  }

  /** The statement fails as a whole when the trigger raises for any row it selects. */
  predicate BackfillAdmitted(st: State, pods: seq<Ownership.Pod>) {
    forall id | id in st.sboms && Resolvable(pods, id, st.sboms[id]) ::
      OwnerUpdateOk(st, st.sboms[id], Assigned(pods, id, st.sboms[id]))
  }

  /**
   Once the trigger is installed, the next startup's ownership backfill of sboms succeeds
   exactly when it has nothing to assign: a legacy SBOM whose UID has since become
   unambiguous makes that startup fail.
   */
  lemma BackfillNeedsNothingToDo(st: State, pods: seq<Ownership.Pod>)
    ensures BackfillAdmitted(st, pods) <==> forall id | id in st.sboms :: !Resolvable(pods, id, st.sboms[id])
  {
    forall id | id in st.sboms && Resolvable(pods, id, st.sboms[id])
      ensures !OwnerUpdateOk(st, st.sboms[id], Assigned(pods, id, st.sboms[id]))
    {
      Ownership.SoleOwner(pods, st.sboms[id].pod, "");
    }
  }

  /** One legacy SBOM whose Pod has since become known stops startup. */
  lemma LateOwnerStopsStartup()
    ensures var s := Sbom(None, Some("u"), Some("app"), Some("sha256:a"), None, false, "");
      var st := State(map[1 := s], map[], map[], {1});
      IdsIssued(st) && StartupAccepts(st) && !BackfillAdmitted(st, [Ownership.Pod(Some("u"), Some("c"))])
  {
    var s := Sbom(None, Some("u"), Some("app"), Some("sha256:a"), None, false, "");
    var st, pods := State(map[1 := s], map[], map[], {1}), [Ownership.Pod(Some("u"), Some("c"))];
    Ownership.OnePodOwns("u", "c");
    assert |Ownership.Owners(pods, s.pod)| == |{"c"}| == 1;
    assert Resolvable(pods, 1, st.sboms[1]);
    BackfillNeedsNothingToDo(st, pods);
  }

  /** The table as a list of rows, in some order. */
  ghost predicate Lists(rows: seq<Ownership.Row>, sboms: map<nat, Sbom>) {
    && (forall i | 0 <= i < |rows| :: rows[i].id in sboms && rows[i] == AsRow(rows[i].id, sboms[rows[i].id]))
    && (forall id | id in sboms :: exists i :: 0 <= i < |rows| && rows[i].id == id)
  }

  /** This is the refusal the ownership foundation meets at its UPDATE of sboms. */
  lemma FoundationMeetsTrigger(st: State, pods: seq<Ownership.Pod>, rows: seq<Ownership.Row>)
    requires Lists(rows, st.sboms)
    ensures Ownership.Blocked(Ownership.Guards(map[], true, {}), Ownership.SBOMS, pods, map[], rows, rows)
       <==> !BackfillAdmitted(st, pods)
  {
    var g := Ownership.Guards(map[], true, {});
    BackfillNeedsNothingToDo(st, pods);
    forall i | 0 <= i < |rows|
      ensures Ownership.Obstructed(g, Ownership.SBOMS, pods, map[], rows, rows, i)
         <==> Resolvable(pods, rows[i].id, st.sboms[rows[i].id])
    {
    }
  }

  /** The table an association lives in, and its row there. */
  function TableOf(kind: Kind): Ownership.Target {
    match kind
    case ImageScan => Ownership.PodTable(PodImageScans)
    case CveMatch => Ownership.PodTable(CveMatches)
    case MalwareMatch => Ownership.PodTable(MalwareMatches)
  }

  function AsLink(id: nat, a: Association): Ownership.Row {
    Ownership.Row(id, a.pod, a.cluster, None, a.sbom, map[ContainerName := a.container])
  }

  /** And the association trigger is the one its UPDATEs of associations meet. */
  lemma FoundationMeetsLinks(st: State, rows: seq<Ownership.Row>, id: nat, a: Association)
    requires Lists(rows, st.sboms)
    ensures Ownership.LinkOk(TableOf(a.kind), rows, AsLink(id, a)) <==> AssociationOk(st, a)
  {
    forall i | 0 <= i < |rows|
      ensures rows[i].id in st.sboms
      ensures Ownership.LinksTo(TableOf(a.kind), AsLink(id, a), rows[i]) <==>
        a.sbom == Some(rows[i].id) && AssociationOk(st, a)
    {
      assert rows[i].id in st.sboms && rows[i] == AsRow(rows[i].id, st.sboms[rows[i].id]);
      LinkMeaning(rows[i].id, st.sboms[rows[i].id], id, a);
    }
    if a.sbom.Some? && a.sbom.value in st.sboms {
      var i :| 0 <= i < |rows| && rows[i].id == a.sbom.value;
    }
  }

  lemma LinkMeaning(sbomId: nat, s: Sbom, id: nat, a: Association)
    ensures Ownership.LinksTo(TableOf(a.kind), AsLink(id, a), AsRow(sbomId, s)) <==>
      a.sbom == Some(sbomId) && Agrees(a, s) && !s.deleted && Present(s.cluster) && Present(s.pod)
  {
  }

  // ---------------------------------------------------------------- content backfill

  predicate Pending(s: Sbom) {
    OwnedActive(s) && s.content.None?
  }

  /** `WHERE ... content_id IS NULL AND id >= lo ORDER BY id`, for ids the sequence has issued below `top`. */
  function PendingIds(sboms: map<nat, Sbom>, lo: nat, top: nat): seq<nat>
    decreases top - lo
  {
    if lo >= top then []
    else (if lo in sboms && Pending(sboms[lo]) then [lo] else []) + PendingIds(sboms, lo + 1, top)
  }

  /** Ids come from a sequence that starts at 1 and has `top` as its next value. */
  predicate IdsBelow(sboms: map<nat, Sbom>, top: nat) {
    forall id | id in sboms :: 0 < id < top
  }

  predicate Increasing(r: seq<nat>) {
    forall i, j | 0 <= i < j < |r| :: r[i] < r[j]
  }

  lemma {:induction false} PendingIdsHead(sboms: map<nat, Sbom>, lo: nat, top: nat)
    ensures PendingIds(sboms, lo, top) == [] || lo <= PendingIds(sboms, lo, top)[0]
    decreases top - lo
  {
    if lo < top {
      PendingIdsHead(sboms, lo + 1, top);
    }
  }

  lemma {:induction false} PendingIdsOrdered(sboms: map<nat, Sbom>, lo: nat, top: nat)
    ensures Increasing(PendingIds(sboms, lo, top))
    decreases top - lo
  {
    if lo < top {
      PendingIdsOrdered(sboms, lo + 1, top);
      PendingIdsHead(sboms, lo + 1, top);
      PrependKeepsOrder(lo, PendingIds(sboms, lo + 1, top));
    }
  }

  lemma PrependKeepsOrder(x: nat, r: seq<nat>)
    requires Increasing(r) && (r == [] || x < r[0])
    ensures Increasing([x] + r)
  {
  }

  lemma {:induction false} PendingIdAt(sboms: map<nat, Sbom>, lo: nat, top: nat, i: nat)
    requires i < |PendingIds(sboms, lo, top)|
    ensures PendingIds(sboms, lo, top)[i] in sboms && Pending(sboms[PendingIds(sboms, lo, top)[i]])
    decreases top - lo
  {
    if !(lo in sboms && Pending(sboms[lo])) {
      PendingIdAt(sboms, lo + 1, top, i);
    } else if i > 0 {
      PendingIdAt(sboms, lo + 1, top, i - 1);
    }
  }

  /** An id within the bounds that is not listed is not pending. */
  lemma {:induction false} NothingPending(sboms: map<nat, Sbom>, lo: nat, top: nat, id: nat)
    requires PendingIds(sboms, lo, top) == [] && lo <= id < top && id in sboms
    ensures !Pending(sboms[id])
    decreases top - lo
  {
    if lo < id {
      NothingPending(sboms, lo + 1, top, id);
    }
  }

  lemma NothingLeft(sboms: map<nat, Sbom>, top: nat)
    requires IdsBelow(sboms, top) && PendingIds(sboms, 1, top) == []
    ensures forall id | id in sboms :: !Pending(sboms[id])
  {
    forall id | id in sboms ensures !Pending(sboms[id]) {
      NothingPending(sboms, 1, top, id);
    }
  }

  /** A floor below every pending id filters nothing out. */
  lemma {:induction false} PendingIdsSkip(sboms: map<nat, Sbom>, lo: nat, mid: nat, top: nat)
    requires lo <= mid
    requires PendingIds(sboms, lo, top) == [] || mid <= PendingIds(sboms, lo, top)[0]
    ensures PendingIds(sboms, lo, top) == PendingIds(sboms, mid, top)
    decreases mid - lo
  {
    if lo < mid && lo < top {
      PendingIdsSkip(sboms, lo + 1, mid, top);
    }
  }

  lemma {:induction false} PendingIdsAgree(a: map<nat, Sbom>, b: map<nat, Sbom>, lo: nat, top: nat)
    requires a.Keys == b.Keys && forall x | x in a && x >= lo :: a[x] == b[x]
    ensures PendingIds(a, lo, top) == PendingIds(b, lo, top)
    decreases top - lo
  {
    if lo < top {
      PendingIdsAgree(a, b, lo + 1, top);
    }
  }

  /** Linking the first pending row removes it, and only it, from the list. */
  lemma {:induction false} PendingIdsLink(a: map<nat, Sbom>, b: map<nat, Sbom>, lo: nat, top: nat, id: nat)
    requires PendingIds(a, lo, top) != [] && PendingIds(a, lo, top)[0] == id
    requires a.Keys == b.Keys && (forall x | x in a && x != id :: a[x] == b[x])
    requires id in b && !Pending(b[id])
    ensures PendingIds(b, lo, top) == PendingIds(a, lo, top)[1..]
    decreases top - lo
  {
    if lo in a && Pending(a[lo]) {
      PendingIdsAgree(a, b, lo + 1, top);
    } else {
      PendingIdsLink(a, b, lo + 1, top, id);
    }
  }

  /** How many of `r` remaining rows one page holds. */
  function PageOf(r: nat): nat {
    if r > 200 then 200 else r
  }

  predicate HasHash(contents: map<nat, Content>, h: string) {
    exists c :: c in contents && contents[c].hash == h
  }

  datatype Snapshot = Snapshot(sboms: map<nat, Sbom>, contents: map<nat, Content>, attached: seq<nat>)

  /** The row is as before, plus a link to content of its own digest. */
  predicate LinkedRow(before: Sbom, after: Sbom, contents: map<nat, Content>) {
    && after.content.Some? && ContentMatches(contents, after)
    && after.(content := None) == before.(content := None)
  }

  ghost predicate ContentsGrow(a: Snapshot, b: Snapshot) {
    forall c {:trigger ContentKept(a, b, c)} | c in a.contents :: ContentKept(a, b, c)
  }

  predicate ContentKept(a: Snapshot, b: Snapshot, c: nat) {
    c in a.contents && c in b.contents && b.contents[c] == a.contents[c]
  }

  ghost predicate LinkedOne(a: Snapshot, b: Snapshot, id: nat) {
    && id in a.sboms && b.sboms.Keys == a.sboms.Keys && ContentsGrow(a, b)
    && LinkedRow(a.sboms[id], b.sboms[id], b.contents)
    && (forall x | x in b.sboms && x != id :: b.sboms[x] == a.sboms[x])
    && b.attached == a.attached + [id]
  }

  /**
   From `a` to `b` exactly the first `done` ids of `todo` were linked, in order, and the others are
   what is still pending; every row is as it was, or was pending and gained a link to its own digest.
   */
  ghost predicate Progress(a: Snapshot, b: Snapshot, top: nat, todo: seq<nat>, done: nat) {
    && done <= |todo| && b.sboms.Keys == a.sboms.Keys && ContentsGrow(a, b)
    && b.attached == a.attached + todo[..done]
    && PendingIds(b.sboms, 1, top) == todo[done..]
    && (forall x {:trigger RowAdvanced(a, b, x)} | x in a.sboms :: RowAdvanced(a, b, x))
  }

  predicate RowAdvanced(a: Snapshot, b: Snapshot, x: nat) {
    && x in a.sboms && x in b.sboms
    && (b.sboms[x] == a.sboms[x] || (Pending(a.sboms[x]) && LinkedRow(a.sboms[x], b.sboms[x], b.contents)))
  }

  lemma LinkAdvances(a: Snapshot, b: Snapshot, c: Snapshot, top: nat, todo: seq<nat>, done: nat)
    requires done < |todo| && Increasing(todo)
    requires Progress(a, b, top, todo, done) && LinkedOne(b, c, todo[done])
    ensures Progress(a, c, top, todo, done + 1)
  {
    var id := todo[done];
    assert todo[..done + 1] == todo[..done] + [id];
    assert todo[done..][1..] == todo[done + 1..];
    PendingIdsLink(b.sboms, c.sboms, 1, top, id);
    NextIsPending(a, b, top, todo, done);
    forall k | k in a.contents ensures ContentKept(a, c, k) {
      assert ContentKept(a, b, k) && ContentKept(b, c, k);
    }
    forall x | x in a.sboms ensures RowAdvanced(a, c, x) {
      assert RowAdvanced(a, b, x);
      if b.sboms[x] != a.sboms[x] {
        assert ContentKept(b, c, b.sboms[x].content.value);
      }
    }
  }

  /** The last id linked, 0 at the start. */
  function LastOf(todo: seq<nat>, done: nat): nat
    requires done <= |todo|
  {
    if done == 0 then 0 else todo[done - 1]
  }

  /** After `done` links, the rows beyond the last linked id are exactly the rest of the list. */
  lemma NextPageIsNext(sboms: map<nat, Sbom>, top: nat, todo: seq<nat>, done: nat, lastId: nat)
    requires Increasing(todo) && done <= |todo| && PendingIds(sboms, 1, top) == todo[done..]
    requires lastId == LastOf(todo, done)
    ensures PendingIds(sboms, lastId + 1, top) == todo[done..]
  {
    PendingIdsHead(sboms, 1, top);
    if done < |todo| {
      assert todo[done..][0] == todo[done];
    }
    PendingIdsSkip(sboms, 1, lastId + 1, top);
  }

  lemma NextIsPending(a: Snapshot, b: Snapshot, top: nat, todo: seq<nat>, done: nat)
    requires Progress(a, b, top, todo, done) && done < |todo|
    ensures todo[done] in b.sboms && Pending(b.sboms[todo[done]])
  {
    PendingIdAt(b.sboms, 1, top, 0);
    assert todo[done] == todo[done..][0];
  }

  class ContentStore {
    const hash: Payload -> string           // content hash
    const project: nat -> string            // the observation's other fields and components
    const fault: nat -> bool
    const top: nat                          // every SBOM id is below the sequence's next value
    var clock: nat
    var db: Snapshot

    constructor (hash: Payload -> string, project: nat -> string, fault: nat -> bool, top: nat,
                 sboms: map<nat, Sbom>, contents: map<nat, Content>)
      ensures this.hash == hash && this.project == project && this.fault == fault && this.top == top
      ensures db == Snapshot(sboms, contents, []) && clock == 0
    {
      this.hash, this.project, this.fault, this.top := hash, project, fault, top;
      db, clock := Snapshot(sboms, contents, []), 0;
    }

    /** No statement fails, hashes identify payloads, and stored content carries its own hash. */
    ghost predicate Healthy()
      reads this
    {
      Reliable() && forall c {:trigger CarriesHash(db.contents, c)} | c in db.contents :: CarriesHash(db.contents, c)
    }

    ghost predicate Reliable() {
      (forall k: nat :: !fault(k)) && forall p, q {:trigger Told(p, q)} :: Told(p, q)
    }

    predicate Told(p: Payload, q: Payload) {
      hash(p) == hash(q) ==> p == q
    }

    predicate CarriesHash(contents: map<nat, Content>, c: nat) {
      c in contents && contents[c].hash == hash(contents[c].payload)
    }

    static method FreshId(contents: map<nat, Content>) returns (id: nat)
      ensures id !in contents
    {
      id := 0;
      var ids := contents.Keys;
      while id in contents
        invariant ids <= contents.Keys && forall x | x in contents && x >= id :: x in ids
        decreases |ids|
      {
        ids := ids - {id};
        id := id + 1;
      }
    }

    /** One transaction: find or insert the snapshot by hash, refuse a different payload, link it. */
    method Attach(id: nat) returns (ok: bool)
      requires id in db.sboms && Pending(db.sboms[id])
      modifies `clock, `db
      ensures clock == old(clock) + 1
      ensures old(Healthy()) ==> Healthy() && ok
      ensures !ok ==> db == old(db)
      ensures ok ==> LinkedOne(old(db), db, id) && !fault(clock)
      ensures ok ==>
        var p := Payload(old(db).sboms[id].digest, project(id));
        && db.contents[db.sboms[id].content.value] == Content(hash(p), p)
        && (db.contents == old(db).contents || !HasHash(old(db).contents, hash(p)))
      ensures !ok && !fault(clock) ==>
        var p := Payload(old(db).sboms[id].digest, project(id));
        exists c :: c in db.contents && db.contents[c].hash == hash(p) && db.contents[c].payload != p
    {
      clock := clock + 1;
      if fault(clock) { return false; }
      var s, contents := db.sboms[id], db.contents;
      var payload := Payload(s.digest, project(id));
      var h := hash(payload);
      var link;
      if c: nat :| c in contents && contents[c].hash == h {
        assert old(Healthy()) ==> CarriesHash(old(db).contents, c) && Told(contents[c].payload, payload);
        if contents[c].payload != payload { return false; }
        link := c;
      } else {
        link := FreshId(contents);
        contents := contents[link := Content(h, payload)];
      }
      db := Snapshot(db.sboms[id := s.(content := Some(link))], contents, db.attached + [id]);
      if old(Healthy()) {
        forall c | c in contents ensures CarriesHash(contents, c) {
          assert c in old(db).contents ==> CarriesHash(old(db).contents, c);
        }
      }
      ok := true;
    }

    /** Links one page in order; stops at the first failure. */
    method AttachPage(page: seq<nat>, ghost base: Snapshot, ghost todo: seq<nat>, ghost start: nat)
      returns (ok: bool, n: nat)
      requires Increasing(todo) && Progress(base, db, top, todo, start)
      requires page <= todo[start..]
      modifies `clock, `db
      ensures old(Healthy()) ==> Healthy() && ok
      ensures n <= |page| && Progress(base, db, top, todo, start + n)
      ensures ok ==> n == |page|
    {
      n := 0;
      while n < |page|
        invariant n <= |page| && Progress(base, db, top, todo, start + n)
        invariant old(Healthy()) ==> Healthy()
      {
        ghost var before := db;
        NextIsPending(base, before, top, todo, start + n);
        assert page[n] == todo[start..][n] == todo[start + n];
        ok := Attach(page[n]);
        if !ok { return; }
        LinkAdvances(base, before, db, top, todo, start + n);
        n := n + 1;
      }
      ok := true;
    }

    /** `done` rows of `todo` are linked, and `lastId` is the last of them. */
    ghost predicate DrainedTo(base: Snapshot, todo: seq<nat>, done: nat, lastId: nat)
      reads this
    {
      Increasing(todo) && Progress(base, db, top, todo, done) && lastId == LastOf(todo, done)
    }

    /** One turn of the loop: `ORDER BY id LIMIT 200` above the last id, then link that page. */
    method DrainPage(lastId: nat, done: nat, ghost base: Snapshot, ghost todo: seq<nat>)
      returns (ok: bool, now: nat, newLast: nat)
      requires DrainedTo(base, todo, done, lastId)
      modifies `clock, `db
      ensures old(Healthy()) ==> Healthy() && ok
      ensures !ok ==> Progress(base, db, top, todo, now)
      ensures ok ==> DrainedTo(base, todo, now, newLast) && now == done + PageOf(|todo| - done)
    {
      NextPageIsNext(db.sboms, top, todo, done, lastId);
      var page := PendingIds(db.sboms, lastId + 1, top);
      if |page| > 200 {
        page := page[..200];
      }
      var n;
      ok, n := AttachPage(page, base, todo, done);
      now := done + n;
      newLast := if page == [] then lastId else page[|page| - 1];
      assert ok && page != [] ==> newLast == todo[done..][n - 1];
    }

    /**
     Pages of 200 by ascending id, until a page is empty. The filter loses every row that
     was linked, yet each pending row is linked exactly once and in order; a run that stops
     leaves a suffix, which the next run finishes.
     */
    method BackfillContent() returns (ok: bool, done: nat)
      requires IdsBelow(db.sboms, top)
      modifies `clock, `db
      ensures old(Healthy()) ==> Healthy() && ok
      ensures IdsBelow(db.sboms, top) && Progress(old(db), db, top, PendingIds(old(db).sboms, 1, top), done)
      ensures ok ==> done == |PendingIds(old(db).sboms, 1, top)|
      ensures ok ==> forall id | id in db.sboms && db.sboms[id].content.None? ::
        var s := db.sboms[id];
        s.deleted || !Present(s.cluster) || !Present(s.pod) || !Present(s.container) || !Present(s.digest)
      ensures forall id | id in old(db).sboms && db.sboms[id] != old(db).sboms[id] ::
        var s := old(db).sboms[id];
        && s.content.None? && !s.deleted && Present(s.cluster) && Present(s.pod) && Present(s.container)
        && Present(s.digest)
    {
      PendingIdsOrdered(db.sboms, 1, top);
      ok, done := Drain(db, PendingIds(db.sboms, 1, top));
      forall id | id in old(db).sboms && db.sboms[id] != old(db).sboms[id] ensures Pending(old(db).sboms[id]) {
        assert RowAdvanced(old(db), db, id);
      }
      if ok {
        NothingLeft(db.sboms, top);
      }
    }

    method Drain(ghost base: Snapshot, ghost todo: seq<nat>) returns (ok: bool, done: nat)
      requires Increasing(todo) && Progress(base, db, top, todo, 0)
      modifies `clock, `db
      ensures old(Healthy()) ==> Healthy() && ok
      ensures Progress(base, db, top, todo, done)
      ensures ok ==> done == |todo|
    {
      var lastId: nat, more := 0, true;
      done := 0;
      while more
        invariant DrainedTo(base, todo, done, lastId)
        invariant old(Healthy()) ==> Healthy()
        invariant !more ==> done == |todo|
        decreases |todo| - done + if more then 1 else 0
      {
        var before := done;
        ok, done, lastId := DrainPage(lastId, done, base, todo);
        if !ok { return; }
        more := done != before;
      }
      ok := true;
    }
  }

  /** Stopping anywhere and restarting attaches the same ids, in the same order, as one run would. */
  lemma RestartFinishes(a: Snapshot, b: Snapshot, c: Snapshot, top: nat, todo: seq<nat>, n: nat, m: nat)
    requires Progress(a, b, top, todo, n) && n <= |todo|
    requires Progress(b, c, top, todo[n..], m) && m == |todo[n..]|
    ensures c.attached == a.attached + todo && PendingIds(c.sboms, 1, top) == []
    ensures IdsBelow(c.sboms, top) ==> forall id | id in c.sboms :: !Pending(c.sboms[id])
  {
    Resumed(a.attached, b.attached, c.attached, todo, n, m);
    assert PendingIds(c.sboms, 1, top) == todo[n..][m..] == [];
    if IdsBelow(c.sboms, top) {
      NothingLeft(c.sboms, top);
    }
  }

  lemma Resumed(x: seq<nat>, y: seq<nat>, z: seq<nat>, todo: seq<nat>, n: nat, m: nat)
    requires n <= |todo| && y == x + todo[..n]
    requires m == |todo[n..]| && z == y + todo[n..][..m]
    ensures z == x + todo
  {
    assert todo[n..][..m] == todo[n..];
  }
}
