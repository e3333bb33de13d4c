/**
 Level-of-detail clustering of large attack graphs: every node that is not a start, an end
 or an attack step is folded into one super-node per type, and links are remapped and merged.
 */
module LodClustering {
  import opened Sql
  import opened Tally
  import Text

  datatype Node = Node(
    id: string, kind: string, isStart: bool, isEnd: bool, pathIds: Option<seq<string>>, pathId: Option<string>)
  datatype Link = Link(source: string, target: string, kind: string, value: int, pathIds: Option<seq<string>>)

  const THRESHOLD: nat := 200
  const PREFIX: string := "__cluster_"

  // ---------------------------------------------------------------- path ids

  /** Adds the trimmed, non-blank members of `xs` to an insertion-ordered set. */
  function Collect(acc: seq<string>, xs: seq<string>): seq<string>
    decreases |xs|
  {
    if xs == [] then acc
    else
      var s := Text.Trim(xs[0]);
      Collect(if s != "" && s !in acc then acc + [s] else acc, xs[1..])
  }

  function MergePathIds(a: Option<seq<string>>, b: Option<seq<string>>): Option<seq<string>> {
    var ids := Collect(Collect([], Coalesce(a, [])), Coalesce(b, []));
    if |ids| > 0 then Some(ids) else None
  }

  /** The path ids an array stands for. */
  function Ids(xs: seq<string>): set<string> {
    if xs == [] then {} else Ids(xs[..|xs| - 1]) + IdOf(xs[|xs| - 1])
  }

  function IdOf(x: string): set<string> {
    if Text.Trim(x) == "" then {} else {Text.Trim(x)}
  }

  function IdsOf(p: Option<seq<string>>): set<string> {
    Ids(Coalesce(p, []))
  }

  function PathIdsFromDatum(n: Node): seq<string> {
    Collect(Collect([], Coalesce(n.pathIds, [])), [Coalesce(n.pathId, "")])
  }

  function NodeIds(n: Node): set<string> {
    IdsOf(n.pathIds) + Ids([Coalesce(n.pathId, "")])
  }

  lemma {:induction false} IdsHead(xs: seq<string>)
    requires xs != []
    ensures Ids(xs) == IdOf(xs[0]) + Ids(xs[1..])
  {
    if |xs| > 1 {
      var n := |xs| - 1;
      IdsHead(xs[..n]);
      assert xs[1..][..n - 1] == xs[..n][1..];
    }
  }

  lemma {:induction false} MemberIsAnId(xs: seq<string>, x: string)
    requires x in xs
    ensures IdOf(x) <= Ids(xs)
  {
    var n := |xs| - 1;
    if xs[n] != x {
      assert xs == xs[..n] + [xs[n]];
      MemberIsAnId(xs[..n], x);
    }
  }

  /** Collecting adds exactly the ids the new members stand for. */
  lemma {:induction false} CollectIds(acc: seq<string>, xs: seq<string>)
    ensures Ids(Collect(acc, xs)) == Ids(acc) + Ids(xs)
    decreases |xs|
  {
    if xs != [] {
      var s := Text.Trim(xs[0]);
      Text.TrimIsIdempotent(xs[0]);
      IdsHead(xs);
      if s != "" && s !in acc {
        assert (acc + [s])[..|acc|] == acc;
        assert Ids(acc + [s]) == Ids(acc) + IdOf(s);
        CollectIds(acc + [s], xs[1..]);
      } else {
        if s in acc { MemberIsAnId(acc, s); }
        CollectIds(acc, xs[1..]);
      }
    }
  }

  /** Merging two links' arrays is the union of the ids they stand for. */
  lemma MergeIsUnion(a: Option<seq<string>>, b: Option<seq<string>>)
    ensures IdsOf(MergePathIds(a, b)) == IdsOf(a) + IdsOf(b)
    ensures MergePathIds(a, b) != Some([])
  {
    CollectIds([], Coalesce(a, []));
    CollectIds(Collect([], Coalesce(a, [])), Coalesce(b, []));
  }

  // ---------------------------------------------------------------- folding nodes

  function FoldKind(kind: string): string {
    var s := Text.Lower(if kind == "" then "unknown" else kind);
    seq(|s|, i requires 0 <= i < |s| => if s[i] == '-' then '_' else s[i])
  }

  predicate Critical(n: Node) {
    n.isStart || n.isEnd || FoldKind(n.kind) == "attack_step"
  }

  function ClusterId(kind: string): string {
    PREFIX + kind
  }

  predicate Reserved(id: string) {
    PREFIX <= id
  }

  /** What the code assumes of its input: ids identify nodes, and none looks like a super-node. */
  predicate Proper(nodes: seq<Node>) {
    && (forall i, j | 0 <= i < j < |nodes| :: nodes[i].id != nodes[j].id)
    && (forall i | 0 <= i < |nodes| :: !Reserved(nodes[i].id))
  }

  function Preserved(nodes: seq<Node>): seq<Node> {
    if nodes == [] then []
    else Preserved(nodes[..|nodes| - 1])
         + if Critical(nodes[|nodes| - 1]) then [nodes[|nodes| - 1]] else []
  }

  /** nodeToCluster */
  function Folding(nodes: seq<Node>): map<string, string> {
    if nodes == [] then map[]
    else
      var before, n := Folding(nodes[..|nodes| - 1]), nodes[|nodes| - 1];
      if Critical(n) then before else before[n.id := ClusterId(FoldKind(n.kind))]
  }

  /** clusterCounts */
  function Counts(nodes: seq<Node>): Entries<string> {
    if nodes == [] then []
    else
      var before, n := Counts(nodes[..|nodes| - 1]), nodes[|nodes| - 1];
      if Critical(n) then before else Bump(before, FoldKind(n.kind), 1)
  }

  function Image(nodes: seq<Node>, id: string): string {
    var f := Folding(nodes);
    if id in f then f[id] else id
  }

  lemma {:induction false} FoldingAt(nodes: seq<Node>, i: nat)
    requires Proper(nodes) && i < |nodes|
    ensures if Critical(nodes[i]) then nodes[i].id !in Folding(nodes)
            else nodes[i].id in Folding(nodes) && Folding(nodes)[nodes[i].id] == ClusterId(FoldKind(nodes[i].kind))
  {
    var n := |nodes| - 1;
    if i < n {
      FoldingAt(nodes[..n], i);
    } else {
      FoldingOnly(nodes[..n], nodes[n].id);
    }
  }

  lemma {:induction false} FoldingOnly(nodes: seq<Node>, id: string)
    requires forall i | 0 <= i < |nodes| :: nodes[i].id != id
    ensures id !in Folding(nodes)
  {
    if nodes != [] {
      FoldingOnly(nodes[..|nodes| - 1], id);
    }
  }

  /** Critical nodes survive as they are, in order; nothing else does. */
  lemma {:induction false} PreservedExactly(nodes: seq<Node>)
    ensures forall n :: n in Preserved(nodes) <==> n in nodes && Critical(n)
    ensures |Preserved(nodes)| + Total(Counts(nodes)) == |nodes|
  {
    if nodes != [] {
      var n := |nodes| - 1;
      PreservedExactly(nodes[..n]);
      assert nodes == nodes[..n] + [nodes[n]];
      if !Critical(nodes[n]) {
        BumpTotal(Counts(nodes[..n]), FoldKind(nodes[n].kind), 1);
      }
    }
  }

  function FoldedOf(nodes: seq<Node>, kind: string): nat {
    if nodes == [] then 0
    else FoldedOf(nodes[..|nodes| - 1], kind)
         + if !Critical(nodes[|nodes| - 1]) && FoldKind(nodes[|nodes| - 1].kind) == kind then 1 else 0
  }

  lemma {:induction false} CountsExactly(nodes: seq<Node>, kind: string)
    ensures Distinct(Counts(nodes))
    ensures Coalesce(Get(Counts(nodes), kind), 0) == FoldedOf(nodes, kind)
    ensures Get(Counts(nodes), kind).Some? <==> FoldedOf(nodes, kind) > 0
  {
    if nodes != [] {
      var n := |nodes| - 1;
      CountsExactly(nodes[..n], kind);
      if !Critical(nodes[n]) {
        BumpGet(Counts(nodes[..n]), FoldKind(nodes[n].kind), 1, kind);
        BumpDistinct(Counts(nodes[..n]), FoldKind(nodes[n].kind), 1);
      }
    }
  }

  lemma {:induction false} FoldedOccurs(nodes: seq<Node>, i: nat)
    requires i < |nodes| && !Critical(nodes[i])
    ensures FoldedOf(nodes, FoldKind(nodes[i].kind)) > 0
  {
    if i < |nodes| - 1 {
      FoldedOccurs(nodes[..|nodes| - 1], i);
    }
  }

  /** `rawNodes.filter(in cluster).flatMap(pathIdsFromDatum)`, deduplicated. */
  function ClusterPathIds(f: map<string, string>, nodes: seq<Node>, cluster: string): seq<string> {
    if nodes == [] then []
    else
      var before, n := ClusterPathIds(f, nodes[..|nodes| - 1], cluster), nodes[|nodes| - 1];
      if n.id in f && f[n.id] == cluster then Collect(before, PathIdsFromDatum(n)) else before
  }

  function MemberIds(f: map<string, string>, nodes: seq<Node>, cluster: string): set<string> {
    if nodes == [] then {}
    else
      var n := nodes[|nodes| - 1];
      MemberIds(f, nodes[..|nodes| - 1], cluster) + if n.id in f && f[n.id] == cluster then NodeIds(n) else {}
  }

  lemma DatumIds(n: Node)
    ensures Ids(PathIdsFromDatum(n)) == NodeIds(n)
  {
    CollectIds([], Coalesce(n.pathIds, []));
    CollectIds(Collect([], Coalesce(n.pathIds, [])), [Coalesce(n.pathId, "")]);
  }

  /** A super-node is on exactly the paths its members are on. */
  lemma {:induction false} ClusterOnMemberPaths(f: map<string, string>, nodes: seq<Node>, cluster: string)
    ensures Ids(ClusterPathIds(f, nodes, cluster)) == MemberIds(f, nodes, cluster)
  {
    if nodes != [] {
      var k := |nodes| - 1;
      var n := nodes[k];
      ClusterOnMemberPaths(f, nodes[..k], cluster);
      DatumIds(n);
      CollectIds(ClusterPathIds(f, nodes[..k], cluster), PathIdsFromDatum(n));
    }
  }

  function ClusterNode(nodes: seq<Node>, kind: string): Node {
    Node(ClusterId(kind), kind, false, false, Some(ClusterPathIds(Folding(nodes), nodes, ClusterId(kind))), None)
  }

  function ClusterNodes(nodes: seq<Node>, counts: Entries<string>): seq<Node> {
    seq(|counts|, i requires 0 <= i < |counts| => ClusterNode(nodes, counts[i].0))
  }

  function Merged(nodes: seq<Node>): seq<Node> {
    Preserved(nodes) + ClusterNodes(nodes, Counts(nodes))
  }

  function NodeIdSet(nodes: seq<Node>): set<string> {
    set n | n in nodes :: n.id
  }

  /** Letter case and the hyphen do not matter: what counts as an attack step. */
  predicate SpellsAttackStep(kind: string) {
    && |kind| == |"attack_step"|
    && forall i | 0 <= i < |kind| :: Text.LowerChar(kind[i]) == "attack_step"[i] || (i == 6 && kind[i] == '-')
  }

  lemma CriticalMeans(n: Node)
    ensures Critical(n) <==> n.isStart || n.isEnd || SpellsAttackStep(n.kind)
  {
    var s := FoldKind(n.kind);
    assert |"attack_step"| == 11 && |"unknown"| == 7;
    if n.kind != "" {
      assert |s| == |n.kind|;
      assert forall i | 0 <= i < |s| ::
        s[i] == if Text.LowerChar(n.kind[i]) == '-' then '_' else Text.LowerChar(n.kind[i]);
      if SpellsAttackStep(n.kind) {
        assert "attack_step"[6] == '_';
        assert s == "attack_step";
      }
      if s == "attack_step" {
        forall i | 0 <= i < 11 ensures Text.LowerChar(n.kind[i]) == "attack_step"[i] || (i == 6 && n.kind[i] == '-') {
          assert s[i] == "attack_step"[i];
          assert i != 6 ==> "attack_step"[i] != '_';
        }
      }
    }
  }

  /** A node without a type is of type unknown; otherwise only case and hyphens are evened out. */
  lemma FoldKindMeans(kind: string)
    ensures kind == "" ==> FoldKind(kind) == "unknown"
    ensures kind != "" ==> |FoldKind(kind)| == |kind|
    ensures forall i | 0 <= i < |kind| ::
      FoldKind(kind)[i] == if kind[i] == '-' then '_' else Text.LowerChar(kind[i])
  {
    if kind == "" {
      assert Text.Lower("unknown") == "unknown";
    }
  }

  /** The path ids of the nodes folded under one type. */
  function FoldedIds(nodes: seq<Node>, kind: string): set<string> {
    if nodes == [] then {}
    else
      var n := nodes[|nodes| - 1];
      FoldedIds(nodes[..|nodes| - 1], kind) + if !Critical(n) && FoldKind(n.kind) == kind then NodeIds(n) else {}
  }

  lemma {:induction false} MembersAreFolded(nodes: seq<Node>, kind: string, k: nat)
    requires Proper(nodes) && k <= |nodes|
    ensures MemberIds(Folding(nodes), nodes[..k], ClusterId(kind)) == FoldedIds(nodes[..k], kind)
  {
    if k > 0 {
      MembersAreFolded(nodes, kind, k - 1);
      FoldingAt(nodes, k - 1);
      assert nodes[..k][..k - 1] == nodes[..k - 1] && nodes[..k][k - 1] == nodes[k - 1];
      SameCluster(FoldKind(nodes[k - 1].kind), kind);
    }
  }

  lemma SameCluster(a: string, b: string)
    ensures ClusterId(a) == ClusterId(b) <==> a == b
  {
    assert ClusterId(a)[|PREFIX|..] == a && ClusterId(b)[|PREFIX|..] == b;
  }

  /** Each emitted super-node stands for one type, and carries the path ids of exactly the nodes folded under it. */
  lemma SuperNode(nodes: seq<Node>, i: nat)
    requires Proper(nodes) && i < |Merged(nodes)| - |Preserved(nodes)|
    ensures var m := Merged(nodes)[|Preserved(nodes)| + i];
      && m.id == ClusterId(m.kind) && !m.isStart && !m.isEnd && m.pathId.None? && FoldedOf(nodes, m.kind) > 0
      && IdsOf(m.pathIds) == FoldedIds(nodes, m.kind)
  {
    var kind := Counts(nodes)[i].0;
    ClusterOnMemberPaths(Folding(nodes), nodes, ClusterId(kind));
    MembersAreFolded(nodes, kind, |nodes|);
    assert nodes[..|nodes|] == nodes;
    CountsExactly(nodes, kind);
    DistinctGet(Counts(nodes), i);
  }

  /** Every known node has an image among the emitted nodes. */
  lemma KnownIsEmitted(nodes: seq<Node>, i: nat)
    requires Proper(nodes) && i < |nodes|
    ensures Image(nodes, nodes[i].id) == if Critical(nodes[i]) then nodes[i].id else ClusterId(FoldKind(nodes[i].kind))
    ensures Image(nodes, nodes[i].id) in NodeIdSet(Merged(nodes))
  {
    var n, m := nodes[i], Merged(nodes);
    FoldingAt(nodes, i);
    if Critical(n) {
      PreservedExactly(nodes);
      assert n in m;
    } else {
      ClusterIsEmitted(nodes, i);
    }
  }

  lemma ClusterIsEmitted(nodes: seq<Node>, i: nat)
    requires i < |nodes| && !Critical(nodes[i])
    ensures ClusterId(FoldKind(nodes[i].kind)) in NodeIdSet(Merged(nodes))
  {
    var kind, counts := FoldKind(nodes[i].kind), Counts(nodes);
    FoldedOccurs(nodes, i);
    CountsExactly(nodes, kind);
    GetIndex(counts, kind);
    var j :| 0 <= j < |counts| && counts[j] == (kind, Get(counts, kind).value);
    assert ClusterNodes(nodes, counts)[j] in Merged(nodes);
  }

  /** An id that is not a node's is dropped with its links. */
  lemma UnknownIsNotEmitted(nodes: seq<Node>, id: string)
    requires Proper(nodes) && !Reserved(id) && id !in NodeIdSet(nodes)
    ensures Image(nodes, id) == id && id !in NodeIdSet(Merged(nodes))
  {
    forall i | 0 <= i < |nodes| ensures nodes[i].id != id {
      assert nodes[i] in nodes;
    }
    FoldingOnly(nodes, id);
    PreservedExactly(nodes);
    var clusters := ClusterNodes(nodes, Counts(nodes));
    forall i | 0 <= i < |clusters| ensures clusters[i].id != id {
      assert Reserved(clusters[i].id);
    }
    assert forall n | n in Merged(nodes) :: n in Preserved(nodes) || n in clusters;
  }

  // ---------------------------------------------------------------- merging links

  type Key = (string, string, string)

  function KeyOf(l: Link): Key {
    (l.source, l.target, l.kind)
  }

  /** The link between the images of its endpoints. */
  function Remapped(f: map<string, string>, l: Link): Link {
    l.(source := if l.source in f then f[l.source] else l.source,
       target := if l.target in f then f[l.target] else l.target)
  }

  predicate Kept(f: map<string, string>, known: set<string>, l: Link) {
    var r := Remapped(f, l);
    r.source in known && r.target in known && r.source != r.target
  }

  function Find(links: seq<Link>, k: Key): Option<Link> {
    if links == [] then None else if KeyOf(links[0]) == k then Some(links[0]) else Find(links[1..], k)
  }

  /** Appends a link, or merges its path ids into the link already emitted for the same key. */
  function AddLink(links: seq<Link>, l: Link): seq<Link> {
    if links == [] then [l]
    else if KeyOf(links[0]) == KeyOf(l)
    then [links[0].(pathIds := MergePathIds(links[0].pathIds, l.pathIds))] + links[1..]
    else [links[0]] + AddLink(links[1..], l)
  }

  function MergedLinks(f: map<string, string>, known: set<string>, raw: seq<Link>): seq<Link> {
    if raw == [] then []
    else
      var before, l := MergedLinks(f, known, raw[..|raw| - 1]), raw[|raw| - 1];
      if Kept(f, known, l) then AddLink(before, Remapped(f, l)) else before
  }

  /** The raw links that an emitted link with key `k` stands for exist. */
  predicate Stands(f: map<string, string>, known: set<string>, raw: seq<Link>, k: Key) {
    exists i :: 0 <= i < |raw| && Kept(f, known, raw[i]) && KeyOf(Remapped(f, raw[i])) == k
  }

  function UnionIds(f: map<string, string>, known: set<string>, raw: seq<Link>, k: Key): set<string> {
    if raw == [] then {}
    else
      var l := raw[|raw| - 1];
      UnionIds(f, known, raw[..|raw| - 1], k)
      + if Kept(f, known, l) && KeyOf(Remapped(f, l)) == k then IdsOf(l.pathIds) else {}
  }

  lemma {:induction false} AddLinkFind(links: seq<Link>, l: Link, k: Key)
    ensures var r, b := Find(AddLink(links, l), k), Find(links, k);
      if KeyOf(l) != k then r == b
      else r.Some? && KeyOf(r.value) == k
           && IdsOf(r.value.pathIds) == (if b.Some? then IdsOf(b.value.pathIds) else {}) + IdsOf(l.pathIds)
  {
    if links != [] {
      if KeyOf(links[0]) == KeyOf(l) {
        MergeIsUnion(links[0].pathIds, l.pathIds);
      } else {
        AddLinkFind(links[1..], l, k);
      }
    }
  }

  /**
   A link is emitted for a key exactly when some kept raw link maps to it, and its path ids
   are the union over all the raw links it stands for.
   */
  lemma {:induction false} MergedLinksExactly(f: map<string, string>, known: set<string>, raw: seq<Link>, k: Key)
    ensures var r := Find(MergedLinks(f, known, raw), k);
      && (r.Some? <==> Stands(f, known, raw, k))
      && (r.Some? ==> KeyOf(r.value) == k && IdsOf(r.value.pathIds) == UnionIds(f, known, raw, k))
      && (r.None? ==> UnionIds(f, known, raw, k) == {})
  {
    if raw != [] {
      var n := |raw| - 1;
      MergedLinksExactly(f, known, raw[..n], k);
      assert forall i | 0 <= i < n :: raw[..n][i] == raw[i];
      if Kept(f, known, raw[n]) {
        AddLinkFind(MergedLinks(f, known, raw[..n]), Remapped(f, raw[n]), k);
      }
    }
  }

  /** No key is emitted twice. */
  predicate NoRepeat(links: seq<Link>) {
    links == [] || (Find(links[1..], KeyOf(links[0])).None? && NoRepeat(links[1..]))
  }

  lemma {:induction false} AddLinkNoRepeat(links: seq<Link>, l: Link)
    requires NoRepeat(links)
    ensures NoRepeat(AddLink(links, l))
  {
    if links != [] && KeyOf(links[0]) != KeyOf(l) {
      AddLinkNoRepeat(links[1..], l);
      AddLinkFind(links[1..], l, KeyOf(links[0]));
    }
  }

  lemma {:induction false} MergedLinksNoRepeat(f: map<string, string>, known: set<string>, raw: seq<Link>)
    ensures NoRepeat(MergedLinks(f, known, raw))
  {
    if raw != [] {
      MergedLinksNoRepeat(f, known, raw[..|raw| - 1]);
      AddLinkNoRepeat(MergedLinks(f, known, raw[..|raw| - 1]), Remapped(f, raw[|raw| - 1]));
    }
  }

  // ---------------------------------------------------------------- reachability

  predicate Joined(links: seq<Link>, a: string, b: string) {
    exists i :: 0 <= i < |links| && links[i].source == a && links[i].target == b
  }

  predicate IsWalk(links: seq<Link>, p: seq<string>) {
    p != [] && forall i | 0 <= i < |p| - 1 :: Joined(links, p[i], p[i + 1])
  }

  ghost predicate Reaches(links: seq<Link>, a: string, b: string) {
    exists p :: IsWalk(links, p) && p[0] == a && p[|p| - 1] == b
  }

  lemma {:induction false} FindIsJoined(links: seq<Link>, k: Key)
    requires Find(links, k).Some?
    ensures Joined(links, k.0, k.1)
  {
    if KeyOf(links[0]) != k {
      FindIsJoined(links[1..], k);
      var i :| 0 <= i < |links[1..]| && links[1..][i].source == k.0 && links[1..][i].target == k.1;
      assert links[i + 1] == links[1..][i];
    } else {
      assert links[0].source == k.0 && links[0].target == k.1;
    }
  }

  lemma StepSurvives(nodes: seq<Node>, raw: seq<Link>, a: string, b: string)
    requires Proper(nodes) && a in NodeIdSet(nodes) && b in NodeIdSet(nodes) && Joined(raw, a, b)
    ensures Image(nodes, a) == Image(nodes, b) || Joined(Quotient(nodes, raw), Image(nodes, a), Image(nodes, b))
  {
    var f, known := Folding(nodes), NodeIdSet(Merged(nodes));
    var i :| 0 <= i < |raw| && raw[i].source == a && raw[i].target == b;
    var na :| na in nodes && na.id == a;
    var nb :| nb in nodes && nb.id == b;
    var x :| 0 <= x < |nodes| && nodes[x] == na;
    var y :| 0 <= y < |nodes| && nodes[y] == nb;
    KnownIsEmitted(nodes, x);
    KnownIsEmitted(nodes, y);
    var r := Remapped(f, raw[i]);
    if r.source != r.target {
      MergedLinksExactly(f, known, raw, KeyOf(r));
      assert Kept(f, known, raw[i]);
      FindIsJoined(MergedLinks(f, known, raw), KeyOf(r));
    }
  }

  function Images(nodes: seq<Node>, p: seq<string>): (q: seq<string>)
    ensures |q| == |p|
  {
    seq(|p|, i requires 0 <= i < |p| => Image(nodes, p[i]))
  }

  /** The links between images. */
  function Quotient(nodes: seq<Node>, raw: seq<Link>): seq<Link> {
    MergedLinks(Folding(nodes), NodeIdSet(Merged(nodes)), raw)
  }

  predicate Stutters(links: seq<Link>, q: seq<string>) {
    q != [] && forall i | 0 <= i < |q| - 1 :: StaysOrFollows(links, q, i)
  }

  predicate StaysOrFollows(links: seq<Link>, q: seq<string>, i: nat)
    requires i + 1 < |q|
  {
    q[i] == q[i + 1] || Joined(links, q[i], q[i + 1])
  }

  /** One step of a walk along a raw link between known nodes. */
  predicate KnownStep(nodes: seq<Node>, raw: seq<Link>, p: seq<string>, i: nat)
    requires i + 1 < |p|
  {
    Joined(raw, p[i], p[i + 1]) && p[i] in NodeIdSet(nodes) && p[i + 1] in NodeIdSet(nodes)
  }

  predicate KnownWalk(nodes: seq<Node>, raw: seq<Link>, p: seq<string>) {
    p != [] && forall i {:trigger KnownStep(nodes, raw, p, i)} | 0 <= i < |p| - 1 :: KnownStep(nodes, raw, p, i)
  }

  lemma ImagesStutter(nodes: seq<Node>, raw: seq<Link>, p: seq<string>, i: nat)
    requires Proper(nodes) && i + 1 < |p| && KnownStep(nodes, raw, p, i)
    ensures StaysOrFollows(Quotient(nodes, raw), Images(nodes, p), i)
  {
    StepSurvives(nodes, raw, p[i], p[i + 1]);
  }

  /** Clustering keeps reachability: a walk over known nodes has an image walk between the images of its ends. */
  lemma ReachabilitySurvives(nodes: seq<Node>, raw: seq<Link>, p: seq<string>)
    requires Proper(nodes) && KnownWalk(nodes, raw, p)
    ensures Reaches(Quotient(nodes, raw), Image(nodes, p[0]), Image(nodes, p[|p| - 1]))
  {
    var links, q := Quotient(nodes, raw), Images(nodes, p);
    forall i | 0 <= i < |p| - 1 && KnownStep(nodes, raw, p, i) ensures StaysOrFollows(links, q, i) {
      ImagesStutter(nodes, raw, p, i);
    }
    WalkOfImages(nodes, raw, p, links, q);
  }

  lemma WalkOfImages(nodes: seq<Node>, raw: seq<Link>, p: seq<string>, links: seq<Link>, q: seq<string>)
    requires KnownWalk(nodes, raw, p) && |q| == |p|
    requires forall i {:trigger KnownStep(nodes, raw, p, i)} | 0 <= i < |p| - 1 && KnownStep(nodes, raw, p, i) ::
      StaysOrFollows(links, q, i)
    ensures Reaches(links, q[0], q[|q| - 1])
  {
    forall i | 0 <= i < |q| - 1 ensures StaysOrFollows(links, q, i) {
      assert KnownStep(nodes, raw, p, i);
    }
    StutteringWalk(links, q);
  }

  /** A sequence that at each position stays or follows a link joins its ends. */
  lemma {:induction false} StutteringWalk(links: seq<Link>, q: seq<string>)
    requires Stutters(links, q)
    ensures Reaches(links, q[0], q[|q| - 1])
  {
    var n := |q| - 1;
    if n == 0 {
      assert IsWalk(links, [q[0]]);
    } else {
      forall i | 0 <= i < n - 1 ensures StaysOrFollows(links, q[..n], i) {
        assert StaysOrFollows(links, q, i);
      }
      StutteringWalk(links, q[..n]);
      assert StaysOrFollows(links, q, n - 1);
      ReachesStep(links, q[0], q[n - 1], q[n]);
    }
  }

  lemma ReachesStep(links: seq<Link>, a: string, b: string, c: string)
    requires Reaches(links, a, b) && (b == c || Joined(links, b, c))
    ensures Reaches(links, a, c)
  {
    if b != c {
      var q :| IsWalk(links, q) && q[0] == a && q[|q| - 1] == b;
      var q' := q + [c];
      forall i | 0 <= i < |q'| - 1 ensures Joined(links, q'[i], q'[i + 1]) {
        assert i < |q| - 1 ==> Joined(links, q[i], q[i + 1]);
      }
      assert IsWalk(links, q');
    }
  }

  // ---------------------------------------------------------------- the algorithm

  function CriticalIds(nodes: seq<Node>): set<string> {
    set n | n in nodes && Critical(n) :: n.id
  }

  function Filtered(ids: set<string>, nodes: seq<Node>): seq<Node> {
    if nodes == [] then []
    else Filtered(ids, nodes[..|nodes| - 1]) + if nodes[|nodes| - 1].id in ids then [nodes[|nodes| - 1]] else []
  }

  /** With unique ids, filtering by the critical ids keeps the critical nodes. */
  lemma {:induction false} FilteredIsPreserved(nodes: seq<Node>, k: nat)
    requires Proper(nodes) && k <= |nodes|
    ensures Filtered(CriticalIds(nodes), nodes[..k]) == Preserved(nodes[..k])
  {
    if k > 0 {
      FilteredIsPreserved(nodes, k - 1);
      assert nodes[..k][..k - 1] == nodes[..k - 1];
      assert nodes[..k][k - 1] == nodes[k - 1] && nodes[k - 1] in nodes;
    }
  }

  lemma CriticalIdsStep(nodes: seq<Node>, i: nat)
    requires i < |nodes|
    ensures CriticalIds(nodes[..i + 1]) == CriticalIds(nodes[..i]) + if Critical(nodes[i]) then {nodes[i].id} else {}
  {
    assert nodes[..i + 1] == nodes[..i] + [nodes[i]];
  }

  method FoldNodes(nodes: seq<Node>)
    returns (critical: set<string>, nodeToCluster: map<string, string>, counts: Entries<string>)
    ensures critical == CriticalIds(nodes) && nodeToCluster == Folding(nodes) && counts == Counts(nodes)
  {
    critical, nodeToCluster, counts := {}, map[], [];
    for i := 0 to |nodes|
      invariant critical == CriticalIds(nodes[..i])
      invariant nodeToCluster == Folding(nodes[..i]) && counts == Counts(nodes[..i])
    {
      var n := nodes[i];
      CriticalIdsStep(nodes, i);
      assert nodes[..i + 1][..i] == nodes[..i];
      var kind := FoldKind(n.kind);
      if n.isStart || n.isEnd || kind == "attack_step" {
        critical := critical + {n.id};
      } else {
        nodeToCluster := nodeToCluster[n.id := ClusterId(kind)];
        counts := Bump(counts, kind, 1);
      }
    }
    assert nodes[..|nodes|] == nodes;
  }

  method MergeLinks(nodeToCluster: map<string, string>, known: set<string>,
    links: seq<Link>) returns (merged: seq<Link>)
    ensures merged == MergedLinks(nodeToCluster, known, links)
  {
    merged := [];
    for i := 0 to |links|
      invariant merged == MergedLinks(nodeToCluster, known, links[..i])
    {
      var l := links[i];
      assert links[..i + 1][..i] == links[..i];
      var source := if l.source in nodeToCluster then nodeToCluster[l.source] else l.source;
      var target := if l.target in nodeToCluster then nodeToCluster[l.target] else l.target;
      if source in known && target in known && source != target {
        merged := AddLink(merged, l.(source := source, target := target));
      }
    }
    assert links[..|links|] == links;
  }

  /**
   Two passes over the nodes and one over the links. On proper input the result is the
   quotient specified above; up to the threshold the graph is returned as it is.
   */
  method ClusterForLod(nodes: seq<Node>, links: seq<Link>)
    returns (outNodes: seq<Node>, outLinks: seq<Link>, clustered: bool, counts: Entries<string>)
    ensures clustered <==> |nodes| > THRESHOLD
    ensures !clustered ==> outNodes == nodes && outLinks == links && counts == []
    ensures clustered && Proper(nodes) ==> outNodes == Merged(nodes) && counts == Counts(nodes)
    ensures clustered && Proper(nodes) ==> outLinks == Quotient(nodes, links)
  {
    if |nodes| <= THRESHOLD {
      return nodes, links, false, [];
    }
    var critical, nodeToCluster;
    critical, nodeToCluster, counts := FoldNodes(nodes);
    if Proper(nodes) {
      FilteredIsPreserved(nodes, |nodes|);
      assert nodes[..|nodes|] == nodes;
    }
    outNodes := Filtered(critical, nodes) + ClusterNodes(nodes, counts);
    outLinks := MergeLinks(nodeToCluster, NodeIdSet(outNodes), links);
    clustered := true;
  }
}
