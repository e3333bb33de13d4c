/**
 Migration 151: corrected versions of two shipped policies replace their broken 1.0.0
 templates, and every instance is repointed, in one transaction.
 */
module PolicyRepair {
  import opened Sql

  datatype Template = Template(
    id: string, version: string, expression: string, isSystem: bool, createdBy: string,
    cache: Option<string>, deleted: bool, rest: string)
  datatype Instance = Instance(
    name: string, template: string, version: string, resourceTypes: seq<string>, deleted: bool, rest: string)

  /** Both tables in primary-key order; soft-deleted rows stay in place. */
  datatype Store = Store(templates: seq<Template>, instances: seq<Instance>)

  datatype Target = Target(id: string, legacy: string, corrected: string, baseline: string)

  const BROKEN := "1.0.0"
  const FIXED := "1.0.1"

  // ---------------------------------------------------------------- lookups

  predicate IsVersion(t: Template, id: string, version: string) {
    t.id == id && t.version == version
  }

  predicate LiveVersion(t: Template, id: string, version: string) {
    IsVersion(t, id, version) && !t.deleted
  }

  /** `First` among live rows, from position `i` on. */
  function FirstLive(ts: seq<Template>, id: string, version: string, i: nat): (r: Option<nat>)
    requires i <= |ts|
    ensures r.Some? ==> i <= r.value < |ts| && LiveVersion(ts[r.value], id, version)
    ensures r.Some? ==> forall j | i <= j < r.value :: !LiveVersion(ts[j], id, version)
    ensures r.None? ==> forall j | i <= j < |ts| :: !LiveVersion(ts[j], id, version)
    decreases |ts| - i
  {
    if i == |ts| then None
    else if LiveVersion(ts[i], id, version) then Some(i)
    else FirstLive(ts, id, version, i + 1)
  }

  predicate IsBaseline(x: Instance, t: Target) {
    x.name == t.baseline && x.template == t.id && x.version == FIXED && !x.deleted
  }

  function FirstBaseline(xs: seq<Instance>, t: Target, i: nat): (r: Option<nat>)
    requires i <= |xs|
    ensures r.Some? ==> i <= r.value < |xs| && IsBaseline(xs[r.value], t)
    ensures r.Some? ==> forall j | i <= j < r.value :: !IsBaseline(xs[j], t)
    ensures r.None? ==> forall j | i <= j < |xs| :: !IsBaseline(xs[j], t)
    decreases |xs| - i
  {
    if i == |xs| then None else if IsBaseline(xs[i], t) then Some(i) else FirstBaseline(xs, t, i + 1)
  }

  // ---------------------------------------------------------------- one target

  predicate Stock(old': Template, t: Target) {
    old'.isSystem && old'.createdBy == "system" && old'.expression == t.legacy
  }

  /** A live 1.0.0 template that is not the shipped one. */
  predicate UserEdited(s: Store, t: Target) {
    var old' := FirstLive(s.templates, t.id, BROKEN, 0);
    old'.Some? && !Stock(s.templates[old'.value], t)
  }

  function Copy(old': Template, t: Target): Template {
    old'.(version := FIXED, expression := t.corrected, cache := None, deleted := false)
  }

  /** The templates with a corrected version, or None when that fails. */
  function Corrected(ts: seq<Template>, t: Target): Option<seq<Template>> {
    var old', fixed := FirstLive(ts, t.id, BROKEN, 0), FirstLive(ts, t.id, FIXED, 0);
    if fixed.Some? then (if ts[fixed.value].expression == t.corrected then Some(ts) else None)
    else if old'.None? then None
    // (id, version) is unique, deleted rows included
    else if exists i :: 0 <= i < |ts| && IsVersion(ts[i], t.id, FIXED) then None
    else Some(ts + [Copy(ts[old'.value], t)])
  }

  function Repointed(xs: seq<Instance>, t: Target): seq<Instance> {
    seq(|xs|, i requires 0 <= i < |xs| =>
      if xs[i].template == t.id && xs[i].version == BROKEN then xs[i].(version := FIXED) else xs[i])
  }

  function Scoped(xs: seq<Instance>, t: Target): seq<Instance> {
    var b := FirstBaseline(xs, t, 0);
    if b.Some? && xs[b.value].resourceTypes == [] then xs[b.value := xs[b.value].(resourceTypes := ["Pod"])] else xs
  }

  function Retired(ts: seq<Template>, t: Target): seq<Template> {
    var old' := FirstLive(ts, t.id, BROKEN, 0);
    if old'.Some? then ts[old'.value := ts[old'.value].(deleted := true)] else ts
  }

  function RepairOne(s: Store, t: Target): Option<Store> {
    if UserEdited(s, t) then Some(s)
    else
      var templates := Corrected(s.templates, t);
      if templates.None? then None
      else Some(Store(Retired(templates.value, t), Scoped(Repointed(s.instances, t), t)))
  }

  function Repair(s: Store, targets: seq<Target>): Option<Store>
    decreases |targets|
  {
    if targets == [] then Some(s)
    else
      var s' := RepairOne(s, targets[0]);
      if s'.None? then None else Repair(s'.value, targets[1..])
  }

  // ---------------------------------------------------------------- what a repair achieves

  predicate UniqueVersions(ts: seq<Template>) {
    forall i, j | 0 <= i < j < |ts| :: !(ts[i].id == ts[j].id && ts[i].version == ts[j].version)
  }

  predicate UniqueNames(xs: seq<Instance>) {
    forall i, j | 0 <= i < j < |xs| :: xs[i].name != xs[j].name
  }

  predicate Sound(s: Store) {
    UniqueVersions(s.templates) && UniqueNames(s.instances)
  }

  /** No instance is left on the broken version, the corrected one is live, and the broken one is retired. */
  predicate Repaired(s: Store, t: Target) {
    && (forall i | 0 <= i < |s.instances| :: !(s.instances[i].template == t.id && s.instances[i].version == BROKEN))
    && (exists i :: 0 <= i < |s.templates| && LiveVersion(s.templates[i], t.id, FIXED)
                    && s.templates[i].expression == t.corrected)
    && (forall i | 0 <= i < |s.templates| :: !LiveVersion(s.templates[i], t.id, BROKEN))
    && (forall i | 0 <= i < |s.instances| && IsBaseline(s.instances[i], t) :: s.instances[i].resourceTypes != [])
  }

  predicate Settled(s: Store, t: Target) {
    UserEdited(s, t) || Repaired(s, t)
  }

  /** `after` differs from `before` only in rows of the template `id`; rows are added at the end. */
  predicate OnlyTemplate(before: Store, after: Store, id: string) {
    && |before.templates| <= |after.templates| && |before.instances| == |after.instances|
    && (forall i | 0 <= i < |before.templates| ::
          after.templates[i].id == before.templates[i].id
          && (before.templates[i].id != id ==> after.templates[i] == before.templates[i]))
    && (forall i | |before.templates| <= i < |after.templates| :: after.templates[i].id == id)
    && (forall i | 0 <= i < |before.instances| ::
          after.instances[i].template == before.instances[i].template
          && (before.instances[i].template != id ==> after.instances[i] == before.instances[i]))
  }

  lemma CorrectedExactly(ts: seq<Template>, t: Target)
    requires UniqueVersions(ts) && Corrected(ts, t).Some?
    ensures var r := Corrected(ts, t).value;
      && ts <= r && |r| <= |ts| + 1 && UniqueVersions(r)
      && (forall i | |ts| <= i < |r| :: r[i].id == t.id && r[i].version == FIXED)
      && (exists i :: 0 <= i < |r| && LiveVersion(r[i], t.id, FIXED) && r[i].expression == t.corrected)
  {
    var fixed := FirstLive(ts, t.id, FIXED, 0);
    var r := Corrected(ts, t).value;
    var k := if fixed.Some? then fixed.value else |ts|;
    assert LiveVersion(r[k], t.id, FIXED) && r[k].expression == t.corrected;
  }

  lemma RetiredExactly(ts: seq<Template>, t: Target)
    requires UniqueVersions(ts)
    ensures var r := Retired(ts, t);
      && |r| == |ts| && UniqueVersions(r)
      && (forall i | 0 <= i < |ts| ::
            r[i] == ts[i] || (LiveVersion(ts[i], t.id, BROKEN) && r[i] == ts[i].(deleted := true)))
      && (forall i | 0 <= i < |r| :: !LiveVersion(r[i], t.id, BROKEN))
  {
  }

  lemma ScopedExactly(xs: seq<Instance>, t: Target)
    requires UniqueNames(xs)
    ensures var r := Scoped(Repointed(xs, t), t);
      && |r| == |xs| && UniqueNames(r)
      && (forall i | 0 <= i < |xs| :: r[i].template == xs[i].template && (xs[i].template != t.id ==> r[i] == xs[i]))
      && (forall i | 0 <= i < |xs| ::
            r[i].version == if xs[i].template == t.id && xs[i].version == BROKEN then FIXED else xs[i].version)
      && (forall i | 0 <= i < |r| && IsBaseline(r[i], t) :: r[i].resourceTypes != [])
  {
    var p := Repointed(xs, t);
    assert forall i | 0 <= i < |xs| :: p[i].name == xs[i].name;
    var b := FirstBaseline(p, t, 0);
    if b.Some? {
      assert forall i | 0 <= i < |p| && IsBaseline(p[i], t) :: p[i].name == p[b.value].name;
    }
  }

  /** One target: it ends settled, and only its own rows changed. */
  lemma RepairOneSettles(s: Store, t: Target)
    requires Sound(s) && RepairOne(s, t).Some?
    ensures var s' := RepairOne(s, t).value;
      Sound(s') && Settled(s', t) && OnlyTemplate(s, s', t.id) && (UserEdited(s, t) ==> s' == s)
  {
    if !UserEdited(s, t) {
      var ts := Corrected(s.templates, t).value;
      CorrectedExactly(s.templates, t);
      RetiredExactly(ts, t);
      ScopedExactly(s.instances, t);
      var s' := RepairOne(s, t).value;
      var k :| 0 <= k < |ts| && LiveVersion(ts[k], t.id, FIXED) && ts[k].expression == t.corrected;
      assert BROKEN != FIXED by { assert BROKEN[4] != FIXED[4]; }
      assert s'.templates[k] == ts[k];
    }
  }

  /** An instance of the target moves to the corrected version; the unscoped baseline also becomes a Pod policy. */
  predicate InstanceMoved(before: Instance, after: Instance, t: Target) {
    && after.version == (if before.template == t.id && before.version == BROKEN then FIXED else before.version)
    && after.resourceTypes == (if before.name == t.baseline && before.template == t.id && after.version == FIXED
                                  && !before.deleted && before.resourceTypes == []
                               then ["Pod"] else before.resourceTypes)
    && after.(version := before.version, resourceTypes := before.resourceTypes) == before
  }

  /** What a repair of one target changes in each instance: nothing but version and baseline scope. */
  lemma InstancesMoved(s: Store, t: Target, i: nat)
    requires Sound(s) && RepairOne(s, t).Some? && !UserEdited(s, t) && i < |s.instances|
    ensures var s' := RepairOne(s, t).value;
      |s'.instances| == |s.instances| && InstanceMoved(s.instances[i], s'.instances[i], t)
  {
    assert BROKEN != FIXED by { assert BROKEN[4] != FIXED[4]; }
    var p := Repointed(s.instances, t);
    var b := FirstBaseline(p, t, 0);
    assert forall j | 0 <= j < |p| :: p[j].name == s.instances[j].name;
    if IsBaseline(p[i], t) {
      assert b.Some? && p[b.value].name == p[i].name;
    }
  }

  /** A template counts as edited when its live 1.0.0 row is not the one that was shipped, in any of three ways. */
  lemma UserEditedMeans(s: Store, t: Target, i: nat)
    requires Sound(s) && i < |s.templates|
    requires s.templates[i].id == t.id && s.templates[i].version == "1.0.0" && !s.templates[i].deleted
    ensures UserEdited(s, t) <==>
      !s.templates[i].isSystem || s.templates[i].createdBy != "system" || s.templates[i].expression != t.legacy
  {
    assert LiveVersion(s.templates[i], t.id, BROKEN);
    assert FirstLive(s.templates, t.id, BROKEN, 0) == Some(i);
  }

  /** Without a live 1.0.0 row nothing was edited. */
  lemma NothingEdited(s: Store, t: Target)
    requires forall i | 0 <= i < |s.templates| ::
      s.templates[i].id != t.id || s.templates[i].version != "1.0.0" || s.templates[i].deleted
    ensures !UserEdited(s, t)
  {
  }

  /**
   What it changes in the templates: the broken one is retired, every other row stays, and a row
   that is added is the broken one with the corrected version, expression and no cached program.
   */
  lemma TemplatesMoved(s: Store, t: Target)
    requires RepairOne(s, t).Some? && !UserEdited(s, t)
    ensures var ts, us := s.templates, RepairOne(s, t).value.templates;
      && |ts| <= |us| <= |ts| + 1
      && (forall i | 0 <= i < |ts| ::
            us[i] == ts[i] || (LiveVersion(ts[i], t.id, BROKEN) && us[i] == ts[i].(deleted := true)))
      && (|us| > |ts| ==>
            exists i :: 0 <= i < |ts| && LiveVersion(ts[i], t.id, BROKEN)
                        && us[|ts|] == ts[i].(version := FIXED, expression := t.corrected, cache := None))
  {
    var old' := FirstLive(s.templates, t.id, BROKEN, 0);
    var ts := Corrected(s.templates, t).value;
    var retired := FirstLive(ts, t.id, BROKEN, 0);
    assert BROKEN != FIXED by { assert BROKEN[4] != FIXED[4]; }
    if |ts| > |s.templates| {
      assert ts[|s.templates|] == Copy(s.templates[old'.value], t);
      assert LiveVersion(s.templates[old'.value], t.id, BROKEN);
    }
  }

  /** The rows of one template are the same in both stores. */
  predicate SameRows(a: Store, b: Store, id: string) {
    && |a.templates| <= |b.templates| && |a.instances| == |b.instances|
    && (forall i | |a.templates| <= i < |b.templates| :: b.templates[i].id != id)
    && (forall i | 0 <= i < |a.templates| :: a.templates[i].id == b.templates[i].id
                                             && (a.templates[i].id == id ==> a.templates[i] == b.templates[i]))
    && (forall i | 0 <= i < |a.instances| :: a.instances[i].template == b.instances[i].template
                                             && (a.instances[i].template == id ==> a.instances[i] == b.instances[i]))
  }

  /** A target's verdict depends on its own rows alone. */
  lemma SettledBySameRows(a: Store, b: Store, t: Target)
    requires SameRows(a, b, t.id)
    ensures UserEdited(a, t) <==> UserEdited(b, t)
    ensures Settled(a, t) ==> Settled(b, t)
  {
    FirstLiveSame(a.templates, b.templates, t.id, BROKEN, 0);
    if Repaired(a, t) {
      var k :| 0 <= k < |a.templates| && LiveVersion(a.templates[k], t.id, FIXED)
        && a.templates[k].expression == t.corrected;
      assert b.templates[k] == a.templates[k];
      forall i | 0 <= i < |b.templates| ensures !LiveVersion(b.templates[i], t.id, BROKEN) {
        assert i < |a.templates| ==> !LiveVersion(a.templates[i], t.id, BROKEN);
      }
    }
  }

  lemma {:induction false} FirstLiveSame(ts: seq<Template>, us: seq<Template>, id: string, version: string, i: nat)
    requires i <= |ts| <= |us|
    requires forall j | 0 <= j < |ts| :: us[j].id == ts[j].id && (ts[j].id == id ==> us[j] == ts[j])
    requires forall j | |ts| <= j < |us| :: us[j].id != id
    ensures FirstLive(ts, id, version, i) == FirstLive(us, id, version, i)
    decreases |ts| - i
  {
    if i < |ts| {
      FirstLiveSame(ts, us, id, version, i + 1);
    }
  }

  predicate DistinctTargets(targets: seq<Target>) {
    forall i, j | 0 <= i < j < |targets| :: targets[i].id != targets[j].id
  }

  const PRIVILEGED_ID := "k8s-no-privileged-container"
  const HOST_ID := "k8s-no-host-namespace-sharing"

  /** The two shipped targets, given the texts of their legacy and corrected expressions. */
  function Shipped(legacy: seq<string>, corrected: seq<string>): seq<Target>
    requires |legacy| == |corrected| == 2
  {
    [ Target(PRIVILEGED_ID, legacy[0], corrected[0], "baseline-no-privileged-container"),
      Target(HOST_ID, legacy[1], corrected[1], "baseline-no-host-namespace-sharing") ]
  }

  lemma ShippedAreDistinct(legacy: seq<string>, corrected: seq<string>)
    requires |legacy| == |corrected| == 2
    ensures DistinctTargets(Shipped(legacy, corrected))
  {
    assert |PRIVILEGED_ID| == 27 && |HOST_ID| == 29;
  }

  lemma {:induction false} RepairFrame(s: Store, targets: seq<Target>, id: string)
    requires Sound(s) && Repair(s, targets).Some?
    requires forall i | 0 <= i < |targets| :: targets[i].id != id
    ensures Sound(Repair(s, targets).value) && SameRows(s, Repair(s, targets).value, id)
    decreases |targets|
  {
    if targets != [] {
      RepairOneSettles(s, targets[0]);
      RepairFrame(RepairOne(s, targets[0]).value, targets[1..], id);
    }
  }

  /**
   A successful repair settles every target: its instances left the broken version and the
   corrected one is live; or its edited template and all rows of it are exactly as before.
   */
  lemma {:induction false} RepairSettles(s: Store, targets: seq<Target>, k: nat)
    requires Sound(s) && DistinctTargets(targets) && Repair(s, targets).Some? && k < |targets|
    ensures var s' := Repair(s, targets).value;
      && Settled(s', targets[k])
      && (UserEdited(s, targets[k]) ==> SameRows(s, s', targets[k].id))
    decreases |targets|
  {
    var t, s1, s' := targets[k], RepairOne(s, targets[0]).value, Repair(s, targets).value;
    RepairOneSettles(s, targets[0]);
    if k == 0 {
      RepairFrame(s1, targets[1..], t.id);
      SettledBySameRows(s1, s', t);
    } else {
      assert t == targets[1..][k - 1];
      RepairSettles(s1, targets[1..], k - 1);
      assert SameRows(s, s1, t.id);
      SettledBySameRows(s, s1, t);
    }
  }

  lemma SettledIsStable(s: Store, t: Target)
    requires Sound(s) && Settled(s, t)
    ensures RepairOne(s, t) == Some(s)
  {
    if !UserEdited(s, t) {
      var k :| 0 <= k < |s.templates| && LiveVersion(s.templates[k], t.id, FIXED)
        && s.templates[k].expression == t.corrected;
      var fixed := FirstLive(s.templates, t.id, FIXED, 0);
      assert fixed == Some(k);
      assert Repointed(s.instances, t) == s.instances;
    }
  }

  lemma {:induction false} SettledRepair(s: Store, targets: seq<Target>)
    requires Sound(s) && forall i | 0 <= i < |targets| :: Settled(s, targets[i])
    ensures Repair(s, targets) == Some(s)
    decreases |targets|
  {
    if targets != [] {
      SettledIsStable(s, targets[0]);
      SettledRepair(s, targets[1..]);
    }
  }

  predicate HasLive(ts: seq<Template>, id: string, version: string) {
    exists i :: 0 <= i < |ts| && LiveVersion(ts[i], id, version)
  }

  /**
   When a target cannot be repaired: it is not user-edited, and its 1.0.1 is live with another
   expression, or is not live while there is no live 1.0.0 to copy or a deleted 1.0.1 holds the key.
   */
  predicate Failing(s: Store, t: Target) {
    var ts := s.templates;
    && !UserEdited(s, t)
    && if HasLive(ts, t.id, FIXED)
       then exists i :: 0 <= i < |ts| && LiveVersion(ts[i], t.id, FIXED) && ts[i].expression != t.corrected
       else !HasLive(ts, t.id, BROKEN) || exists i :: 0 <= i < |ts| && IsVersion(ts[i], t.id, FIXED)
  }

  lemma RepairOneFails(s: Store, t: Target)
    requires Sound(s)
    ensures RepairOne(s, t).None? <==> Failing(s, t)
  {
    var fixed := FirstLive(s.templates, t.id, FIXED, 0);
    if fixed.Some? {
      assert LiveVersion(s.templates[fixed.value], t.id, FIXED);
      assert forall i | 0 <= i < |s.templates| && LiveVersion(s.templates[i], t.id, FIXED) :: i == fixed.value;
    }
  }

  lemma FailingBySameRows(a: Store, b: Store, t: Target)
    requires SameRows(a, b, t.id)
    ensures Failing(a, t) <==> Failing(b, t)
  {
    SettledBySameRows(a, b, t);
    forall i | 0 <= i < |b.templates|
      ensures b.templates[i].id == t.id ==> i < |a.templates| && a.templates[i] == b.templates[i]
    {
    }
    forall i | 0 <= i < |a.templates| ensures a.templates[i].id == t.id ==> b.templates[i] == a.templates[i] {
    }
    LiveBySameRows(a, b, t.id, FIXED);
    LiveBySameRows(a, b, t.id, BROKEN);
  }

  lemma LiveBySameRows(a: Store, b: Store, id: string, version: string)
    requires SameRows(a, b, id)
    ensures HasLive(a.templates, id, version) <==> HasLive(b.templates, id, version)
  {
    if i :| 0 <= i < |a.templates| && LiveVersion(a.templates[i], id, version) {
      assert LiveVersion(b.templates[i], id, version);
    }
    if i :| 0 <= i < |b.templates| && LiveVersion(b.templates[i], id, version) {
      assert LiveVersion(a.templates[i], id, version);
    }
  }

  /** The repair succeeds exactly when no target fails on the store as it was found. */
  lemma {:induction false} RepairFailsIff(s: Store, targets: seq<Target>)
    requires Sound(s) && DistinctTargets(targets)
    ensures Repair(s, targets).None? <==> exists i :: 0 <= i < |targets| && Failing(s, targets[i])
    decreases |targets|
  {
    if targets != [] {
      RepairOneFails(s, targets[0]);
      if !Failing(s, targets[0]) {
        var s1, rest := RepairOne(s, targets[0]).value, targets[1..];
        RepairOneSettles(s, targets[0]);
        RepairFailsIff(s1, rest);
        forall i | 0 <= i < |rest| ensures rest[i] == targets[i + 1] && Failing(s, rest[i]) == Failing(s1, rest[i]) {
          assert targets[0].id != targets[i + 1].id;
          FailingBySameRows(s, s1, rest[i]);
        }
        if i :| 0 <= i < |targets| && Failing(s, targets[i]) {
          assert rest[i - 1] == targets[i];
        }
      }
    }
  }

  /** Running the repair again changes nothing. */
  lemma RepairIsIdempotent(s: Store, targets: seq<Target>)
    requires Sound(s) && DistinctTargets(targets) && Repair(s, targets).Some?
    ensures Sound(Repair(s, targets).value) && Repair(Repair(s, targets).value, targets) == Repair(s, targets)
  {
    var s' := Repair(s, targets).value;
    forall i | 0 <= i < |targets| ensures Settled(s', targets[i]) {
      RepairSettles(s, targets, i);
    }
    RepairKeepsSound(s, targets);
    SettledRepair(s', targets);
  }

  lemma {:induction false} RepairKeepsSound(s: Store, targets: seq<Target>)
    requires Sound(s) && Repair(s, targets).Some?
    ensures Sound(Repair(s, targets).value)
    decreases |targets|
  {
    if targets != [] {
      RepairOneSettles(s, targets[0]);
      RepairKeepsSound(RepairOne(s, targets[0]).value, targets[1..]);
    }
  }

  // ---------------------------------------------------------------- the transaction

  class Policies {
    const fault: nat -> bool
    var clock: nat
    var store: Store

    constructor (store: Store, fault: nat -> bool)
      ensures this.store == store && this.fault == fault && clock == 0
    {
      this.store, this.fault, clock := store, fault, 0;
    }

    /** Commits the repaired store, or leaves everything as it was. */
    method RepairBaselinePolicies(targets: seq<Target>) returns (ok: bool)
      requires Sound(store) && DistinctTargets(targets)
      modifies this
      ensures ok ==> Repair(old(store), targets) == Some(store) && Sound(store)
      ensures ok ==> forall i | 0 <= i < |targets| :: Settled(store, targets[i])
      ensures ok ==> Repair(store, targets) == Some(store)
      ensures !ok ==> store == old(store)
      ensures ok ==> clock == old(clock) + |targets| && forall k: nat | old(clock) < k <= clock :: !fault(k)
      ensures (forall k: nat :: !fault(k)) ==>
        (ok <==> forall i | 0 <= i < |targets| :: !Failing(old(store), targets[i]))
    {
      RepairFailsIff(store, targets);
      var tx := store;
      for i := 0 to |targets|
        invariant store == old(store) && clock == old(clock) + i
        invariant forall k: nat | old(clock) < k <= clock :: !fault(k)
        invariant Repair(tx, targets[i..]) == Repair(old(store), targets)
      {
        clock := clock + 1;
        if fault(clock) { return false; }
        var next := RepairOne(tx, targets[i]);
        assert targets[i..][1..] == targets[i + 1..];
        if next.None? { return false; }
        tx := next.value;
      }
      RepairIsIdempotent(store, targets);
      forall i | 0 <= i < |targets| ensures Settled(tx, targets[i]) {
        RepairSettles(store, targets, i);
      }
      store := tx;
      ok := true;
    }
  }
}
