/**
 The swap from UID-only keys to {cluster, Pod UID} keys, run at every startup.

 One SQL statement is one step. Before each statement other sessions may write
 any rows the keys then in force admit, and each statement may be refused or
 interrupted, which ends the run: a crash after a statement is a fault at the
 next one. What holds on return therefore holds after every statement.
 */
module KeySwap {
  import opened Sql
  import opened Schema

  // ---------------------------------------------------------------- rows and keys

  type Row = map<Column, Option<string>>
  type Tables = map<Table, seq<Row>>

  function Cell(row: Row, column: Column): Option<string> {
    if column in row then row[column] else None
  }

  function RowsOf(tables: Tables, table: Table): seq<Row> {
    if table in tables then tables[table] else []
  }

  /** Two rows have one key value: NULLs are distinct, so every column must be non-NULL and equal. */
  predicate Clash(a: Row, b: Row, columns: seq<Column>) {
    forall c | c in columns :: Eq(Cell(a, c), Cell(b, c)).Holds()
  }

  predicate KeyHolds(rows: seq<Row>, columns: seq<Column>) {
    forall i, j | 0 <= i < j < |rows| :: !Clash(rows[i], rows[j], columns)
  }

  predicate NonNull(rows: seq<Row>, columns: seq<Column>) {
    forall i | 0 <= i < |rows| :: forall c | c in columns :: Cell(rows[i], c).Some?
  }

  /** No row answers `COALESCE(cluster_id, '') = ''`. */
  predicate AllOwned(rows: seq<Row>) {
    forall i | 0 <= i < |rows| :: Present(Cell(rows[i], ClusterId))
  }

  // ---------------------------------------------------------------- catalog

  datatype IndexDef = IndexDef(table: Table, columns: seq<Column>, unique: bool, valid: bool, plain: bool)
  datatype PrimaryKey = PrimaryKey(constraint: Name, columns: seq<Column>)

  /** Indexes by name, unique constraints by (table, name), primary keys by table. */
  datatype Catalog = Catalog(
    indexes: map<Name, IndexDef>,
    constraints: map<(Table, Name), seq<Column>>,
    keys: map<Table, PrimaryKey>)

  predicate Strict(d: IndexDef) {
    d.unique && d.valid && d.plain
  }

  /** Every key in force holds of the rows: what the database maintains. */
  predicate Admits(c: Catalog, tables: Tables) {
    && (forall n | n in c.indexes ::
          Strict(c.indexes[n]) ==> KeyHolds(RowsOf(tables, c.indexes[n].table), c.indexes[n].columns))
    && (forall p | p in c.constraints :: KeyHolds(RowsOf(tables, p.0), c.constraints[p]))
    && (forall t | t in c.keys ::
          KeyHolds(RowsOf(tables, t), c.keys[t].columns) && NonNull(RowsOf(tables, t), c.keys[t].columns))
  }

  /** An index may join the keys in force when the rows already satisfy it, and may leave at any time. */
  lemma AdmitsIndex(c: Catalog, tables: Tables, name: Name, d: IndexDef)
    requires Admits(c, tables)
    requires Strict(d) ==> KeyHolds(RowsOf(tables, d.table), d.columns)
    ensures Admits(c.(indexes := c.indexes[name := d]), tables)
    ensures Admits(c.(indexes := c.indexes - {name}), tables)
  {
  }

  // ---------------------------------------------------------------- targets

  datatype IndexTarget = IndexTarget(
    name: Name, table: Table, columns: seq<Column>,
    legacyIndexes: seq<Name>, legacyConstraints: seq<Name>, allowUnowned: bool)
  datatype KeyTarget = KeyTarget(table: Table, columns: seq<Column>, constraint: Name, guardIndex: Name)
  datatype Plan = Plan(indexes: seq<IndexTarget>, keys: seq<KeyTarget>)

  const SHIPPED: Plan := Plan(
    [ IndexTarget(IdxPodCapabilityIdentity, PodCapabilities, [ClusterId, PodUid, CapabilityId],
                  [IdxPodCapabilitiesUnique], [], false),
      IndexTarget(IdxAssetSecurityStateIdentity, AssetSecurityState, [ClusterId, PodUid],
                  [IdxAssetSecurityStatePodUid], [], false),
      IndexTarget(IdxPodRiskProfileIdentity, PodRiskProfiles, [ClusterId, PodUid],
                  [IdxPodRiskProfilesUnique], [], false),
      IndexTarget(IdxAttackPathIdentity, AttackPaths, [ClusterId, PodUid, PathId],
                  [], [UqAttackPathsPodPath], false),
      IndexTarget(IdxPodImageScanIdentity, PodImageScans, [ClusterId, PodUid, ContainerName],
                  [IdxPodImageScansUniquePodUidContainerName,
                   IdxPodImageScansUniquePodUidContainerNameAll], [], false),
      IndexTarget(IdxInsightResourceIdentity, Insights, [ClusterId, ResourceUid, CveId, InsightType],
                  [IdxInsightsUniqueResourceCveType,
                   IdxInsightsUniqueResourceCveTypeAll], [], true) ],
    [ KeyTarget(PodAttackSteps, [ClusterId, PodUid, StepId],
                PodAttackStepsPkey, IdxPodAttackStepIdentityGuard),
      KeyTarget(PodInstances, [ClusterId, PodUid],
                PodInstancesPkey, IdxPodInstanceIdentityGuard) ])

  const AGENTS: Plan := Plan(
    [ IndexTarget(IdxAgentsClusterAgent, Agents, [ClusterId, AgentId],
                  [IdxAgentsAgentId], [AgentsAgentIdKey], true) ], [])

  function Wanted(table: Table, columns: seq<Column>): IndexDef {
    IndexDef(table, columns, true, true, true)
  }

  predicate Exact(c: Catalog, name: Name, want: IndexDef) {
    name in c.indexes && c.indexes[name] == want
  }

  predicate Composite(c: Catalog, k: KeyTarget) {
    k.table in c.keys && c.keys[k.table].columns == k.columns
  }

  predicate Narrower(columns: seq<Column>, wide: seq<Column>) {
    forall c | c in columns :: c in wide
  }

  /** A legacy key of the target is in force: it is at least as strict as the composite one. */
  ghost predicate LegacyInForce(c: Catalog, t: IndexTarget) {
    || (exists n :: n in t.legacyIndexes && n in c.indexes && Strict(c.indexes[n])
                    && c.indexes[n].table == t.table && Narrower(c.indexes[n].columns, t.columns))
    || (exists n :: n in t.legacyConstraints && (t.table, n) in c.constraints
                    && Narrower(c.constraints[(t.table, n)], t.columns))
  }

  ghost predicate IndexGuarded(c: Catalog, t: IndexTarget) {
    Exact(c, t.name, Wanted(t.table, t.columns)) || LegacyInForce(c, t)
  }

  /** Legacy primary key, new primary key, or the temporary guard index. */
  ghost predicate KeyGuarded(c: Catalog, k: KeyTarget) {
    || Exact(c, k.guardIndex, Wanted(k.table, k.columns))
    || (k.table in c.keys && Narrower(c.keys[k.table].columns, k.columns))
  }

  ghost predicate Guarded(plan: Plan, c: Catalog) {
    && (forall t | t in plan.indexes :: IndexGuarded(c, t))
    && (forall k | k in plan.keys :: KeyGuarded(c, k))
  }

  /** The row-level meaning of `Guarded`: no two rows share a full composite identity. */
  predicate IdentityHolds(plan: Plan, tables: Tables) {
    && (forall t | t in plan.indexes :: KeyHolds(RowsOf(tables, t.table), t.columns))
    && (forall k | k in plan.keys :: KeyHolds(RowsOf(tables, k.table), k.columns))
  }

  lemma NarrowerIsStricter(rows: seq<Row>, columns: seq<Column>, wide: seq<Column>)
    requires Narrower(columns, wide) && KeyHolds(rows, columns)
    ensures KeyHolds(rows, wide)
  {
    forall i, j | 0 <= i < j < |rows| ensures !Clash(rows[i], rows[j], wide) {
      assert !Clash(rows[i], rows[j], columns);
      var c :| c in columns && !Eq(Cell(rows[i], c), Cell(rows[j], c)).Holds();
      assert c in wide;
    }
  }

  lemma GuardedTarget(c: Catalog, tables: Tables, t: IndexTarget)
    requires IndexGuarded(c, t) && Admits(c, tables)
    ensures KeyHolds(RowsOf(tables, t.table), t.columns)
  {
    if !Exact(c, t.name, Wanted(t.table, t.columns)) {
      if n :| n in t.legacyIndexes && n in c.indexes && Strict(c.indexes[n])
              && c.indexes[n].table == t.table && Narrower(c.indexes[n].columns, t.columns) {
        NarrowerIsStricter(RowsOf(tables, t.table), c.indexes[n].columns, t.columns);
      } else {
        var n :| n in t.legacyConstraints && (t.table, n) in c.constraints
                 && Narrower(c.constraints[(t.table, n)], t.columns);
        assert KeyHolds(RowsOf(tables, (t.table, n).0), c.constraints[(t.table, n)]);
        NarrowerIsStricter(RowsOf(tables, t.table), c.constraints[(t.table, n)], t.columns);
      }
    }
  }

  lemma GuardedKey(c: Catalog, tables: Tables, k: KeyTarget)
    requires KeyGuarded(c, k) && Admits(c, tables)
    ensures KeyHolds(RowsOf(tables, k.table), k.columns)
  {
    if !Exact(c, k.guardIndex, Wanted(k.table, k.columns)) {
      NarrowerIsStricter(RowsOf(tables, k.table), c.keys[k.table].columns, k.columns);
    }
  }

  /** While the catalog is guarded, whatever the writers do, composite identity holds of the rows. */
  lemma GuardedKeepsIdentity(plan: Plan, c: Catalog, tables: Tables)
    requires Guarded(plan, c) && Admits(c, tables)
    ensures IdentityHolds(plan, tables)
  {
    forall t | t in plan.indexes ensures KeyHolds(RowsOf(tables, t.table), t.columns) {
      GuardedTarget(c, tables, t);
    }
    forall k | k in plan.keys ensures KeyHolds(RowsOf(tables, k.table), k.columns) {
      GuardedKey(c, tables, k);
    }
  }

  /** The two catalogs differ at most in the index `name`. */
  ghost predicate OnlyIndex(c: Catalog, d: Catalog, name: Name) {
    && c.constraints == d.constraints && c.keys == d.keys
    && (forall n | n in c.indexes && n != name :: n in d.indexes && c.indexes[n] == d.indexes[n])
    && (forall n | n in d.indexes && n != name :: n in c.indexes)
  }

  /** A key other than the index `name` already makes the composite columns unique. */
  ghost predicate OtherwiseUnique(c: Catalog, name: Name, table: Table, columns: seq<Column>) {
    || (exists n :: n != name && n in c.indexes && Strict(c.indexes[n])
                    && c.indexes[n].table == table && Narrower(c.indexes[n].columns, columns))
    || (exists n :: (table, n) in c.constraints && Narrower(c.constraints[(table, n)], columns))
    || (table in c.keys && Narrower(c.keys[table].columns, columns))
  }

  lemma OtherwiseUniqueHolds(c: Catalog, d: Catalog, tables: Tables, name: Name, table: Table, columns: seq<Column>)
    requires OtherwiseUnique(c, name, table, columns) && OnlyIndex(c, d, name) && Admits(d, tables)
    ensures KeyHolds(RowsOf(tables, table), columns)
  {
    var rows := RowsOf(tables, table);
    if n :| n != name && n in c.indexes && Strict(c.indexes[n])
            && c.indexes[n].table == table && Narrower(c.indexes[n].columns, columns) {
      NarrowerIsStricter(rows, d.indexes[n].columns, columns);
    } else if n :| (table, n) in c.constraints && Narrower(c.constraints[(table, n)], columns) {
      assert KeyHolds(RowsOf(tables, (table, n).0), d.constraints[(table, n)]);
      NarrowerIsStricter(rows, d.constraints[(table, n)], columns);
    } else {
      NarrowerIsStricter(rows, d.keys[table].columns, columns);
    }
  }

  // ---------------------------------------------------------------- the end state

  function BuiltNames(plan: Plan): set<Name> {
    (set t | t in plan.indexes :: t.name) + (set k | k in plan.keys :: k.guardIndex)
  }

  function LegacyNames(plan: Plan): set<Name> {
    set t, n | t in plan.indexes && n in t.legacyIndexes :: n
  }

  function LegacyConstraints(plan: Plan): set<(Table, Name)> {
    set t, n | t in plan.indexes && n in t.legacyConstraints :: (t.table, n)
  }

  function KeyTables(plan: Plan): set<Table> {
    set k | k in plan.keys :: k.table
  }

  ghost predicate WellFormed(plan: Plan) {
    && (forall i, j | 0 <= i < j < |plan.indexes| :: plan.indexes[i].name != plan.indexes[j].name)
    && (forall i, j | 0 <= i < j < |plan.keys| ::
          plan.keys[i].table != plan.keys[j].table && plan.keys[i].guardIndex != plan.keys[j].guardIndex)
    && (forall t, k | t in plan.indexes && k in plan.keys :: t.name != k.guardIndex)
    && BuiltNames(plan) !! LegacyNames(plan)
    && Insights !in KeyTables(plan)
  }

  /** Composite names are not legacy names. */
  predicate NamedApart(t: IndexTarget) {
    !IsLegacy(t.name) && forall i | 0 <= i < |t.legacyIndexes| :: IsLegacy(t.legacyIndexes[i])
  }

  lemma ApartIsWellFormed(plan: Plan)
    requires forall i | 0 <= i < |plan.indexes| :: NamedApart(plan.indexes[i])
    requires forall i, j | 0 <= i < j < |plan.indexes| :: plan.indexes[i].name != plan.indexes[j].name
    requires forall i | 0 <= i < |plan.keys| :: !IsLegacy(plan.keys[i].guardIndex)
    requires forall i, j | 0 <= i < j < |plan.keys| ::
      plan.keys[i].table != plan.keys[j].table && plan.keys[i].guardIndex != plan.keys[j].guardIndex
    requires forall i, j | 0 <= i < |plan.indexes| && 0 <= j < |plan.keys| ::
      plan.indexes[i].name != plan.keys[j].guardIndex
    requires forall i | 0 <= i < |plan.keys| :: plan.keys[i].table != Insights
    ensures WellFormed(plan)
  {
    assert forall n | n in BuiltNames(plan) :: !IsLegacy(n);
    assert forall n | n in LegacyNames(plan) :: IsLegacy(n);
  }

  /** The shipped target lists name their indexes apart, so one target never disturbs another. */
  lemma ShippedIsWellFormed()
    ensures WellFormed(SHIPPED) && WellFormed(AGENTS)
  {
    ApartIsWellFormed(SHIPPED);
    ApartIsWellFormed(AGENTS);
  }

  // ---------------------------------------------------------------- the catalogs the swap starts from

  /** A database that has never run the swap: UID-only keys and no composite ones. */
  const LEGACY := Catalog(
    map[IdxPodCapabilitiesUnique := Wanted(PodCapabilities, [PodUid, CapabilityId]),
        IdxAssetSecurityStatePodUid := Wanted(AssetSecurityState, [PodUid]),
        IdxPodRiskProfilesUnique := Wanted(PodRiskProfiles, [PodUid]),
        IdxPodImageScansUniquePodUidContainerNameAll := Wanted(PodImageScans, [PodUid, ContainerName]),
        IdxInsightsUniqueResourceCveTypeAll := Wanted(Insights, [ResourceUid, CveId, InsightType])],
    map[(AttackPaths, UqAttackPathsPodPath) := [PodUid, PathId]],
    map[PodAttackSteps := PrimaryKey(PodAttackStepsPkey, [PodUid, StepId]),
        PodInstances := PrimaryKey(PodInstancesPkey, [PodUid])])

  const LEGACY_AGENTS := Catalog(
    map[IdxAgentsAgentId := Wanted(Agents, [AgentId])], map[(Agents, AgentsAgentIdKey) := [AgentId]], map[])

  predicate NothingBuilt(plan: Plan, c: Catalog) {
    forall t | t in plan.indexes :: t.name !in c.indexes
  }

  /** A legacy index and the target it guards. */
  predicate LegacyGuards(c: Catalog, t: IndexTarget, n: Name) {
    && n in t.legacyIndexes && n in c.indexes && Strict(c.indexes[n]) && c.indexes[n].table == t.table
    && t.columns == [ClusterId] + c.indexes[n].columns
  }

  lemma LegacyIndexTarget(i: nat)
    requires i < |SHIPPED.indexes| && i != 3
    ensures LegacyInForce(LEGACY, SHIPPED.indexes[i])
  {
    var t := SHIPPED.indexes[i];
    assert LegacyGuards(LEGACY, t, t.legacyIndexes[|t.legacyIndexes| - 1]);
  }

  lemma LegacyConstraintTarget()
    ensures |SHIPPED.indexes| == 6 && LegacyInForce(LEGACY, SHIPPED.indexes[3])
  {
    var t := SHIPPED.indexes[3];
    assert (t.table, t.legacyConstraints[0]) in LEGACY.constraints;
    assert t.columns == [ClusterId] + LEGACY.constraints[(t.table, t.legacyConstraints[0])];
  }

  lemma LegacyKeys()
    ensures forall i | 0 <= i < |SHIPPED.keys| ::
      && SHIPPED.keys[i].table in LEGACY.keys
      && SHIPPED.keys[i].columns == [ClusterId] + LEGACY.keys[SHIPPED.keys[i].table].columns
  {
  }

  /** A database with every UID-only key in force and no composite one is where the swap may start. */
  lemma LegacyIsGuarded()
    ensures Guarded(SHIPPED, LEGACY) && Admits(LEGACY, map[]) && NothingBuilt(SHIPPED, LEGACY)
  {
    forall i | 0 <= i < |SHIPPED.indexes|
      ensures LegacyInForce(LEGACY, SHIPPED.indexes[i]) && SHIPPED.indexes[i].name !in LEGACY.indexes
    {
      if i == 3 {
        LegacyConstraintTarget();
      } else {
        LegacyIndexTarget(i);
      }
    }
    LegacyKeys();
    GuardedByLegacy(SHIPPED, LEGACY);
  }

  /** The same for agents. */
  lemma AgentsAreGuarded()
    ensures Guarded(AGENTS, LEGACY_AGENTS) && Admits(LEGACY_AGENTS, map[]) && NothingBuilt(AGENTS, LEGACY_AGENTS)
  {
    assert LegacyGuards(LEGACY_AGENTS, AGENTS.indexes[0], IdxAgentsAgentId);
    GuardedByLegacy(AGENTS, LEGACY_AGENTS);
  }

  lemma GuardedByLegacy(plan: Plan, c: Catalog)
    requires forall i | 0 <= i < |plan.indexes| ::
      LegacyInForce(c, plan.indexes[i]) && plan.indexes[i].name !in c.indexes
    requires forall i | 0 <= i < |plan.keys| ::
      plan.keys[i].table in c.keys && plan.keys[i].columns == [ClusterId] + c.keys[plan.keys[i].table].columns
    ensures Guarded(plan, c) && Admits(c, map[]) && NothingBuilt(plan, c)
  {
  }

  /** What the run never touches. */
  function Unmanaged(plan: Plan, c: Catalog): Catalog {
    Catalog(c.indexes - (BuiltNames(plan) + LegacyNames(plan)),
            c.constraints - LegacyConstraints(plan),
            c.keys - KeyTables(plan))
  }

  /** A primary key that already has the composite columns is kept whatever its name. */
  function FinalKey(c: Catalog, k: KeyTarget): PrimaryKey {
    if Composite(c, k) then c.keys[k.table] else PrimaryKey(k.constraint, k.columns)
  }

  /** A primary key that has to be replaced carries the name the swap drops. */
  predicate Droppable(c: Catalog, k: KeyTarget) {
    k.table in c.keys ==> Composite(c, k) || c.keys[k.table].constraint == k.constraint
  }

  /** Two catalogs that a completed run takes to one end state. */
  ghost predicate SameFate(plan: Plan, a: Catalog, b: Catalog) {
    && Unmanaged(plan, a) == Unmanaged(plan, b)
    && (forall k | k in plan.keys :: FinalKey(a, k) == FinalKey(b, k))
  }

  /** The catalog a completed run leaves, given what it found. */
  ghost predicate Swapped(plan: Plan, before: Catalog, after: Catalog) {
    SameFate(plan, before, after) && IndexesBuilt(plan, after) && LegacyGone(plan, after)
    && KeysSwapped(plan, after, |plan.keys|)
  }

  ghost predicate IndexesBuilt(plan: Plan, c: Catalog) {
    forall t | t in plan.indexes :: Exact(c, t.name, Wanted(t.table, t.columns))
  }

  ghost predicate LegacyGone(plan: Plan, c: Catalog) {
    && (forall n | n in LegacyNames(plan) :: n !in c.indexes)
    && (forall p | p in LegacyConstraints(plan) :: p !in c.constraints)
  }

  /** The guards of the key targets from `i` on are in place. */
  ghost predicate GuardsFrom(plan: Plan, c: Catalog, i: nat) {
    forall j | i <= j < |plan.keys| ::
      Exact(c, plan.keys[j].guardIndex, Wanted(plan.keys[j].table, plan.keys[j].columns))
  }

  ghost predicate IndexesBefore(plan: Plan, c: Catalog, i: nat) {
    forall j | 0 <= j < i && j < |plan.indexes| ::
      Exact(c, plan.indexes[j].name, Wanted(plan.indexes[j].table, plan.indexes[j].columns))
  }

  lemma AllBuilt(plan: Plan, c: Catalog)
    requires IndexesBefore(plan, c, |plan.indexes|)
    ensures IndexesBuilt(plan, c)
  {
  }

  ghost predicate GuardsBefore(plan: Plan, c: Catalog, i: nat) {
    forall j | 0 <= j < i && j < |plan.keys| ::
      Exact(c, plan.keys[j].guardIndex, Wanted(plan.keys[j].table, plan.keys[j].columns))
  }

  lemma AllGuarded(plan: Plan, c: Catalog)
    requires GuardsBefore(plan, c, |plan.keys|)
    ensures GuardsFrom(plan, c, 0)
  {
  }

  /** The first `i` primary keys are composite and their guards removed. */
  ghost predicate KeysSwapped(plan: Plan, c: Catalog, i: nat) {
    forall j | 0 <= j < i && j < |plan.keys| ::
      Composite(c, plan.keys[j]) && plan.keys[j].guardIndex !in c.indexes
  }

  lemma MapSplit<K, V>(m: map<K, V>, n: map<K, V>, s: set<K>)
    requires m - s == n - s
    requires forall k | k in s :: k in m <==> k in n
    requires forall k | k in s && k in m :: m[k] == n[k]
    ensures m == n
  {
    forall k | k in m || k in n ensures k in m && k in n && m[k] == n[k] {
      if k !in s {
        assert k in m <==> k in m - s;
        assert k in n <==> k in n - s;
        assert k in m ==> (m - s)[k] == m[k];
        assert k in n ==> (n - s)[k] == n[k];
      }
    }
    assert m.Keys == n.Keys;
  }

  /** The end state is unique: interrupted and uninterrupted histories converge. */
  lemma SwappedIsUnique(plan: Plan, before: Catalog, a: Catalog, b: Catalog)
    requires Swapped(plan, before, a) && Swapped(plan, before, b)
    ensures a == b
  {
    MapSplit(a.indexes, b.indexes, BuiltNames(plan) + LegacyNames(plan)) by {
      forall n | n in BuiltNames(plan) + LegacyNames(plan)
        ensures n in a.indexes <==> n in b.indexes
        ensures n in a.indexes ==> a.indexes[n] == b.indexes[n]
      {
        if n !in LegacyNames(plan) {
          if t :| t in plan.indexes && t.name == n {
            assert Exact(a, t.name, Wanted(t.table, t.columns)) && Exact(b, t.name, Wanted(t.table, t.columns));
          } else {
            var j :| 0 <= j < |plan.keys| && plan.keys[j].guardIndex == n;
          }
        }
      }
    }
    MapSplit(a.constraints, b.constraints, LegacyConstraints(plan));
    MapSplit(a.keys, b.keys, KeyTables(plan)) by {
      forall table | table in KeyTables(plan)
        ensures table in a.keys && table in b.keys && a.keys[table] == b.keys[table]
      {
        var j :| 0 <= j < |plan.keys| && plan.keys[j].table == table;
        var k := plan.keys[j];
        assert a.keys[table] == FinalKey(a, k) == FinalKey(before, k) == FinalKey(b, k) == b.keys[table];
      }
    }
  }

  lemma SameFateTransitive(plan: Plan, a: Catalog, b: Catalog, c: Catalog)
    requires SameFate(plan, a, b) && SameFate(plan, b, c)
    ensures SameFate(plan, a, c)
  {
  }

  /** Replacing the index of target i, unless it was exact, leaves every target guarded. */
  lemma TargetIndexReplaced(plan: Plan, c: Catalog, d: Catalog, i: nat)
    requires WellFormed(plan) && Guarded(plan, c) && i < |plan.indexes|
    requires OnlyIndex(c, d, plan.indexes[i].name)
    requires Exact(c, plan.indexes[i].name, Wanted(plan.indexes[i].table, plan.indexes[i].columns)) ==> c == d
    ensures Guarded(plan, d) && SameFate(plan, c, d)
    ensures Exact(c, plan.indexes[i].name, Wanted(plan.indexes[i].table, plan.indexes[i].columns))
            || OtherwiseUnique(c, plan.indexes[i].name, plan.indexes[i].table, plan.indexes[i].columns)
    ensures forall j | 0 <= j < |plan.indexes| && j != i ::
      Exact(c, plan.indexes[j].name, Wanted(plan.indexes[j].table, plan.indexes[j].columns)) ==>
      Exact(d, plan.indexes[j].name, Wanted(plan.indexes[j].table, plan.indexes[j].columns))
  {
    var name := plan.indexes[i].name;
    assert plan.indexes[i] in plan.indexes;
    assert name in BuiltNames(plan);
    ManagedIndexOnly(plan, c, d, name);
    assert IndexGuarded(c, plan.indexes[i]);
    if c != d {
      forall t | t in plan.indexes ensures IndexGuarded(d, t) {
        LegacySurvives(plan, c, d, name, t);
      }
      forall k | k in plan.keys ensures KeyGuarded(d, k) {
        assert KeyGuarded(c, k) && k.guardIndex != name;
      }
      LegacyIsOtherwise(plan, c, name, plan.indexes[i]);
    }
  }

  lemma GuardReplaced(plan: Plan, c: Catalog, d: Catalog, i: nat)
    requires WellFormed(plan) && Guarded(plan, c) && i < |plan.keys|
    requires OnlyIndex(c, d, plan.keys[i].guardIndex)
    requires || (Exact(c, plan.keys[i].guardIndex, Wanted(plan.keys[i].table, plan.keys[i].columns)) ==> c == d)
             || Composite(c, plan.keys[i])
    ensures Guarded(plan, d) && SameFate(plan, c, d)
    ensures IndexesBuilt(plan, c) ==> IndexesBuilt(plan, d)
    ensures Exact(c, plan.keys[i].guardIndex, Wanted(plan.keys[i].table, plan.keys[i].columns))
            || OtherwiseUnique(c, plan.keys[i].guardIndex, plan.keys[i].table, plan.keys[i].columns)
  {
    var name := plan.keys[i].guardIndex;
    assert plan.keys[i] in plan.keys;
    assert name in BuiltNames(plan);
    ManagedIndexOnly(plan, c, d, name);
    assert KeyGuarded(c, plan.keys[i]);
    forall t | t in plan.indexes ensures IndexGuarded(d, t) {
      assert IndexGuarded(c, t) && t.name != name;
      LegacySurvives(plan, c, d, name, t);
    }
    forall j | 0 <= j < |plan.keys| ensures KeyGuarded(d, plan.keys[j]) {
      assert KeyGuarded(c, plan.keys[j]);
    }
  }

  /** Once every index is built, legacy keys may go in any order and at any pace. */
  lemma LegacyDropped(plan: Plan, c: Catalog, d: Catalog)
    requires WellFormed(plan) && Guarded(plan, c) && IndexesBuilt(plan, c) && GuardsFrom(plan, c, 0)
    requires c.keys == d.keys
    requires c.indexes - LegacyNames(plan) == d.indexes - LegacyNames(plan)
    requires c.constraints - LegacyConstraints(plan) == d.constraints - LegacyConstraints(plan)
    ensures Guarded(plan, d) && SameFate(plan, c, d) && IndexesBuilt(plan, d) && GuardsFrom(plan, d, 0)
  {
    var kept := c.indexes - LegacyNames(plan);
    assert c.indexes - (BuiltNames(plan) + LegacyNames(plan)) == kept - BuiltNames(plan);
    assert d.indexes - (BuiltNames(plan) + LegacyNames(plan)) == kept - BuiltNames(plan);
    forall n | n in BuiltNames(plan) && n in c.indexes ensures n in d.indexes && d.indexes[n] == c.indexes[n] {
      assert n in kept && kept[n] == c.indexes[n];
    }
    forall t | t in plan.indexes ensures Exact(d, t.name, Wanted(t.table, t.columns)) {
      assert t.name in BuiltNames(plan);
    }
    forall j | 0 <= j < |plan.keys|
      ensures Exact(d, plan.keys[j].guardIndex, Wanted(plan.keys[j].table, plan.keys[j].columns))
    {
      assert plan.keys[j] in plan.keys;
      assert plan.keys[j].guardIndex in BuiltNames(plan);
    }
  }

  predicate TargetGone(c: Catalog, t: IndexTarget) {
    && (forall n | n in t.legacyConstraints :: (t.table, n) !in c.constraints)
    && (forall n | n in t.legacyIndexes :: n !in c.indexes)
  }

  ghost predicate GoneBefore(plan: Plan, c: Catalog, i: nat) {
    forall j | 0 <= j < i && j < |plan.indexes| :: TargetGone(c, plan.indexes[j])
  }

  lemma GoneNext(plan: Plan, c: Catalog, d: Catalog, i: nat)
    requires i < |plan.indexes| && GoneBefore(plan, c, i) && TargetGone(d, plan.indexes[i])
    requires d.constraints.Keys <= c.constraints.Keys && d.indexes.Keys <= c.indexes.Keys
    ensures GoneBefore(plan, d, i + 1)
  {
    forall j | 0 <= j < i ensures TargetGone(d, plan.indexes[j]) {
      assert TargetGone(c, plan.indexes[j]);
    }
  }

  lemma AllGone(plan: Plan, c: Catalog)
    requires GoneBefore(plan, c, |plan.indexes|)
    ensures LegacyGone(plan, c)
  {
  }

  lemma KeyReplaced(plan: Plan, c: Catalog, d: Catalog, i: nat)
    requires WellFormed(plan) && Guarded(plan, c) && i < |plan.keys|
    requires Exact(c, plan.keys[i].guardIndex, Wanted(plan.keys[i].table, plan.keys[i].columns))
    requires c.indexes == d.indexes && c.constraints == d.constraints
    requires c.keys - {plan.keys[i].table} == d.keys - {plan.keys[i].table}
    requires FinalKey(c, plan.keys[i]) == FinalKey(d, plan.keys[i])
    ensures Guarded(plan, d) && SameFate(plan, c, d)
    ensures forall j | 0 <= j < |plan.keys| && j != i ::
      && (plan.keys[j].table in c.keys <==> plan.keys[j].table in d.keys)
      && (plan.keys[j].table in c.keys ==> c.keys[plan.keys[j].table] == d.keys[plan.keys[j].table])
  {
    var table := plan.keys[i].table;
    assert plan.keys[i] in plan.keys;
    assert c.keys - KeyTables(plan) == (c.keys - {table}) - KeyTables(plan);
    assert d.keys - KeyTables(plan) == (d.keys - {table}) - KeyTables(plan);
    forall t | t != table ensures t in c.keys <==> t in d.keys ensures t in c.keys ==> c.keys[t] == d.keys[t] {
      assert t in c.keys <==> t in c.keys - {table};
      assert t in d.keys <==> t in d.keys - {table};
      assert t in c.keys ==> (c.keys - {table})[t] == c.keys[t] && (d.keys - {table})[t] == d.keys[t];
    }
    forall j | 0 <= j < |plan.keys| ensures KeyGuarded(d, plan.keys[j]) {
      assert KeyGuarded(c, plan.keys[j]);
    }
    forall t | t in plan.indexes ensures IndexGuarded(d, t) {
      assert IndexGuarded(c, t);
    }
  }

  lemma GuardDropped(plan: Plan, c: Catalog, d: Catalog, i: nat)
    requires WellFormed(plan) && i < |plan.keys| && OnlyIndex(c, d, plan.keys[i].guardIndex)
    ensures GuardsFrom(plan, c, i) ==> GuardsFrom(plan, d, i + 1)
    ensures KeysSwapped(plan, c, i) ==> KeysSwapped(plan, d, i)
    ensures LegacyGone(plan, c) ==> LegacyGone(plan, d)
  {
    assert plan.keys[i] in plan.keys;
    assert plan.keys[i].guardIndex in BuiltNames(plan);
  }

  lemma ManagedIndexOnly(plan: Plan, c: Catalog, d: Catalog, name: Name)
    requires OnlyIndex(c, d, name) && name in BuiltNames(plan) + LegacyNames(plan)
    ensures SameFate(plan, c, d)
  {
    var managed := BuiltNames(plan) + LegacyNames(plan);
    assert c.indexes - managed == d.indexes - managed;
  }

  lemma LegacySurvives(plan: Plan, c: Catalog, d: Catalog, name: Name, t: IndexTarget)
    requires OnlyIndex(c, d, name) && name !in LegacyNames(plan) && t in plan.indexes
    ensures LegacyInForce(c, t) ==> LegacyInForce(d, t)
  {
    assert forall n | n in t.legacyIndexes :: n in LegacyNames(plan);
  }

  lemma LegacyIsOtherwise(plan: Plan, c: Catalog, name: Name, t: IndexTarget)
    requires name !in LegacyNames(plan) && t in plan.indexes && LegacyInForce(c, t)
    ensures OtherwiseUnique(c, name, t.table, t.columns)
  {
    assert forall n | n in t.legacyIndexes :: n in LegacyNames(plan);
  }

  // ---------------------------------------------------------------- running it

  /** How a statement can go wrong: not executed, or cut off halfway. */
  datatype Fault = NoFault | Refused | Interrupted

  /** Per target: does its ownership check pass, and is a key target without NULLs. */
  datatype Signature = Signature(indexes: seq<bool>, keys: seq<bool>, filled: seq<bool>)

  predicate IndexOwned(plan: Plan, tables: Tables, i: nat)
    requires i < |plan.indexes|
  {
    plan.indexes[i].allowUnowned || AllOwned(RowsOf(tables, plan.indexes[i].table))
  }

  predicate KeyOwned(plan: Plan, tables: Tables, i: nat)
    requires i < |plan.keys|
  {
    AllOwned(RowsOf(tables, plan.keys[i].table))
  }

  predicate KeyFilled(plan: Plan, tables: Tables, i: nat)
    requires i < |plan.keys|
  {
    NonNull(RowsOf(tables, plan.keys[i].table), plan.keys[i].columns)
  }

  function SignatureOf(plan: Plan, tables: Tables): Signature {
    Signature(seq(|plan.indexes|, i requires 0 <= i < |plan.indexes| => IndexOwned(plan, tables, i)),
              seq(|plan.keys|, i requires 0 <= i < |plan.keys| => KeyOwned(plan, tables, i)),
              seq(|plan.keys|, i requires 0 <= i < |plan.keys| => KeyFilled(plan, tables, i)))
  }

  predicate AllTrue(flags: seq<bool>, n: nat) {
    n == 0 || (AllTrue(flags, n - 1) && n <= |flags| && flags[n - 1])
  }

  lemma {:induction false} AllTrueMeans(flags: seq<bool>, n: nat)
    ensures AllTrue(flags, n) <==> n <= |flags| && forall i | 0 <= i < n :: flags[i]
  {
    if n > 0 {
      AllTrueMeans(flags, n - 1);
    }
  }

  lemma IndexFlag(plan: Plan, tables: Tables, i: nat)
    requires i < |plan.indexes|
    ensures SignatureOf(plan, tables).indexes[i] == IndexOwned(plan, tables, i)
    ensures Full(SignatureOf(plan, tables)) ==> IndexOwned(plan, tables, i)
  {
    AllTrueMeans(SignatureOf(plan, tables).indexes, |plan.indexes|);
  }

  lemma KeyFlags(plan: Plan, tables: Tables, i: nat)
    requires i < |plan.keys|
    ensures SignatureOf(plan, tables).keys[i] == KeyOwned(plan, tables, i)
    ensures SignatureOf(plan, tables).filled[i] == KeyFilled(plan, tables, i)
    ensures Full(SignatureOf(plan, tables)) ==> KeyOwned(plan, tables, i) && KeyFilled(plan, tables, i)
  {
    AllTrueMeans(SignatureOf(plan, tables).keys, |plan.keys|);
    AllTrueMeans(SignatureOf(plan, tables).filled, |plan.keys|);
  }

  predicate OwnedUp(sig: Signature) {
    AllTrue(sig.indexes, |sig.indexes|) && AllTrue(sig.keys, |sig.keys|)
  }

  predicate Full(sig: Signature) {
    OwnedUp(sig) && AllTrue(sig.filled, |sig.filled|)
  }

  /** Rows that every canonical writer produces and the checks demand. */
  ghost predicate Clean(plan: Plan, tables: Tables) {
    && (forall t | t in plan.indexes && !t.allowUnowned :: AllOwned(RowsOf(tables, t.table)))
    && (forall k | k in plan.keys :: AllOwned(RowsOf(tables, k.table)) && NonNull(RowsOf(tables, k.table), k.columns))
  }

  lemma CleanIffFull(plan: Plan, tables: Tables)
    ensures Clean(plan, tables) <==> Full(SignatureOf(plan, tables))
  {
    var sig := SignatureOf(plan, tables);
    AllTrueMeans(sig.indexes, |plan.indexes|);
    AllTrueMeans(sig.keys, |plan.keys|);
    AllTrueMeans(sig.filled, |plan.keys|);
    forall t | Full(sig) && t in plan.indexes ensures t.allowUnowned || AllOwned(RowsOf(tables, t.table)) {
      var i :| 0 <= i < |plan.indexes| && plan.indexes[i] == t;
      IndexFlag(plan, tables, i);
    }
    forall k | Full(sig) && k in plan.keys
      ensures AllOwned(RowsOf(tables, k.table)) && NonNull(RowsOf(tables, k.table), k.columns)
    {
      var i :| 0 <= i < |plan.keys| && plan.keys[i] == k;
      KeyFlags(plan, tables, i);
    }
    if Clean(plan, tables) {
      assert forall i | 0 <= i < |plan.indexes| :: plan.indexes[i] in plan.indexes && sig.indexes[i];
      assert forall i | 0 <= i < |plan.keys| :: plan.keys[i] in plan.keys && sig.keys[i] && sig.filled[i];
    }
  }

  /** A key in force admits no NULL, so a completed swap has seen none. */
  lemma SwappedIsFilled(plan: Plan, c: Catalog, tables: Tables)
    requires Admits(c, tables) && KeysSwapped(plan, c, |plan.keys|)
    ensures AllTrue(SignatureOf(plan, tables).filled, |plan.keys|)
  {
    forall i | 0 <= i < |plan.keys| ensures SignatureOf(plan, tables).filled[i] {
      assert Composite(c, plan.keys[i]);
      KeyFlags(plan, tables, i);
    }
    AllTrueMeans(SignatureOf(plan, tables).filled, |plan.keys|);
  }

  // Absent CVE ids become '', and what that can meet.

  function NormalizedRow(row: Row): Row {
    if Cell(row, CveId).None? then row[CveId := Some("")] else row
  }

  function NormalizedRows(rows: seq<Row>): seq<Row> {
    seq(|rows|, i requires 0 <= i < |rows| => NormalizedRow(rows[i]))
  }

  /** `UPDATE insights SET cve_id = '' WHERE cve_id IS NULL` */
  function Normalized(tables: Tables): Tables {
    map t | t in tables :: if t == Insights then NormalizedRows(tables[t]) else tables[t]
  }

  /** No CVE id in either row, at least one of them NULL, and agreement on the rest of the key. */
  predicate BlankTwins(a: Row, b: Row, columns: seq<Column>) {
    && (Cell(a, CveId).None? || Cell(b, CveId).None?)
    && Coalesce(Cell(a, CveId), "") == "" && Coalesce(Cell(b, CveId), "") == ""
    && forall c | c in columns && c != CveId :: Eq(Cell(a, c), Cell(b, c)).Holds()
  }

  predicate HasBlankTwins(rows: seq<Row>, columns: seq<Column>) {
    exists i, j :: 0 <= i < j < |rows| && BlankTwins(rows[i], rows[j], columns)
  }

  /** The column lists of the keys in force on a table. */
  function KeysOn(c: Catalog, table: Table): set<seq<Column>> {
    (set n | n in c.indexes && Strict(c.indexes[n]) && c.indexes[n].table == table :: c.indexes[n].columns)
    + (set p | p in c.constraints && p.0 == table :: c.constraints[p])
    + (if table in c.keys then {c.keys[table].columns} else {})
  }

  /** What to look for before a startup: under no key with cve_id do two insights become one. */
  predicate Normalizable(c: Catalog, rows: seq<Row>) {
    forall columns | columns in KeysOn(c, Insights) && CveId in columns :: !HasBlankTwins(rows, columns)
  }

  lemma NormalizedClash(a: Row, b: Row, columns: seq<Column>)
    requires !Clash(a, b, columns)
    ensures Clash(NormalizedRow(a), NormalizedRow(b), columns) <==> CveId in columns && BlankTwins(a, b, columns)
  {
    var a', b' := NormalizedRow(a), NormalizedRow(b);
    assert forall c | c != CveId :: Cell(a', c) == Cell(a, c) && Cell(b', c) == Cell(b, c);
    if Clash(a', b', columns) {
      var c :| c in columns && !Eq(Cell(a, c), Cell(b, c)).Holds();
      assert Eq(Cell(a', c), Cell(b', c)).Holds();
      forall d | d in columns && d != CveId ensures Eq(Cell(a, d), Cell(b, d)).Holds() {
        assert Eq(Cell(a', d), Cell(b', d)).Holds();
      }
    }
  }

  lemma NormalizedKey(rows: seq<Row>, columns: seq<Column>)
    requires KeyHolds(rows, columns)
    ensures KeyHolds(NormalizedRows(rows), columns) <==> !(CveId in columns && HasBlankTwins(rows, columns))
  {
    forall i, j | 0 <= i < j < |rows|
      ensures Clash(NormalizedRows(rows)[i], NormalizedRows(rows)[j], columns)
         <==> CveId in columns && BlankTwins(rows[i], rows[j], columns)
    {
      NormalizedClash(rows[i], rows[j], columns);
    }
  }

  /** Admission, key by key. */
  predicate KeyAdmits(c: Catalog, tables: Tables, table: Table, columns: seq<Column>) {
    columns in KeysOn(c, table) ==> KeyHolds(RowsOf(tables, table), columns)
  }

  lemma AdmitsKey(c: Catalog, tables: Tables, table: Table, columns: seq<Column>)
    requires Admits(c, tables)
    ensures KeyAdmits(c, tables, table, columns)
  {
  }

  lemma KeysAdmit(c: Catalog, tables: Tables)
    requires forall table, columns {:trigger KeyAdmits(c, tables, table, columns)} ::
      KeyAdmits(c, tables, table, columns)
    requires forall t | t in c.keys :: NonNull(RowsOf(tables, t), c.keys[t].columns)
    ensures Admits(c, tables)
  {
    forall n | n in c.indexes && Strict(c.indexes[n])
      ensures KeyHolds(RowsOf(tables, c.indexes[n].table), c.indexes[n].columns)
    {
      assert KeyAdmits(c, tables, c.indexes[n].table, c.indexes[n].columns);
    }
    forall p | p in c.constraints ensures KeyHolds(RowsOf(tables, p.0), c.constraints[p]) {
      assert KeyAdmits(c, tables, p.0, c.constraints[p]);
    }
    forall t | t in c.keys ensures KeyHolds(RowsOf(tables, t), c.keys[t].columns) {
      assert KeyAdmits(c, tables, t, c.keys[t].columns);
    }
  }

  lemma NormalizedRowsOf(tables: Tables, table: Table)
    ensures RowsOf(Normalized(tables), table) ==
      if table == Insights then NormalizedRows(RowsOf(tables, table)) else RowsOf(tables, table)
  {
    assert NormalizedRows([]) == [];
  }

  lemma NormalizedKeyAdmits(c: Catalog, tables: Tables, table: Table, columns: seq<Column>)
    requires Admits(c, tables)
    ensures KeyAdmits(c, Normalized(tables), table, columns) <==>
      !(table == Insights && columns in KeysOn(c, table) && CveId in columns
        && HasBlankTwins(RowsOf(tables, table), columns))
  {
    AdmitsKey(c, tables, table, columns);
    NormalizedRowsOf(tables, table);
    if columns in KeysOn(c, table) {
      NormalizedKey(RowsOf(tables, table), columns);
    }
  }

  lemma NormalizedNonNull(c: Catalog, tables: Tables, t: Table)
    requires Admits(c, tables) && t in c.keys
    ensures NonNull(RowsOf(Normalized(tables), t), c.keys[t].columns)
  {
    NormalizedRowsOf(tables, t);
  }

  /** The UPDATE is admitted exactly when no two insights become one under a key in force. */
  lemma NormalizesIff(c: Catalog, tables: Tables)
    requires Admits(c, tables)
    ensures Admits(c, Normalized(tables)) <==> Normalizable(c, RowsOf(tables, Insights))
  {
    if Normalizable(c, RowsOf(tables, Insights)) {
      forall table, columns ensures KeyAdmits(c, Normalized(tables), table, columns) {
        NormalizedKeyAdmits(c, tables, table, columns);
      }
      forall t | t in c.keys ensures NonNull(RowsOf(Normalized(tables), t), c.keys[t].columns) {
        NormalizedNonNull(c, tables, t);
      }
      KeysAdmit(c, Normalized(tables));
    } else {
      var columns :|
        columns in KeysOn(c, Insights) && CveId in columns && HasBlankTwins(RowsOf(tables, Insights), columns);
      NormalizedKeyAdmits(c, tables, Insights, columns);
      if Admits(c, Normalized(tables)) {
        AdmitsKey(c, Normalized(tables), Insights, columns);
      }
    }
  }

  /**
   Legacy insights without a CVE id: the UID-only key admits any number of equal ones, NULLs being
   distinct, or one beside a canonical '' row, and then every startup stops at the UPDATE.
   */
  lemma NullCveStopsStartup(row: Row)
    requires Cell(row, CveId).None? && Cell(row, ResourceUid).Some? && Cell(row, InsightType).Some?
    requires Present(Cell(row, ClusterId))
    ensures forall twin | twin == row || twin == row[CveId := Some("")] ::
      var tables: Tables := map[Insights := [row, twin]];
      Admits(LEGACY, tables) && Clean(SHIPPED, tables) && !Normalizable(LEGACY, RowsOf(tables, Insights))
  {
    forall twin | twin == row || twin == row[CveId := Some("")]
      ensures var tables: Tables := map[Insights := [row, twin]];
        Admits(LEGACY, tables) && Clean(SHIPPED, tables) && !Normalizable(LEGACY, RowsOf(tables, Insights))
    {
      NullCveTwin(row, twin);
    }
  }

  lemma LegacyInsightKeys()
    ensures KeysOn(LEGACY, Insights) == {[ResourceUid, CveId, InsightType]}
  {
    assert LEGACY.indexes[IdxInsightsUniqueResourceCveTypeAll].columns == [ResourceUid, CveId, InsightType];
    assert IdxInsightsUniqueResourceCveTypeAll in LEGACY.indexes;
  }

  lemma OnlyInsightsAdmitted(rows: seq<Row>)
    requires KeyHolds(rows, [ResourceUid, CveId, InsightType])
    ensures Admits(LEGACY, map[Insights := rows]) && Clean(SHIPPED, map[Insights := rows])
  {
    var tables: Tables := map[Insights := rows];
    LegacyInsightKeys();
    forall table, columns ensures KeyAdmits(LEGACY, tables, table, columns) {
      assert table != Insights ==> RowsOf(tables, table) == [];
    }
    KeysAdmit(LEGACY, tables);
  }

  lemma TwinIsBlank(row: Row, twin: Row)
    requires Cell(row, CveId).None? && Cell(row, ResourceUid).Some? && Cell(row, InsightType).Some?
    requires twin == row || twin == row[CveId := Some("")]
    ensures !Clash(row, twin, [ResourceUid, CveId, InsightType])
    ensures BlankTwins(row, twin, [ResourceUid, CveId, InsightType])
  {
    var columns := [ResourceUid, CveId, InsightType];
    assert columns[1] == CveId;
    forall c | c in columns && c != CveId ensures Eq(Cell(row, c), Cell(twin, c)).Holds() {
      assert c == ResourceUid || c == InsightType;
    }
  }

  lemma NullCveTwin(row: Row, twin: Row)
    requires Cell(row, CveId).None? && Cell(row, ResourceUid).Some? && Cell(row, InsightType).Some?
    requires twin == row || twin == row[CveId := Some("")]
    ensures var tables: Tables := map[Insights := [row, twin]];
      Admits(LEGACY, tables) && Clean(SHIPPED, tables) && !Normalizable(LEGACY, RowsOf(tables, Insights))
  {
    var rows, columns := [row, twin], [ResourceUid, CveId, InsightType];
    TwinIsBlank(row, twin);
    OnlyInsightsAdmitted(rows);
    LegacyInsightKeys();
    assert columns[1] == CveId && columns in KeysOn(LEGACY, Insights);
    assert BlankTwins(rows[0], rows[1], columns);
    assert HasBlankTwins(rows, columns);
  }

  /** The UPDATE assigns no owner, and no key target is on insights. */
  lemma NormalizedSignature(plan: Plan, tables: Tables)
    requires WellFormed(plan)
    ensures SignatureOf(plan, Normalized(tables)) == SignatureOf(plan, tables)
  {
    forall i | 0 <= i < |plan.indexes| ensures IndexOwned(plan, Normalized(tables), i) == IndexOwned(plan, tables, i) {
      NormalizedOwners(tables, plan.indexes[i].table);
    }
    forall i | 0 <= i < |plan.keys|
      ensures RowsOf(Normalized(tables), plan.keys[i].table) == RowsOf(tables, plan.keys[i].table)
    {
      NormalizedRowsOf(tables, plan.keys[i].table);
      assert plan.keys[i].table in KeyTables(plan);
    }
  }

  lemma NormalizedOwners(tables: Tables, t: Table)
    ensures AllOwned(RowsOf(Normalized(tables), t)) <==> AllOwned(RowsOf(tables, t))
  {
    NormalizedRowsOf(tables, t);
    forall i | 0 <= i < |RowsOf(tables, t)|
      ensures Cell(RowsOf(Normalized(tables), t)[i], ClusterId) == Cell(RowsOf(tables, t)[i], ClusterId)
    {
    }
  }

  /** The primary keys from position `i` on can be dropped by name. */
  ghost predicate NamedFrom(plan: Plan, c: Catalog, i: nat)
    decreases |plan.keys| - i
  {
    i < |plan.keys| ==> Droppable(c, plan.keys[i]) && NamedFrom(plan, c, i + 1)
  }

  lemma {:induction false} NamedSame(plan: Plan, c: Catalog, d: Catalog, i: nat)
    requires forall j | i <= j < |plan.keys| :: Droppable(c, plan.keys[j]) == Droppable(d, plan.keys[j])
    ensures NamedFrom(plan, c, i) <==> NamedFrom(plan, d, i)
    decreases |plan.keys| - i
  {
    if i < |plan.keys| {
      NamedSame(plan, c, d, i + 1);
    }
  }

  /** Replacing one primary key leaves the others as droppable as they were. */
  lemma NamesElsewhere(plan: Plan, c: Catalog, d: Catalog, i: nat)
    requires WellFormed(plan) && i < |plan.keys| && c.keys - {plan.keys[i].table} == d.keys - {plan.keys[i].table}
    ensures NamedFrom(plan, c, i + 1) <==> NamedFrom(plan, d, i + 1)
  {
    forall j | i + 1 <= j < |plan.keys| ensures Droppable(c, plan.keys[j]) == Droppable(d, plan.keys[j]) {
      var t, u := plan.keys[i].table, plan.keys[j].table;
      assert t != u;
      assert u in c.keys <==> u in c.keys - {t};
      assert u in d.keys <==> u in d.keys - {t};
      assert u in c.keys ==> c.keys[u] == (c.keys - {t})[u] == (d.keys - {t})[u];
    }
    NamedSame(plan, c, d, i + 1);
  }

  class Database {
    const plan: Plan
    const schema: map<Table, set<Column>>
    const fault: nat -> Fault
    const writes: nat -> Tables
    var clock: nat
    var catalog: Catalog
    var tables: Tables

    constructor (plan: Plan, schema: map<Table, set<Column>>, catalog: Catalog, tables: Tables,
                 fault: nat -> Fault, writes: nat -> Tables)
      ensures this.plan == plan && this.schema == schema && this.fault == fault && this.writes == writes
      ensures this.catalog == catalog && this.tables == tables && clock == 0
    {
      this.plan, this.schema, this.fault, this.writes := plan, schema, fault, writes;
      this.catalog, this.tables, this.clock := catalog, tables, 0;
    }

    /** What other sessions' writes say about ownership and NULLs, when they agree. */
    function Base(): Signature {
      SignatureOf(plan, writes(0))
    }

    /** No statement fails, and what other sessions write changes nothing about ownership or NULLs. */
    ghost predicate Calm() {
      (forall k: nat :: fault(k) == NoFault) && forall k: nat :: SignatureOf(plan, writes(k)) == Base()
    }

    ghost predicate Quiet()
      reads this
    {
      Calm() && SignatureOf(plan, tables) == Base()
    }

    ghost predicate Undisturbed()
      reads this
    {
      Quiet() && Full(Base())
    }

    ghost predicate SchemaComplete() {
      AllIndexTargets(|plan.indexes|) && AllKeyTargets(|plan.keys|)
    }

    predicate IndexTargetAt(i: nat) {
      i < |plan.indexes| && HasKeyTarget(plan.indexes[i].table, plan.indexes[i].columns)
    }

    predicate KeyTargetAt(i: nat) {
      i < |plan.keys| && HasKeyTarget(plan.keys[i].table, plan.keys[i].columns)
    }

    predicate AllIndexTargets(n: nat) {
      n == 0 || (AllIndexTargets(n - 1) && IndexTargetAt(n - 1))
    }

    predicate AllKeyTargets(n: nat) {
      n == 0 || (AllKeyTargets(n - 1) && KeyTargetAt(n - 1))
    }

    lemma {:induction false} SomeIndexTarget(n: nat, i: nat)
      requires AllIndexTargets(n) && i < n
      ensures IndexTargetAt(i)
    {
      if i < n - 1 {
        SomeIndexTarget(n - 1, i);
      }
    }

    lemma {:induction false} SomeKeyTarget(n: nat, i: nat)
      requires AllKeyTargets(n) && i < n
      ensures KeyTargetAt(i)
    {
      if i < n - 1 {
        SomeKeyTarget(n - 1, i);
      }
    }

    predicate HasKeyTarget(table: Table, columns: seq<Column>) {
      table in schema && forall c | c in columns :: c in schema[table]
    }

    ghost predicate KeysNamed()
      reads this
    {
      NamedFrom(plan, catalog, 0)
    }

    /** The rows the next statement sees: what other sessions wrote, if the keys in force admit it. */
    ghost function Seen(): Tables
      reads this
    {
      if Admits(catalog, writes(clock)) then writes(clock) else tables
    }

    /** Other sessions write; then the statement's fate is decided. */
    method Turn() returns (f: Fault)
      requires Admits(catalog, tables)
      modifies `clock, `tables
      ensures Admits(catalog, tables)
      ensures tables == old(Seen())
      ensures f == fault(old(clock)) && clock == old(clock) + 1
    {
      if Admits(catalog, writes(clock)) {
        tables := writes(clock);
      }
      f := fault(clock);
      clock := clock + 1;
    }

    method DropIndexConcurrently(name: Name) returns (ok: bool)
      requires Admits(catalog, tables)
      modifies `clock, `tables, `catalog
      ensures Admits(catalog, tables)
      ensures OnlyIndex(old(catalog), catalog, name)
      ensures catalog.indexes.Keys <= old(catalog.indexes.Keys)
      ensures ok ==> name !in catalog.indexes
      ensures name in catalog.indexes ==>
        catalog.indexes[name] == old(catalog.indexes[name])
                                 .(valid := old(catalog.indexes[name].valid) && fault(old(clock)) != Interrupted)
      ensures old(Quiet()) ==> Quiet() && ok
    {
      var f := Turn();
      ok := f == NoFault;
      if ok {
        catalog := catalog.(indexes := catalog.indexes - {name});
      } else if f == Interrupted && name in catalog.indexes {
        // the first phase of a concurrent drop marks the index invalid
        catalog := catalog.(indexes := catalog.indexes[name := catalog.indexes[name].(valid := false)]);
      }
    }

    method CreateIndexConcurrently(name: Name, want: IndexDef) returns (ok: bool)
      requires Admits(catalog, tables) && name !in catalog.indexes && want.valid
      modifies `clock, `tables, `catalog
      ensures Admits(catalog, tables)
      ensures OnlyIndex(old(catalog), catalog, name)
      ensures ok ==> Exact(catalog, name, want)
      ensures old(Quiet()) ==> Quiet()
      ensures ok <==>
        fault(old(clock)) == NoFault && (want.unique ==> KeyHolds(RowsOf(tables, want.table), want.columns))
      ensures !ok ==>
        if fault(old(clock)) == Refused then name !in catalog.indexes else Exact(catalog, name, want.(valid := false))
    {
      var f := Turn();
      ok := f == NoFault && (want.unique ==> KeyHolds(RowsOf(tables, want.table), want.columns));
      AdmitsIndex(catalog, tables, name, if ok then want else want.(valid := false));
      if ok {
        catalog := catalog.(indexes := catalog.indexes[name := want]);
      } else if f != Refused {
        // a build that is cut off, or that meets a duplicate, leaves an invalid index behind
        catalog := catalog.(indexes := catalog.indexes[name := want.(valid := false)]);
      }
    }

    /** Keeps an exact index, replaces anything else of that name, touches nothing else. */
    method EnsureIndex(name: Name, want: IndexDef) returns (ok: bool)
      requires Admits(catalog, tables) && want.valid && want.plain
      modifies `clock, `tables, `catalog
      ensures Admits(catalog, tables)
      ensures OnlyIndex(old(catalog), catalog, name)
      ensures old(Exact(catalog, name, want)) ==> catalog == old(catalog)
      ensures ok ==> Exact(catalog, name, want)
      ensures old(Quiet()) ==> Quiet()
      ensures old(Quiet()) && old(Exact(catalog, name, want)) ==> ok
      ensures old(Quiet()) && old(OtherwiseUnique(catalog, name, want.table, want.columns)) ==> ok
    {
      var f := Turn();
      if f != NoFault { return false; }
      ok := RebuildIndex(name, want);
      if !ok { return; }
      f := Turn();
      ok := f == NoFault && name in catalog.indexes && catalog.indexes[name] == want;
    }

    /** Drops an index that is not the wanted one, and builds what is missing. */
    method RebuildIndex(name: Name, want: IndexDef) returns (ok: bool)
      requires Admits(catalog, tables) && want.valid && want.plain
      modifies `clock, `tables, `catalog
      ensures Admits(catalog, tables)
      ensures OnlyIndex(old(catalog), catalog, name)
      ensures old(Exact(catalog, name, want)) ==> catalog == old(catalog) && ok
      ensures ok ==> Exact(catalog, name, want)
      ensures old(Quiet()) ==> Quiet()
      ensures old(Quiet()) && old(OtherwiseUnique(catalog, name, want.table, want.columns)) ==> ok
    {
      if name in catalog.indexes && catalog.indexes[name] != want {
        ok := DropIndexConcurrently(name);
        if !ok { return; }
      }
      ok := true;
      if name !in catalog.indexes {
        ok := CreateIndexConcurrently(name, want);
        if old(OtherwiseUnique(catalog, name, want.table, want.columns)) {
          OtherwiseUniqueHolds(old(catalog), catalog, tables, name, want.table, want.columns);
        }
      }
    }

    // The run: what each phase keeps, and what it achieves when it completes.

    ghost predicate Safe()
      reads this
    {
      WellFormed(plan) && Guarded(plan, catalog) && Admits(catalog, tables)
    }

    /** An index that the plan builds may be replaced while its target is otherwise guarded. */
    method BuildIndex(i: nat, ghost base: Catalog) returns (ok: bool)
      requires Safe() && i < |plan.indexes| && IndexesBefore(plan, catalog, i)
      requires SameFate(plan, base, catalog) && catalog.keys == base.keys && AllIndexTargets(i)
      modifies `clock, `tables, `catalog
      ensures Safe() && SameFate(plan, base, catalog) && catalog.keys == base.keys
      ensures ok ==> IndexesBefore(plan, catalog, i + 1) && AllIndexTargets(i + 1)
      ensures old(Quiet()) ==> Quiet()
      ensures old(Quiet()) && ok && AllTrue(Base().indexes, i) ==> AllTrue(Base().indexes, i + 1)
      ensures old(Undisturbed()) && SchemaComplete() ==> ok
    {
      var t := plan.indexes[i];
      if AllIndexTargets(|plan.indexes|) { SomeIndexTarget(|plan.indexes|, i); }
      if !IndexTargetAt(i) { return false; }
      if !t.allowUnowned {
        ok := RejectUnowned(t.table);
        IndexFlag(plan, tables, i);
        if !ok { return; }
      }
      IndexFlag(plan, tables, i);
      ok := EnsureIndex(t.name, Wanted(t.table, t.columns));
      TargetIndexReplaced(plan, old(catalog), catalog, i);
      SameFateTransitive(plan, base, old(catalog), catalog);
    }

    method BuildIndexes() returns (ok: bool)
      requires Safe()
      modifies `clock, `tables, `catalog
      ensures Safe() && SameFate(plan, old(catalog), catalog) && catalog.keys == old(catalog.keys)
      ensures ok ==> IndexesBuilt(plan, catalog) && AllIndexTargets(|plan.indexes|)
      ensures old(Quiet()) ==> Quiet()
      ensures old(Quiet()) && ok ==> AllTrue(Base().indexes, |plan.indexes|)
      ensures old(Undisturbed()) && SchemaComplete() ==> ok
    {
      ok := IndexEach(catalog);
      if ok { AllBuilt(plan, catalog); }
    }

    /** What holds of the catalog while indexes are being built, `base` being the one the phase began with. */
    ghost predicate Indexing(base: Catalog, i: nat)
      reads this
    {
      && Safe() && SameFate(plan, base, catalog) && catalog.keys == base.keys
      && IndexesBefore(plan, catalog, i) && AllIndexTargets(i)
    }

    method IndexEach(ghost base: Catalog) returns (ok: bool)
      requires Indexing(base, 0)
      modifies `clock, `tables, `catalog
      ensures Indexing(base, 0)
      ensures ok ==> Indexing(base, |plan.indexes|)
      ensures old(Quiet()) ==> Quiet()
      ensures old(Quiet()) && ok ==> AllTrue(Base().indexes, |plan.indexes|)
      ensures old(Undisturbed()) && SchemaComplete() ==> ok
    {
      var i := 0;
      while i < |plan.indexes|
        invariant 0 <= i <= |plan.indexes| && Indexing(base, i)
        invariant old(Quiet()) ==> Quiet() && AllTrue(Base().indexes, i)
      {
        ok := BuildIndex(i, base);
        if !ok { return; }
        i := i + 1;
      }
      ok := true;
    }

    method RejectUnowned(table: Table) returns (ok: bool)
      requires Admits(catalog, tables)
      modifies `clock, `tables
      ensures Admits(catalog, tables)
      ensures old(Quiet()) ==> Quiet()
      ensures ok <==> fault(old(clock)) == NoFault && AllOwned(RowsOf(tables, table))
    {
      var f := Turn();
      ok := f == NoFault && AllOwned(RowsOf(tables, table));
    }

    method BuildGuard(i: nat, ghost base: Catalog) returns (ok: bool)
      requires Safe() && i < |plan.keys| && IndexesBuilt(plan, catalog) && GuardsBefore(plan, catalog, i)
      requires SameFate(plan, base, catalog) && catalog.keys == base.keys && AllKeyTargets(i)
      modifies `clock, `tables, `catalog
      ensures Safe() && SameFate(plan, base, catalog) && catalog.keys == base.keys
      ensures IndexesBuilt(plan, catalog)
      ensures ok ==> GuardsBefore(plan, catalog, i + 1) && AllKeyTargets(i + 1)
      ensures old(Quiet()) ==> Quiet()
      ensures old(Quiet()) && ok && AllTrue(Base().keys, i) ==> AllTrue(Base().keys, i + 1)
      ensures old(Undisturbed()) && SchemaComplete() ==> ok
    {
      if AllKeyTargets(|plan.keys|) { SomeKeyTarget(|plan.keys|, i); }
      if !KeyTargetAt(i) { return false; }
      ok := RejectUnowned(plan.keys[i].table);
      KeyFlags(plan, tables, i);
      if !ok { return; }
      ok := EnsureGuard(i);
      SameFateTransitive(plan, base, old(catalog), catalog);
    }

    method EnsureGuard(i: nat) returns (ok: bool)
      requires Safe() && i < |plan.keys| && IndexesBuilt(plan, catalog) && GuardsBefore(plan, catalog, i)
      modifies `clock, `tables, `catalog
      ensures Safe() && SameFate(plan, old(catalog), catalog) && catalog.keys == old(catalog.keys)
      ensures IndexesBuilt(plan, catalog)
      ensures ok ==> GuardsBefore(plan, catalog, i + 1)
      ensures old(Quiet()) ==> Quiet() && ok
    {
      var k := plan.keys[i];
      ok := EnsureIndex(k.guardIndex, Wanted(k.table, k.columns));
      GuardReplaced(plan, old(catalog), catalog, i);
    }

    method BuildGuards() returns (ok: bool)
      requires Safe() && IndexesBuilt(plan, catalog)
      modifies `clock, `tables, `catalog
      ensures Safe() && SameFate(plan, old(catalog), catalog) && catalog.keys == old(catalog.keys)
      ensures IndexesBuilt(plan, catalog)
      ensures ok ==> GuardsFrom(plan, catalog, 0) && AllKeyTargets(|plan.keys|)
      ensures old(Quiet()) ==> Quiet()
      ensures old(Quiet()) && ok ==> AllTrue(Base().keys, |plan.keys|)
      ensures old(Undisturbed()) && SchemaComplete() ==> ok
    {
      ok := GuardEach(catalog);
      if ok { AllGuarded(plan, catalog); }
    }

    /** What holds of the catalog while guards are being built, `base` being the one the phase began with. */
    ghost predicate Guarding(base: Catalog, i: nat)
      reads this
    {
      && Safe() && IndexesBuilt(plan, catalog) && SameFate(plan, base, catalog) && catalog.keys == base.keys
      && GuardsBefore(plan, catalog, i) && AllKeyTargets(i)
    }

    method GuardEach(ghost base: Catalog) returns (ok: bool)
      requires Guarding(base, 0)
      modifies `clock, `tables, `catalog
      ensures Guarding(base, 0)
      ensures ok ==> Guarding(base, |plan.keys|)
      ensures old(Quiet()) ==> Quiet()
      ensures old(Quiet()) && ok ==> AllTrue(Base().keys, |plan.keys|)
      ensures old(Undisturbed()) && SchemaComplete() ==> ok
    {
      var i := 0;
      while i < |plan.keys|
        invariant 0 <= i <= |plan.keys| && Guarding(base, i)
        invariant old(Quiet()) ==> Quiet() && AllTrue(Base().keys, i)
      {
        ok := BuildGuard(i, base);
        if !ok { return; }
        i := i + 1;
      }
      ok := true;
    }

    /** Every replacement key is in place, so legacy keys are no longer needed. */
    ghost predicate Replaced()
      reads this
    {
      Safe() && IndexesBuilt(plan, catalog) && GuardsFrom(plan, catalog, 0)
    }

    method DropLegacyConstraint(t: IndexTarget, name: Name) returns (ok: bool)
      requires Replaced() && t in plan.indexes && name in t.legacyConstraints
      modifies `clock, `tables, `catalog
      ensures Replaced() && SameFate(plan, old(catalog), catalog) && catalog.keys == old(catalog.keys)
      ensures catalog.indexes == old(catalog.indexes)
      ensures catalog.constraints.Keys <= old(catalog.constraints.Keys)
      ensures ok ==> (t.table, name) !in catalog.constraints
      ensures old(Quiet()) ==> Quiet() && ok
    {
      var f := Turn();
      ok := f == NoFault;
      if ok {
        assert (t.table, name) in LegacyConstraints(plan);
        catalog := catalog.(constraints := catalog.constraints - {(t.table, name)});
        assert old(catalog).constraints - LegacyConstraints(plan) == catalog.constraints - LegacyConstraints(plan);
        LegacyDropped(plan, old(catalog), catalog);
      }
    }

    method DropLegacyIndex(t: IndexTarget, name: Name) returns (ok: bool)
      requires Replaced() && t in plan.indexes && name in t.legacyIndexes
      modifies `clock, `tables, `catalog
      ensures Replaced() && SameFate(plan, old(catalog), catalog) && catalog.keys == old(catalog.keys)
      ensures catalog.constraints == old(catalog.constraints)
      ensures catalog.indexes.Keys <= old(catalog.indexes.Keys)
      ensures ok ==> name !in catalog.indexes
      ensures old(Quiet()) ==> Quiet() && ok
    {
      assert name in LegacyNames(plan);
      ok := DropIndexConcurrently(name);
      assert old(catalog).indexes - LegacyNames(plan) == catalog.indexes - LegacyNames(plan);
      LegacyDropped(plan, old(catalog), catalog);
    }

    method DropLegacyConstraints(t: IndexTarget) returns (ok: bool)
      requires Replaced() && t in plan.indexes
      modifies `clock, `tables, `catalog
      ensures Replaced() && SameFate(plan, old(catalog), catalog) && catalog.keys == old(catalog.keys)
      ensures catalog.constraints.Keys <= old(catalog.constraints.Keys) && catalog.indexes == old(catalog.indexes)
      ensures ok ==> forall n | n in t.legacyConstraints :: (t.table, n) !in catalog.constraints
      ensures old(Quiet()) ==> Quiet() && ok
    {
      for c := 0 to |t.legacyConstraints|
        invariant Replaced() && SameFate(plan, old(catalog), catalog) && catalog.keys == old(catalog.keys)
        invariant catalog.constraints.Keys <= old(catalog.constraints.Keys) && catalog.indexes == old(catalog.indexes)
        invariant forall n | n in t.legacyConstraints[..c] :: (t.table, n) !in catalog.constraints
        invariant old(Quiet()) ==> Quiet()
      {
        ghost var before := catalog;
        ok := DropLegacyConstraint(t, t.legacyConstraints[c]);
        SameFateTransitive(plan, old(catalog), before, catalog);
        if !ok { return; }
        assert t.legacyConstraints[..c + 1] == t.legacyConstraints[..c] + [t.legacyConstraints[c]];
      }
      ok := true;
    }

    method DropLegacyIndexes(t: IndexTarget) returns (ok: bool)
      requires Replaced() && t in plan.indexes
      modifies `clock, `tables, `catalog
      ensures Replaced() && SameFate(plan, old(catalog), catalog) && catalog.keys == old(catalog.keys)
      ensures catalog.indexes.Keys <= old(catalog.indexes.Keys) && catalog.constraints == old(catalog.constraints)
      ensures ok ==> forall n | n in t.legacyIndexes :: n !in catalog.indexes
      ensures old(Quiet()) ==> Quiet() && ok
    {
      for x := 0 to |t.legacyIndexes|
        invariant Replaced() && SameFate(plan, old(catalog), catalog) && catalog.keys == old(catalog.keys)
        invariant catalog.indexes.Keys <= old(catalog.indexes.Keys) && catalog.constraints == old(catalog.constraints)
        invariant forall n | n in t.legacyIndexes[..x] :: n !in catalog.indexes
        invariant old(Quiet()) ==> Quiet()
      {
        ghost var before := catalog;
        ok := DropLegacyIndex(t, t.legacyIndexes[x]);
        SameFateTransitive(plan, old(catalog), before, catalog);
        if !ok { return; }
        assert t.legacyIndexes[..x + 1] == t.legacyIndexes[..x] + [t.legacyIndexes[x]];
      }
      ok := true;
    }

    method DropLegacy() returns (ok: bool)
      requires Replaced()
      modifies `clock, `tables, `catalog
      ensures Replaced() && SameFate(plan, old(catalog), catalog) && catalog.keys == old(catalog.keys)
      ensures ok ==> LegacyGone(plan, catalog)
      ensures old(Quiet()) ==> Quiet() && ok
    {
      var i := 0;
      while i < |plan.indexes|
        invariant 0 <= i <= |plan.indexes|
        invariant Replaced() && SameFate(plan, old(catalog), catalog) && catalog.keys == old(catalog.keys)
        invariant GoneBefore(plan, catalog, i)
        invariant old(Quiet()) ==> Quiet()
      {
        ghost var before := catalog;
        ok := DropLegacyOf(plan.indexes[i]);
        SameFateTransitive(plan, old(catalog), before, catalog);
        if !ok { return; }
        GoneNext(plan, before, catalog, i);
        i := i + 1;
      }
      AllGone(plan, catalog);
      ok := true;
    }

    /** One target's legacy keys; those already gone stay gone. */
    method DropLegacyOf(t: IndexTarget) returns (ok: bool)
      requires Replaced() && t in plan.indexes
      modifies `clock, `tables, `catalog
      ensures Replaced() && SameFate(plan, old(catalog), catalog) && catalog.keys == old(catalog.keys)
      ensures catalog.constraints.Keys <= old(catalog.constraints.Keys)
      ensures catalog.indexes.Keys <= old(catalog.indexes.Keys)
      ensures ok ==> TargetGone(catalog, t)
      ensures old(Quiet()) ==> Quiet() && ok
    {
      ok := DropLegacyConstraints(t);
      if !ok { return; }
      ghost var before := catalog;
      ok := DropLegacyIndexes(t);
      SameFateTransitive(plan, old(catalog), before, catalog);
    }

    /** ALTER TABLE ... DROP CONSTRAINT on a primary key, without IF EXISTS. */
    method DropPrimaryKey(table: Table, constraint: Name) returns (ok: bool)
      requires Admits(catalog, tables)
      modifies `clock, `tables, `catalog
      ensures Admits(catalog, tables)
      ensures ok <==> fault(old(clock)) == NoFault && table in old(catalog).keys
                      && old(catalog).keys[table].constraint == constraint
      ensures catalog == if ok then old(catalog).(keys := old(catalog).keys - {table}) else old(catalog)
      ensures old(Quiet()) ==> Quiet()
    {
      var f := Turn();
      ok := f == NoFault && table in catalog.keys && catalog.keys[table].constraint == constraint;
      if ok {
        catalog := catalog.(keys := catalog.keys - {table});
      }
    }

    /** ALTER TABLE ... ADD PRIMARY KEY: refused on a duplicate or a NULL. */
    method AddPrimaryKey(k: KeyTarget) returns (ok: bool)
      requires Admits(catalog, tables) && k.table !in catalog.keys
      modifies `clock, `tables, `catalog
      ensures Admits(catalog, tables)
      ensures ok <==> fault(old(clock)) == NoFault && KeyHolds(RowsOf(tables, k.table), k.columns)
                      && NonNull(RowsOf(tables, k.table), k.columns)
      ensures catalog == if ok then old(catalog).(keys := old(catalog).keys[k.table :=
        PrimaryKey(k.constraint, k.columns)])
                         else old(catalog)
      ensures old(Quiet()) ==> Quiet()
      ensures Exact(old(catalog), k.guardIndex, Wanted(k.table, k.columns)) ==>
        KeyHolds(RowsOf(tables, k.table), k.columns)
    {
      var f := Turn();
      ok := f == NoFault && KeyHolds(RowsOf(tables, k.table), k.columns) && NonNull(RowsOf(tables, k.table), k.columns);
      if ok {
        catalog := catalog.(keys := catalog.keys[k.table := PrimaryKey(k.constraint, k.columns)]);
      }
    }

    /** Replaces a primary key that is not composite; the guard covers the gap between the two statements. */
    method EnsureCompositePrimaryKey(k: KeyTarget) returns (ok: bool)
      requires Admits(catalog, tables) && Exact(catalog, k.guardIndex, Wanted(k.table, k.columns))
      requires k in plan.keys
      modifies `clock, `tables, `catalog
      ensures Admits(catalog, tables)
      ensures catalog.indexes == old(catalog.indexes) && catalog.constraints == old(catalog.constraints)
      ensures catalog.keys - {k.table} == old(catalog.keys) - {k.table}
      ensures FinalKey(catalog, k) == old(FinalKey(catalog, k))
      ensures ok ==> Composite(catalog, k) && old(Droppable(catalog, k))
      ensures old(Quiet()) ==> Quiet()
      ensures old(Undisturbed()) && old(Droppable(catalog, k)) ==> ok
    {
      var f := Turn();
      if f != NoFault { return false; }
      if Composite(catalog, k) { return true; }
      ok := RebuildPrimaryKey(k);
    }

    /** Drop, add, and inspect the result. */
    method RebuildPrimaryKey(k: KeyTarget) returns (ok: bool)
      requires Admits(catalog, tables) && Exact(catalog, k.guardIndex, Wanted(k.table, k.columns))
      requires k in plan.keys && !Composite(catalog, k)
      modifies `clock, `tables, `catalog
      ensures Admits(catalog, tables)
      ensures catalog.indexes == old(catalog.indexes) && catalog.constraints == old(catalog.constraints)
      ensures catalog.keys - {k.table} == old(catalog.keys) - {k.table}
      ensures FinalKey(catalog, k) == old(FinalKey(catalog, k))
      ensures ok ==> Composite(catalog, k) && old(Droppable(catalog, k))
      ensures old(Quiet()) ==> Quiet()
      ensures old(Undisturbed()) && old(Droppable(catalog, k)) ==> ok
    {
      ok := DropStalePrimaryKey(k);
      if !ok { return; }
      ok := AddPrimaryKey(k);
      if old(Undisturbed()) {
        var i: nat :| i < |plan.keys| && plan.keys[i] == k;
        KeyFlags(plan, tables, i);
      }
      if !ok { return; }
      var f := Turn();
      ok := f == NoFault && Composite(catalog, k);
    }

    method DropStalePrimaryKey(k: KeyTarget) returns (ok: bool)
      requires Admits(catalog, tables) && !Composite(catalog, k)
      modifies `clock, `tables, `catalog
      ensures Admits(catalog, tables)
      ensures catalog == if ok then old(catalog).(keys := old(catalog).keys - {k.table}) else old(catalog)
      ensures ok ==> old(Droppable(catalog, k))
      ensures old(Quiet()) ==> Quiet()
      ensures old(Undisturbed()) && old(Droppable(catalog, k)) ==> ok
    {
      if k.table in catalog.keys {
        ok := DropPrimaryKey(k.table, k.constraint);
      } else {
        assert catalog.keys - {k.table} == catalog.keys;
        ok := true;
      }
    }

    method ReplaceKey(i: nat) returns (ok: bool)
      requires i < |plan.keys| && Safe() && GuardsFrom(plan, catalog, i)
      modifies `clock, `tables, `catalog
      ensures Safe() && SameFate(plan, old(catalog), catalog)
      ensures catalog.indexes == old(catalog.indexes) && catalog.constraints == old(catalog.constraints)
      ensures catalog.keys - {plan.keys[i].table} == old(catalog.keys) - {plan.keys[i].table}
      ensures old(KeysSwapped(plan, catalog, i)) ==> KeysSwapped(plan, catalog, i)
      ensures ok ==> Composite(catalog, plan.keys[i]) && old(Droppable(catalog, plan.keys[i]))
      ensures old(Quiet()) ==> Quiet()
      ensures old(Undisturbed()) && old(Droppable(catalog, plan.keys[i])) ==> ok
    {
      ok := EnsureCompositePrimaryKey(plan.keys[i]);
      KeyReplaced(plan, old(catalog), catalog, i);
    }

    method SwapKey(i: nat) returns (ok: bool)
      requires i < |plan.keys| && Safe() && IndexesBuilt(plan, catalog) && LegacyGone(plan, catalog)
      requires GuardsFrom(plan, catalog, i) && KeysSwapped(plan, catalog, i)
      modifies `clock, `tables, `catalog
      ensures Safe() && IndexesBuilt(plan, catalog) && LegacyGone(plan, catalog)
      ensures SameFate(plan, old(catalog), catalog)
      ensures ok ==> GuardsFrom(plan, catalog, i + 1) && KeysSwapped(plan, catalog, i + 1)
      ensures ok ==> (old(NamedFrom(plan, catalog, i)) <==> NamedFrom(plan, catalog, i + 1))
      ensures old(Quiet()) ==> Quiet()
      ensures old(Undisturbed()) && old(NamedFrom(plan, catalog, i)) ==> ok
    {
      ok := ReplaceKey(i);
      if !ok { return; }
      ghost var between := catalog;
      ok := DropGuard(i);
      NamesElsewhere(plan, old(catalog), catalog, i);
      SameFateTransitive(plan, old(catalog), between, catalog);
    }

    /** Once the key is composite its guard is redundant. */
    method DropGuard(i: nat) returns (ok: bool)
      requires i < |plan.keys| && Safe() && IndexesBuilt(plan, catalog) && LegacyGone(plan, catalog)
      requires GuardsFrom(plan, catalog, i) && KeysSwapped(plan, catalog, i) && Composite(catalog, plan.keys[i])
      modifies `clock, `tables, `catalog
      ensures Safe() && IndexesBuilt(plan, catalog) && LegacyGone(plan, catalog)
      ensures SameFate(plan, old(catalog), catalog) && catalog.keys == old(catalog.keys)
      ensures ok ==> GuardsFrom(plan, catalog, i + 1) && KeysSwapped(plan, catalog, i + 1)
      ensures old(Quiet()) ==> Quiet() && ok
    {
      ok := DropIndexConcurrently(plan.keys[i].guardIndex);
      GuardReplaced(plan, old(catalog), catalog, i);
      GuardDropped(plan, old(catalog), catalog, i);
    }

    method SwapKeys() returns (ok: bool)
      requires Replaced() && LegacyGone(plan, catalog)
      modifies `clock, `tables, `catalog
      ensures Safe() && IndexesBuilt(plan, catalog) && LegacyGone(plan, catalog)
      ensures SameFate(plan, old(catalog), catalog)
      ensures ok ==> KeysSwapped(plan, catalog, |plan.keys|) && old(KeysNamed())
      ensures old(Quiet()) ==> Quiet()
      ensures old(Undisturbed()) && old(KeysNamed()) ==> ok
    {
      var i := 0;
      while i < |plan.keys|
        invariant 0 <= i <= |plan.keys|
        invariant Safe() && IndexesBuilt(plan, catalog) && LegacyGone(plan, catalog)
        invariant SameFate(plan, old(catalog), catalog)
        invariant GuardsFrom(plan, catalog, i) && KeysSwapped(plan, catalog, i)
        invariant NamedFrom(plan, old(catalog), 0) <==> NamedFrom(plan, catalog, i)
        invariant old(Quiet()) ==> Quiet()
      {
        ghost var before := catalog;
        ok := SwapKey(i);
        SameFateTransitive(plan, old(catalog), before, catalog);
        if !ok { return; }
        i := i + 1;
      }
      ok := true;
    }

    /** What an undisturbed run needs, checkable before it starts. */
    ghost predicate CanComplete()
      reads this
    {
      && SchemaComplete() && KeysNamed()
      && (HasKeyTarget(Insights, [CveId]) ==> Normalizable(catalog, RowsOf(Seen(), Insights)))
    }

    /** Absent CVE ids become '': the one statement of the run that changes rows. */
    method NormalizeInsights() returns (ok: bool)
      requires Safe()
      modifies `clock, `tables
      ensures Safe()
      ensures old(Quiet()) ==> Quiet()
      ensures !HasKeyTarget(Insights, [CveId]) ==> ok && tables == old(tables)
      ensures HasKeyTarget(Insights, [CveId]) ==>
        (ok <==> fault(old(clock)) == NoFault && Normalizable(catalog, RowsOf(old(Seen()), Insights)))
      ensures HasKeyTarget(Insights, [CveId]) ==> tables == if ok then Normalized(old(Seen())) else old(Seen())
    {
      if !HasKeyTarget(Insights, [CveId]) { return true; }
      var f := Turn();
      NormalizesIff(catalog, tables);
      ok := f == NoFault && Admits(catalog, Normalized(tables));
      if ok {
        NormalizedSignature(plan, tables);
        tables := Normalized(tables);
      }
    }

    /** The final check reads the catalog back. */
    method Verify() returns (ok: bool)
      requires Safe()
      modifies `clock, `tables
      ensures Safe()
      ensures old(Quiet()) ==> Quiet()
      ensures (old(Quiet()) && IndexesBuilt(plan, catalog) && LegacyGone(plan, catalog)
               && KeysSwapped(plan, catalog, |plan.keys|)) ==> ok
      ensures ok ==> IndexesBuilt(plan, catalog) && forall k | k in plan.keys :: Composite(catalog, k)
    {
      var f := Turn();
      ok := f == NoFault
      && (forall i | 0 <= i < |plan.indexes| ::
            Exact(catalog, plan.indexes[i].name, Wanted(plan.indexes[i].table, plan.indexes[i].columns)))
      && (forall n | n in LegacyNames(plan) :: n !in catalog.indexes)
      && (forall i | 0 <= i < |plan.keys| :: Composite(catalog, plan.keys[i]));
    }

    /**
     One startup's run. However it ends, composite identity is still enforced and the
     catalog is still bound for the same end state; a completed run is in that end state;
     and a run nobody disturbs completes exactly when it can: the columns exist, the primary
     keys carry the names it drops, no two insights become one by losing a NULL CVE id, and
     every row that must be owned is, without NULLs in a primary key.
     */
    method EnsureClusterQualifiedPodUniqueness() returns (ok: bool)
      requires Safe()
      modifies `clock, `tables, `catalog
      ensures Safe() && IdentityHolds(plan, tables)
      ensures SameFate(plan, old(catalog), catalog)
      ensures ok ==> Swapped(plan, old(catalog), catalog)
      ensures old(Quiet()) ==> Quiet()
      ensures ok ==> old(CanComplete())
      ensures old(Quiet()) ==> (ok <==> old(CanComplete()) && Clean(plan, old(tables)))
    {
      ok := Phases();
      GuardedKeepsIdentity(plan, catalog, tables);
      CleanIffFull(plan, old(tables));
      if ok && old(Quiet()) {
        SwappedIsFilled(plan, catalog, tables);
      }
    }

    method Phases() returns (ok: bool)
      requires Safe()
      modifies `clock, `tables, `catalog
      ensures Safe() && SameFate(plan, old(catalog), catalog)
      ensures ok ==> Swapped(plan, old(catalog), catalog)
      ensures old(Quiet()) ==> Quiet()
      ensures ok ==> old(CanComplete())
      ensures old(Quiet()) && ok ==> OwnedUp(Base())
      ensures old(Undisturbed()) ==> (ok <==> old(CanComplete()))
    {
      ok := NormalizeInsights();
      if !ok { return; }
      ok := ReplaceIndexes();
      if !ok { return; }
      NamedSame(plan, old(catalog), catalog, 0);
      ok := FinishKeys();
    }

    /** Composite indexes and guards first, then the legacy keys go. */
    method ReplaceIndexes() returns (ok: bool)
      requires Safe()
      modifies `clock, `tables, `catalog
      ensures Safe() && SameFate(plan, old(catalog), catalog) && catalog.keys == old(catalog.keys)
      ensures ok ==> Replaced() && LegacyGone(plan, catalog) && SchemaComplete()
      ensures old(Quiet()) ==> Quiet() && (ok ==> OwnedUp(Base()))
      ensures old(Undisturbed()) ==> (ok <==> SchemaComplete())
    {
      ok := BuildIndexes();
      if !ok { return; }
      ghost var built := catalog;
      ok := BuildGuards();
      SameFateTransitive(plan, old(catalog), built, catalog);
      if !ok { return; }
      ghost var guarded := catalog;
      ok := DropLegacy();
      SameFateTransitive(plan, old(catalog), guarded, catalog);
    }

    method FinishKeys() returns (ok: bool)
      requires Replaced() && LegacyGone(plan, catalog)
      modifies `clock, `tables, `catalog
      ensures Safe() && SameFate(plan, old(catalog), catalog)
      ensures ok ==> IndexesBuilt(plan, catalog) && LegacyGone(plan, catalog) && KeysSwapped(plan, catalog, |plan.keys|)
      ensures ok ==> old(KeysNamed())
      ensures old(Quiet()) ==> Quiet()
      ensures old(Undisturbed()) ==> (ok <==> old(KeysNamed()))
    {
      ok := SwapKeys();
      if !ok { return; }
      ok := Verify();
    }

    /**
     Any number of killed or failed runs, then one that completes: the catalog is the one
     an uninterrupted run from the first state would have left.
     */
    method RunUntilComplete(restarts: nat) returns (ok: bool)
      requires Safe()
      modifies `clock, `tables, `catalog
      ensures Safe() && IdentityHolds(plan, tables)
      ensures SameFate(plan, old(catalog), catalog)
      ensures old(Quiet()) && old(CanComplete()) && Clean(plan, old(tables)) ==> ok
      ensures ok ==> forall c | Swapped(plan, old(catalog), c) :: catalog == c
      ensures ok ==> Swapped(plan, old(catalog), catalog)
    {
      ok := EnsureClusterQualifiedPodUniqueness();
      for i := 0 to restarts
        invariant Safe() && IdentityHolds(plan, tables)
        invariant SameFate(plan, old(catalog), catalog)
        invariant ok ==> Swapped(plan, old(catalog), catalog)
        invariant old(Quiet()) && old(CanComplete()) && Clean(plan, old(tables)) ==> ok
      {
        if ok { break; }
        ok := EnsureClusterQualifiedPodUniqueness();
      }
      if ok {
        forall c | Swapped(plan, old(catalog), c) ensures catalog == c {
          SwappedIsUnique(plan, old(catalog), catalog, c);
        }
      }
    }

    /** Agents follow the same order; here both legacy keys go in one transaction. */
    method EnsureAgentCompositeIdentity() returns (ok: bool)
      requires Safe() && |plan.indexes| == 1 && plan.keys == []
      modifies `clock, `tables, `catalog
      ensures Safe() && IdentityHolds(plan, tables)
      ensures SameFate(plan, old(catalog), catalog)
      ensures ok ==> Swapped(plan, old(catalog), catalog)
      ensures old(Quiet()) ==> Quiet() && ok
    {
      var t := plan.indexes[0];
      ok := EnsureIndex(t.name, Wanted(t.table, t.columns));
      TargetIndexReplaced(plan, old(catalog), catalog, 0);
      if ok {
        ghost var before := catalog;
        ok := DropLegacyAtOnce();
        SameFateTransitive(plan, old(catalog), before, catalog);
      }
      GuardedKeepsIdentity(plan, catalog, tables);
    }

    /** One transaction for both kinds of legacy key. */
    method DropLegacyAtOnce() returns (ok: bool)
      requires Replaced()
      modifies `clock, `tables, `catalog
      ensures Replaced() && SameFate(plan, old(catalog), catalog) && catalog.keys == old(catalog.keys)
      ensures ok ==> LegacyGone(plan, catalog)
      ensures !ok ==> catalog == old(catalog)
      ensures old(Quiet()) ==> Quiet() && ok
    {
      var f := Turn();
      ok := f == NoFault;
      if ok {
        catalog := catalog.(indexes := catalog.indexes - LegacyNames(plan),
                            constraints := catalog.constraints - LegacyConstraints(plan));
        LegacyDropped(plan, old(catalog), catalog);
      }
    }
  }
}
