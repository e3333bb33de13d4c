/** Agent ownership once the composite key and the identity guard are installed. */
module AgentIdentity {
  import opened Sql

  datatype Agent = Agent(cluster: Option<string>, agent: Option<string>, rest: string)

  /** `issued` holds every id ever used: ids come from a sequence and are never reused. */
  datatype State = State(rows: map<nat, Agent>, issued: set<nat>)

  datatype Write = Insert(id: nat, row: Agent) | Update(id: nat, row: Agent) | Delete(id: nat)

  predicate SameIdentity(a: Agent, b: Agent) {
    a.cluster == b.cluster && a.agent == b.agent
  }

  predicate FullyOwned(a: Agent) {
    Present(a.cluster) && Present(a.agent)
  }

  /** `idx_agents_cluster_agent`: NULLs are distinct. */
  predicate Free(rows: map<nat, Agent>, id: nat, row: Agent) {
    forall k | k in rows && k != id ::
      !Eq(rows[k].cluster, row.cluster).And(Eq(rows[k].agent, row.agent)).Holds()
  }

  function Apply(st: State, w: Write): State {
    match w
    case Insert(id, row) =>
      if id !in st.issued && FullyOwned(row) && Free(st.rows, id, row)
      then State(st.rows[id := row], st.issued + {id}) else st
    case Update(id, row) =>
      // the guard refuses a changed identity; an UPDATE that does not fire it assigns no identity column
      if id in st.rows && SameIdentity(st.rows[id], row) && Free(st.rows, id, row)
      then st.(rows := st.rows[id := row]) else st
    case Delete(id) => st.(rows := st.rows - {id})
  }

  function Run(st: State, writes: seq<Write>): State
    decreases |writes|
  {
    if writes == [] then st else Run(Apply(st, writes[0]), writes[1..])
  }

  /** The identity is taken by another row. */
  ghost predicate Taken(st: State, row: Agent) {
    exists k :: k in st.rows && st.rows[k].cluster == row.cluster && st.rows[k].agent == row.agent
  }

  /** A new agent is admitted exactly when it is fully owned and its identity is free. */
  lemma InsertAdmittedIff(st: State, id: nat, row: Agent)
    requires id !in st.issued && id !in st.rows
    ensures Apply(st, Insert(id, row)).rows ==
      if Present(row.cluster) && Present(row.agent) && !Taken(st, row) then st.rows[id := row] else st.rows
  {
  }

  /** Histories compose, and one write is one step. */
  lemma {:induction false} RunComposes(st: State, a: seq<Write>, b: seq<Write>, w: Write)
    ensures Run(st, a + b) == Run(Run(st, a), b) && Run(st, [w]) == Apply(st, w)
    decreases |a|
  {
    assert Run(Apply(st, w), [w][1..]) == Apply(st, w);
    if a == [] {
      assert a + b == b;
    } else {
      assert (a + b)[1..] == a[1..] + b;
      RunComposes(Apply(st, a[0]), a[1..], b, w);
    }
  }

  /** No two rows share a full identity, and every id present was issued. */
  predicate Sound(st: State) {
    st.rows.Keys <= st.issued && forall k | k in st.rows :: Free(st.rows, k, st.rows[k])
  }

  lemma ApplyKeepsSound(st: State, w: Write)
    requires Sound(st)
    ensures Sound(Apply(st, w)) && st.issued <= Apply(st, w).issued
  {
    var rows, after := st.rows, Apply(st, w).rows;
    forall k, j | k in after && j in after && j != k
      ensures !Eq(after[j].cluster, after[k].cluster).And(Eq(after[j].agent, after[k].agent)).Holds()
    {
      assert k in rows && rows[k] == after[k] ==> Free(rows, k, rows[k]);
      assert j in rows && rows[j] == after[j] ==> Free(rows, j, rows[j]);
    }
  }

  /** From `before` to `after`, the row keeps its owner, or is new and fully owned. */
  predicate Frozen(before: State, after: State, id: nat) {
    id in after.rows ==>
      if id in before.issued then id in before.rows && SameIdentity(before.rows[id], after.rows[id])
      else FullyOwned(after.rows[id])
  }

  /**
   Over any writes, with ids never reused: identities stay unique; a row that is still there has
   the owner it had, so an unassigned legacy record is never given one; a row that was not there
   is fully owned.
   */
  lemma OwnershipIsFrozen(st: State, writes: seq<Write>, id: nat)
    requires Sound(st)
    ensures Sound(Run(st, writes))
    ensures id in st.rows && id in Run(st, writes).rows ==> SameIdentity(st.rows[id], Run(st, writes).rows[id])
    ensures id in st.rows && !FullyOwned(st.rows[id]) && id in Run(st, writes).rows ==>
      !FullyOwned(Run(st, writes).rows[id])
    ensures id !in st.rows && id in Run(st, writes).rows ==> FullyOwned(Run(st, writes).rows[id])
  {
    RunFreezes(st, writes, id);
  }

  lemma {:induction false} RunFreezes(st: State, writes: seq<Write>, id: nat)
    requires Sound(st)
    ensures Sound(Run(st, writes)) && Frozen(st, Run(st, writes), id)
    decreases |writes|
  {
    if writes != [] {
      ApplyKeepsSound(st, writes[0]);
      RunFreezes(Apply(st, writes[0]), writes[1..], id);
    }
  }
}
