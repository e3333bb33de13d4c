/** Migration 115: connections get a five-minute bucket, a normalised signature and a unique index. */
module NetworkBuckets {
  import opened Sql
  import Text

  /** The unique signature: every column of the index but the bucket. */
  datatype Signature = Signature(
    cluster: Option<string>, pod: Option<string>, namespace: Option<string>, container: Option<string>,
    sourceIp: Option<string>, sourcePort: Option<int>, destIp: Option<string>, destPort: Option<int>,
    protocol: Option<string>, state: Option<string>)

  /** Times are integers at the column's precision, microseconds since the epoch. */
  datatype Row = Row(id: nat, sig: Signature, observed: Option<int>, created: Option<int>, bucket: Option<int>)

  const WINDOW := 300_000_000

  // ---------------------------------------------------------------- the updates, row by row

  function Observed(r: Row, now: int): Row {
    if r.observed.None? then r.(observed := Some(Coalesce(r.created, now))) else r
  }

  /** `epoch + FLOOR(extract(epoch from observed_at) / 300) * 300`; `/` floors for a positive divisor. */
  function Bucketed(r: Row): Row {
    if r.bucket.None? && r.observed.Some? then r.(bucket := Some(r.observed.value / WINDOW * WINDOW)) else r
  }

  function Filled(r: Row): Row {
    r.(sig := r.sig.(
         container := Some(Coalesce(r.sig.container, "")), sourceIp := Some(Coalesce(r.sig.sourceIp, "")),
         destIp := Some(Coalesce(r.sig.destIp, "")), protocol := Some(Coalesce(r.sig.protocol, "tcp")),
         state := Some(Coalesce(r.sig.state, ""))))
  }

  function Canonical(r: Row): Row {
    if r.sig.protocol.None? then r
    else r.(sig := r.sig.(protocol := Some(Text.Lower(Text.Btrim(r.sig.protocol.value)))))
  }

  function Each(rows: seq<Row>, f: Row -> Row): seq<Row> {
    seq(|rows|, i requires 0 <= i < |rows| => f(rows[i]))
  }

  function PrepareRow(r: Row, now: int): Row {
    Canonical(Filled(Bucketed(Observed(r, now))))
  }

  function Prepared(rows: seq<Row>, now: int): seq<Row> {
    seq(|rows|, i requires 0 <= i < |rows| => PrepareRow(rows[i], now))
  }

  /** Every row gets a bucket; one assigned here is the five-minute window that contains its time. */
  lemma PreparedRow(r: Row, now: int)
    ensures var p := PrepareRow(r, now);
      && p.id == r.id && p.observed.Some? && p.bucket.Some?
      && p.observed.value == Coalesce(r.observed, Coalesce(r.created, now))
      && (r.bucket.Some? ==> p.bucket == r.bucket)
      && (r.bucket.None? ==> p.bucket.value <= p.observed.value < p.bucket.value + WINDOW
                             && p.bucket.value % WINDOW == 0)
  {
    var t := Coalesce(r.observed, Coalesce(r.created, now));
    assert t == t / WINDOW * WINDOW + t % WINDOW;
  }

  /** A value that is there stays; a missing one becomes the default. */
  predicate KeptOr(before: Option<string>, after: Option<string>, default: string) {
    after == if before.Some? then before else Some(default)
  }

  /** Of the signature only NULLs and the spelling of the protocol change. */
  lemma PreparedSignature(r: Row, now: int)
    ensures var s, p := r.sig, PrepareRow(r, now).sig;
      && p.cluster == s.cluster && p.pod == s.pod && p.namespace == s.namespace
      && p.sourcePort == s.sourcePort && p.destPort == s.destPort
      && KeptOr(s.container, p.container, "") && KeptOr(s.sourceIp, p.sourceIp, "")
      && KeptOr(s.destIp, p.destIp, "") && KeptOr(s.state, p.state, "")
      && p.protocol == Some(if s.protocol.Some? then Text.Lower(Text.Btrim(s.protocol.value)) else "tcp")
      && PrepareRow(r, now).created == r.created
  {
    if r.sig.protocol.None? {
      assert Text.Btrim("tcp") == "tcp";
      assert Text.Lower("tcp") == "tcp";
    }
  }

  // ---------------------------------------------------------------- deduplication

  predicate DistinctIds(rows: seq<Row>) {
    forall i, j | 0 <= i < j < |rows| :: rows[i].id != rows[j].id
  }

  /** PARTITION BY puts NULLs together, unlike the unique index. */
  predicate SamePartition(a: Row, b: Row) {
    a.sig == b.sig && a.bucket == b.bucket
  }

  /** ORDER BY observed_at DESC, id DESC, within a partition. */
  predicate Precedes(a: Row, b: Row) {
    && SamePartition(a, b)
    && (Coalesce(a.observed, 0) > Coalesce(b.observed, 0)
        || (Coalesce(a.observed, 0) == Coalesce(b.observed, 0) && a.id > b.id))
  }

  function CountBefore(rows: seq<Row>, r: Row): nat {
    if rows == [] then 0
    else CountBefore(rows[..|rows| - 1], r) + if Precedes(rows[|rows| - 1], r) then 1 else 0
  }

  function RowNumber(rows: seq<Row>, r: Row): nat {
    CountBefore(rows, r) + 1
  }

  /** DELETE of every row numbered above one, applied to the first `n` rows. */
  function Survivors(rows: seq<Row>, n: nat): seq<Row>
    requires n <= |rows|
  {
    if n == 0 then []
    else Survivors(rows, n - 1) + if RowNumber(rows, rows[n - 1]) > 1 then [] else [rows[n - 1]]
  }

  function Deduped(rows: seq<Row>): seq<Row> {
    Survivors(rows, |rows|)
  }

  lemma {:induction false} NumberedFirst(rows: seq<Row>, r: Row)
    ensures CountBefore(rows, r) == 0 <==> forall i | 0 <= i < |rows| :: !Precedes(rows[i], r)
  {
    if rows != [] {
      NumberedFirst(rows[..|rows| - 1], r);
      assert forall i | 0 <= i < |rows| - 1 :: rows[i] == rows[..|rows| - 1][i];
    }
  }

  lemma {:induction false} SurvivorsExactly(rows: seq<Row>, n: nat, s: Row)
    requires n <= |rows|
    ensures s in Survivors(rows, n) <==> s in rows[..n] && CountBefore(rows, s) == 0
  {
    if n > 0 {
      SurvivorsExactly(rows, n - 1, s);
      assert rows[..n] == rows[..n - 1] + [rows[n - 1]];
    }
  }

  /** Moving to a preceding row leaves fewer rows before it. */
  lemma {:induction false} FewerBefore(rows: seq<Row>, a: Row, b: Row)
    requires Precedes(a, b)
    ensures CountBefore(rows, a) <= CountBefore(rows, b)
    ensures a in rows ==> CountBefore(rows, a) < CountBefore(rows, b)
  {
    if rows != [] {
      FewerBefore(rows[..|rows| - 1], a, b);
      assert rows == rows[..|rows| - 1] + [rows[|rows| - 1]];
    }
  }

  /** Every partition that occurs has a survivor at least as late as any of its rows. */
  lemma {:induction false} SurvivorOf(rows: seq<Row>, r: Row) returns (s: Row)
    requires r in rows
    ensures s in rows && CountBefore(rows, s) == 0 && SamePartition(s, r) && (s == r || Precedes(s, r))
    decreases CountBefore(rows, r)
  {
    NumberedFirst(rows, r);
    if CountBefore(rows, r) == 0 {
      s := r;
    } else {
      var i :| 0 <= i < |rows| && Precedes(rows[i], r);
      FewerBefore(rows, rows[i], r);
      s := SurvivorOf(rows, rows[i]);
    }
  }

  /** At least as great a (time, id). */
  predicate NoEarlier(s: Row, r: Row) {
    var a, b := Coalesce(s.observed, 0), Coalesce(r.observed, 0);
    a > b || (a == b && s.id >= r.id)
  }

  /**
   Each signature and bucket survives exactly once, as the row with the greatest
   (observed time, id), and nothing else survives.
   */
  lemma DedupedExactly(rows: seq<Row>, r: Row)
    requires DistinctIds(rows) && r in rows
    ensures exists s :: s in Deduped(rows) && s.sig == r.sig && s.bucket == r.bucket && NoEarlier(s, r)
    ensures forall s, t | s in Deduped(rows) && t in Deduped(rows) && s.sig == t.sig && s.bucket == t.bucket :: s == t
    ensures forall s | s in Deduped(rows) :: s in rows
  {
    assert rows[..|rows|] == rows;
    var s := SurvivorOf(rows, r);
    SurvivorsExactly(rows, |rows|, s);
    forall s, t | s in Deduped(rows) && t in Deduped(rows) && SamePartition(s, t) ensures s == t {
      SurvivorsExactly(rows, |rows|, s);
      SurvivorsExactly(rows, |rows|, t);
      NumberedFirst(rows, s);
      NumberedFirst(rows, t);
      var i :| 0 <= i < |rows| && rows[i] == s;
      var j :| 0 <= j < |rows| && rows[j] == t;
      assert !Precedes(rows[i], t) && !Precedes(rows[j], s);
    }
    forall s | s in Deduped(rows) ensures s in rows {
      SurvivorsExactly(rows, |rows|, s);
    }
  }

  lemma {:induction false} SurvivorsKeepOrder(rows: seq<Row>, n: nat)
    requires n <= |rows| && DistinctIds(rows)
    ensures DistinctIds(Survivors(rows, n))
    ensures forall s | s in Survivors(rows, n) :: s in rows[..n]
  {
    if n > 0 {
      SurvivorsKeepOrder(rows, n - 1);
      assert rows[..n] == rows[..n - 1] + [rows[n - 1]];
      var before := Survivors(rows, n - 1);
      forall i | 0 <= i < |before| ensures before[i].id != rows[n - 1].id {
        assert before[i] in rows[..n - 1];
      }
    }
  }

  // ---------------------------------------------------------------- constraints

  predicate AllBucketed(rows: seq<Row>) {
    forall i | 0 <= i < |rows| :: rows[i].bucket.Some?
  }

  /** The key columns are all non-NULL: only then does the unique index compare the row. */
  predicate Indexed(r: Row) {
    var s := r.sig;
    && s.cluster.Some? && s.pod.Some? && s.namespace.Some? && s.container.Some? && s.sourceIp.Some?
    && s.sourcePort.Some? && s.destIp.Some? && s.destPort.Some? && s.protocol.Some? && s.state.Some? && r.bucket.Some?
  }

  predicate UniqueHolds(rows: seq<Row>) {
    forall i, j | 0 <= i < j < |rows| :: !(Indexed(rows[i]) && SamePartition(rows[i], rows[j]))
  }

  function Key(r: Row): seq<Option<string>> {
    var s := r.sig;
    [s.cluster, s.pod, s.namespace, s.container, s.sourceIp, s.destIp, s.protocol, s.state]
  }

  function Numbers(r: Row): seq<Option<int>> {
    [r.sig.sourcePort, r.sig.destPort, r.bucket]
  }

  /** `a = b` on each of the eleven key columns. */
  predicate KeyEquals(a: Row, b: Row) {
    && (forall i | 0 <= i < 8 :: Eq(Key(a)[i], Key(b)[i]).Holds())
    && (forall i | 0 <= i < 3 :: Eq(Numbers(a)[i], Numbers(b)[i]).Holds())
  }

  /** What the unique index forbids: two rows whose key columns are all equal in SQL, NULL being equal to nothing. */
  lemma UniqueMeans(rows: seq<Row>)
    ensures UniqueHolds(rows) <==> forall i, j | 0 <= i < j < |rows| :: !KeyEquals(rows[i], rows[j])
  {
    forall i, j | 0 <= i < j < |rows|
      ensures KeyEquals(rows[i], rows[j]) <==> Indexed(rows[i]) && SamePartition(rows[i], rows[j])
    {
      KeyEqualsMeans(rows[i], rows[j]);
    }
  }

  lemma KeyEqualsMeans(a: Row, b: Row)
    ensures KeyEquals(a, b) <==> Indexed(a) && SamePartition(a, b)
  {
    var k, l, m, n := Key(a), Key(b), Numbers(a), Numbers(b);
    if KeyEquals(a, b) {
      assert Eq(k[0], l[0]).Holds() && Eq(k[1], l[1]).Holds() && Eq(k[2], l[2]).Holds() && Eq(k[3], l[3]).Holds();
      assert Eq(k[4], l[4]).Holds() && Eq(k[5], l[5]).Holds() && Eq(k[6], l[6]).Holds() && Eq(k[7], l[7]).Holds();
      assert Eq(m[0], n[0]).Holds() && Eq(m[1], n[1]).Holds() && Eq(m[2], n[2]).Holds();
    }
  }

  /** After the updates and the delete, neither NOT NULL nor the unique index can fail. */
  lemma ResultIsIndexable(rows: seq<Row>, now: int)
    requires DistinctIds(rows)
    ensures var result := Deduped(Prepared(rows, now));
      DistinctIds(Prepared(rows, now)) && AllBucketed(result) && UniqueHolds(result)
  {
    var p := Prepared(rows, now);
    forall i | 0 <= i < |p| ensures p[i].id == rows[i].id && p[i].bucket.Some? {
      PreparedRow(rows[i], now);
    }
    var result := Deduped(p);
    SurvivorsKeepOrder(p, |p|);
    forall i | 0 <= i < |result| ensures result[i].bucket.Some? && result[i] in p {
      assert result[i] in result;
    }
    forall i, j | 0 <= i < j < |result| ensures !SamePartition(result[i], result[j]) {
      DedupedExactly(p, result[i]);
      assert result[i] in result && result[j] in result;
    }
  }

  // ---------------------------------------------------------------- under an index already in force

  /** Rows that meet before a row-wise update meet after it, if it maps equal keys to equal keys. */
  lemma NormalisedSame(a: Row, b: Row)
    ensures SamePartition(a, b) ==> SamePartition(Filled(a), Filled(b)) && SamePartition(Canonical(a), Canonical(b))
    ensures Indexed(a) ==> Indexed(Filled(a)) && Indexed(Canonical(a))
  {
  }

  /** Two rows that become one by normalisation. */
  predicate Merge(a: Row, b: Row, now: int) {
    Indexed(PrepareRow(a, now)) && SamePartition(PrepareRow(a, now), PrepareRow(b, now))
  }

  /** No two rows have one normalised signature and bucket. */
  predicate NothingMerges(rows: seq<Row>, now: int) {
    forall i, j | 0 <= i < j < |rows| :: !Merge(rows[i], rows[j], now)
  }

  function AfterBuckets(rows: seq<Row>, now: int): seq<Row> {
    seq(|rows|, i requires 0 <= i < |rows| => Bucketed(Observed(rows[i], now)))
  }

  function AfterFill(rows: seq<Row>, now: int): seq<Row> {
    seq(|rows|, i requires 0 <= i < |rows| => Filled(Bucketed(Observed(rows[i], now))))
  }

  /** What the index meets at each update: a collision midway is still one at the end. */
  lemma UpdatesMeetIndex(rows: seq<Row>, now: int)
    ensures UniqueHolds(Prepared(rows, now)) <==> NothingMerges(rows, now)
    ensures NothingMerges(rows, now) ==> UniqueHolds(AfterFill(rows, now)) && UniqueHolds(AfterBuckets(rows, now))
  {
    forall i, j | 0 <= i < j < |rows|
      ensures Merge(rows[i], rows[j], now) <==>
        Indexed(Prepared(rows, now)[i]) && SamePartition(Prepared(rows, now)[i], Prepared(rows, now)[j])
      ensures Indexed(AfterFill(rows, now)[i]) && SamePartition(AfterFill(rows, now)[i], AfterFill(rows, now)[j]) ==>
        Merge(rows[i], rows[j], now)
      ensures (Indexed(AfterBuckets(rows, now)[i])
               && SamePartition(AfterBuckets(rows, now)[i], AfterBuckets(rows, now)[j]))
        ==> Merge(rows[i], rows[j], now)
    {
      NormalisedSame(AfterBuckets(rows, now)[i], AfterBuckets(rows, now)[j]);
      NormalisedSame(AfterFill(rows, now)[i], AfterFill(rows, now)[j]);
    }
  }

  /** Times alone are no part of the key. */
  lemma ObservedMeetsIndex(rows: seq<Row>, now: int)
    requires UniqueHolds(rows)
    ensures UniqueHolds(Each(rows, r => Observed(r, now)))
  {
    forall i, j | 0 <= i < j < |rows|
      ensures !(Indexed(Observed(rows[i], now)) && SamePartition(Observed(rows[i], now), Observed(rows[j], now)))
    {
      assert !(Indexed(rows[i]) && SamePartition(rows[i], rows[j]));
    }
  }

  /** Two spellings of one protocol live side by side under the index, and stop a rerun. */
  lemma SpellingStopsRerun(r: Row, now: int)
    requires Indexed(r) && r.sig.protocol == Some("tcp")
    ensures var twin := r.(id := r.id + 1, sig := r.sig.(protocol := Some("TCP")));
      UniqueHolds([r, twin]) && !NothingMerges([r, twin], now)
  {
    var twin := r.(id := r.id + 1, sig := r.sig.(protocol := Some("TCP")));
    assert "tcp"[0] != "TCP"[0];
    assert Text.Btrim("tcp") == "tcp" && Text.Btrim("TCP") == "TCP";
    assert Text.Lower("TCP") == "tcp" == Text.Lower("tcp");
    assert Merge([r, twin][0], [r, twin][1], now);
  }

  lemma LowerTrimIsStable(s: string)
    ensures Text.Lower(Text.Btrim(Text.Lower(Text.Btrim(s)))) == Text.Lower(Text.Btrim(s))
  {
    var t := Text.Btrim(s);
    var l := Text.Lower(t);
    assert |l| == |t| && forall i | 0 <= i < |t| :: l[i] == Text.LowerChar(t[i]);
    assert Text.Btrim(l) == l;
    assert Text.Lower(l) == l;
  }

  lemma PrepareIsStable(r: Row, now: int, later: int)
    ensures PrepareRow(PrepareRow(r, now), later) == PrepareRow(r, now)
  {
    PreparedRow(r, now);
    LowerTrimIsStable(Coalesce(r.sig.protocol, "tcp"));
  }

  lemma {:induction false} DistinctSurvive(rows: seq<Row>, n: nat)
    requires n <= |rows| && forall i | 0 <= i < |rows| :: CountBefore(rows, rows[i]) == 0
    ensures Survivors(rows, n) == rows[..n]
  {
    if n > 0 {
      DistinctSurvive(rows, n - 1);
      assert rows[..n] == rows[..n - 1] + [rows[n - 1]];
    }
  }

  /** What a completed run leaves, another run at any later time leaves as it is, index or not. */
  lemma RerunChangesNothing(rows: seq<Row>, now: int, later: int)
    requires DistinctIds(rows)
    ensures var r := Deduped(Prepared(rows, now));
      Prepared(r, later) == r && Deduped(r) == r && NothingMerges(r, later)
  {
    var p := Prepared(rows, now);
    var r := Deduped(p);
    ResultIsIndexable(rows, now);
    SurvivorsKeepOrder(p, |p|);
    forall i | 0 <= i < |r| ensures PrepareRow(r[i], later) == r[i] {
      assert r[i] in p[..|p|];
      var k :| 0 <= k < |p| && p[k] == r[i];
      PrepareIsStable(rows[k], now, later);
    }
    assert Prepared(r, later) == r;
    forall i | 0 <= i < |r| ensures CountBefore(r, r[i]) == 0 {
      NumberedFirst(r, r[i]);
      forall j | 0 <= j < |r| ensures !Precedes(r[j], r[i]) {
        if SamePartition(r[j], r[i]) {
          assert r[j] in r && r[i] in r && r[i] in p;
          DedupedExactly(p, r[i]);
        }
      }
    }
    DistinctSurvive(r, |r|);
    UpdatesMeetIndex(r, later);
  }

  // ---------------------------------------------------------------- the migration

  datatype Fault = NoFault | Refused | Interrupted
  datatype IndexState = Absent | Invalid | Enforced

  class Connections {
    const now: int
    const fault: nat -> Fault
    var clock: nat
    var rows: seq<Row>
    var notNull: bool
    var index: IndexState

    constructor (now: int, fault: nat -> Fault, rows: seq<Row>)
      ensures this.now == now && this.fault == fault && this.rows == rows
      ensures clock == 0 && !notNull && index == Absent
    {
      this.now, this.fault, this.rows, clock, notNull, index := now, fault, rows, 0, false, Absent;
    }

    /** The two statements after number `n` executed. */
    predicate Two(n: nat) {
      fault(n + 1) == NoFault && fault(n + 2) == NoFault
    }

    /** An UPDATE or DELETE is refused when a unique index already in force would be violated. */
    method Replace(next: seq<Row>) returns (ok: bool)
      modifies `clock, `rows
      ensures rows == if ok then next else old(rows)
      ensures clock == old(clock) + 1
      ensures ok <==> fault(clock) == NoFault && (index == Enforced ==> UniqueHolds(next))
    {
      clock := clock + 1;
      ok := fault(clock) == NoFault && (index == Enforced ==> UniqueHolds(next));
      if ok { rows := next; }
    }

    /** CREATE UNIQUE INDEX CONCURRENTLY IF NOT EXISTS: any index of that name, even an invalid one, satisfies it. */
    method CreateUniqueIndex() returns (ok: bool)
      modifies `clock, `index
      ensures clock == old(clock) + 1
      ensures ok <==> fault(clock) == NoFault && (old(index) == Absent ==> UniqueHolds(rows))
      ensures index == if old(index) != Absent || fault(clock) == Refused then old(index)
                       else if ok then Enforced else Invalid
    {
      clock := clock + 1;
      if fault(clock) == Refused || (fault(clock) == Interrupted && index != Absent) { return false; }
      if index != Absent { return true; }
      ok := fault(clock) == NoFault && UniqueHolds(rows);
      index := if ok then Enforced else Invalid;
    }

    /** Times and buckets. */
    method PrepareTimes() returns (ok: bool)
      requires index == Enforced ==> UniqueHolds(rows)
      modifies `clock, `rows
      ensures ok ==> rows == AfterBuckets(old(rows), now) && clock == old(clock) + 2 && Two(old(clock))
      ensures index == Enforced ==> UniqueHolds(rows)
      ensures (forall k: nat :: fault(k) == NoFault) ==>
        (ok <==> (index == Enforced ==> UniqueHolds(AfterBuckets(old(rows), now))))
    {
      var t := now;
      if index == Enforced { ObservedMeetsIndex(rows, now); }
      ok := Replace(Each(rows, r => Observed(r, t)));
      if !ok { return; }
      ok := Replace(Each(rows, r => Bucketed(r)));
      assert Each(Each(old(rows), r => Observed(r, t)), r => Bucketed(r)) == AfterBuckets(old(rows), now);
    }

    /** NULLs and the protocol's spelling; `base` is the table before the migration. */
    method PrepareSignatures(ghost base: seq<Row>) returns (ok: bool)
      requires rows == AfterBuckets(base, now) && (index == Enforced ==> UniqueHolds(rows))
      modifies `clock, `rows
      ensures ok ==> rows == Prepared(base, now) && clock == old(clock) + 2 && Two(old(clock))
      ensures index == Enforced ==> UniqueHolds(rows)
      ensures (forall k: nat :: fault(k) == NoFault) ==>
        (ok <==> (index == Enforced ==> UniqueHolds(AfterFill(base, now)) && UniqueHolds(Prepared(base, now))))
    {
      assert Each(rows, r => Filled(r)) == AfterFill(base, now);
      ok := Replace(Each(rows, r => Filled(r)));
      if !ok { return; }
      assert Each(rows, r => Canonical(r)) == Prepared(base, now);
      ok := Replace(Each(rows, r => Canonical(r)));
    }

    /** The four row-wise updates. */
    method Prepare() returns (ok: bool)
      requires index == Enforced ==> UniqueHolds(rows)
      modifies `clock, `rows
      ensures ok ==> rows == Prepared(old(rows), now) && clock == old(clock) + 4
      ensures ok ==> Two(old(clock)) && Two(old(clock) + 2)
      ensures index == Enforced ==> UniqueHolds(rows)
      ensures (forall k: nat :: fault(k) == NoFault) ==> (ok <==> (index == Enforced ==> NothingMerges(old(rows), now)))
    {
      UpdatesMeetIndex(rows, now);
      ok := PrepareTimes();
      if !ok { return; }
      ok := PrepareSignatures(old(rows));
    }

    /**
     The statements in order. On a table without the index the migration cannot fail on its
     data, and it leaves one row per signature and bucket under a valid index; with the index in
     force it fails exactly when normalisation would make two rows one, which the DELETE comes too
     late to prevent. A run that reports success keeps whatever index it found: it is valid exactly
     when no earlier build was left invalid.
     */
    method Migrate() returns (ok: bool)
      requires DistinctIds(rows) && (index == Enforced ==> UniqueHolds(rows))
      modifies `clock, `rows, `notNull, `index
      ensures ok ==> clock == old(clock) + 7
      ensures ok ==> Two(old(clock)) && Two(old(clock) + 2) && fault(old(clock) + 5) == NoFault && Two(old(clock) + 5)
      ensures ok ==> rows == Deduped(Prepared(old(rows), now)) && UniqueHolds(rows) && notNull
      ensures ok ==> forall i | 0 <= i < |rows| :: rows[i].bucket.Some?
      ensures ok ==> (index == Enforced <==> old(index) != Invalid)
      ensures (forall k: nat :: fault(k) == NoFault) ==>
        (ok <==> (old(index) == Enforced ==> NothingMerges(old(rows), now)))
      ensures ok ==> Deduped(Prepared(rows, now)) == rows && NothingMerges(rows, now)
    {
      ghost var result := Deduped(Prepared(rows, now));
      ResultIsIndexable(rows, now);
      ok := RunStatements(result);
      if ok {
        RerunChangesNothing(old(rows), now, now);
      }
    }

    /** `result` is what the updates and the DELETE leave. */
    method RunStatements(ghost result: seq<Row>) returns (ok: bool)
      requires index == Enforced ==> UniqueHolds(rows)
      requires result == Deduped(Prepared(rows, now)) && AllBucketed(result) && UniqueHolds(result)
      modifies `clock, `rows, `notNull, `index
      ensures ok ==> clock == old(clock) + 7
      ensures ok ==> Two(old(clock)) && Two(old(clock) + 2) && fault(old(clock) + 5) == NoFault && Two(old(clock) + 5)
      ensures ok ==> rows == result && notNull && (index == Enforced <==> old(index) != Invalid)
      ensures (forall k: nat :: fault(k) == NoFault) ==>
        (ok <==> (old(index) == Enforced ==> NothingMerges(old(rows), now)))
    {
      ok := Prepare();
      if !ok { return; }
      ok := Replace(Deduped(rows));
      if !ok { return; }
      ok := AddConstraints();
    }

    /** SET NOT NULL, which fails on a NULL bucket, and the unique index. */
    method AddConstraints() returns (ok: bool)
      modifies `clock, `notNull, `index
      ensures ok ==> notNull && clock == old(clock) + 2 && Two(old(clock))
      ensures ok ==> index == if old(index) == Absent then Enforced else old(index)
      ensures (forall k: nat :: fault(k) == NoFault) ==>
        (ok <==> AllBucketed(rows) && (old(index) == Absent ==> UniqueHolds(rows)))
    {
      clock := clock + 1;
      ok := fault(clock) == NoFault && AllBucketed(rows);
      if !ok { return; }
      notNull := true;
      ok := CreateUniqueIndex();
    }
  }
}
