/** Aggregating observed connections into a bounded pod/destination graph. */
module FlowGraph {
  import opened Sql
  import opened Tally
  import Text

  /** `port` is absent when missing or not a number. */
  datatype Row = Row(
    podUid: Option<string>, destIp: Option<string>, port: Option<int>, protocol: Option<string>, observed: Option<int>)

  datatype Dest = Dest(ip: string, port: int, protocol: string)
  datatype FlowKey = FlowKey(pod: string, ip: string, port: int, protocol: string)
  datatype Flow = Flow(pod: string, dest: Dest, key: FlowKey, weight: int)

  const MAX_LINKS: nat := 320

  // ---------------------------------------------------------------- one row

  function PodOf(r: Row): string { Text.Trim(Coalesce(r.podUid, "")) }

  function IpOf(r: Row): string { Text.Trim(Coalesce(r.destIp, "")) }

  predicate Valid(r: Row) {
    PodOf(r) != "" && IpOf(r) != "" && r.port.Some?
  }

  function Protocol(r: Row): string {
    var p := Text.Trim(Coalesce(r.protocol, "tcp"));
    if p == "" then "tcp" else p
  }

  function DestOf(r: Row): Dest
    requires Valid(r)
  {
    Dest(IpOf(r), r.port.value, Protocol(r))
  }

  function KeyOf(r: Row): FlowKey
    requires Valid(r)
  {
    FlowKey(PodOf(r), IpOf(r), r.port.value, Text.Lower(Protocol(r)))
  }

  function Weight(r: Row): int {
    if r.observed.Some? && r.observed.value > 0 then r.observed.value else 1
  }

  // ---------------------------------------------------------------- aggregation

  function FlowOf(r: Row): Flow
    requires Valid(r)
  {
    Flow(PodOf(r), DestOf(r), KeyOf(r), Weight(r))
  }

  /** `edgeMap`, in insertion order: a known key gains weight, a new one is appended. */
  function AddFlow(flows: seq<Flow>, f: Flow): seq<Flow> {
    if flows == [] then [f]
    else if flows[0].key == f.key then [flows[0].(weight := flows[0].weight + f.weight)] + flows[1..]
    else [flows[0]] + AddFlow(flows[1..], f)
  }

  function Flows(rows: seq<Row>): seq<Flow> {
    if rows == [] then []
    else
      var before, r := Flows(rows[..|rows| - 1]), rows[|rows| - 1];
      if Valid(r) then AddFlow(before, FlowOf(r)) else before
  }

  function PodWeights(flows: seq<Flow>): Entries<string> {
    if flows == [] then []
    else Bump(PodWeights(flows[..|flows| - 1]), flows[|flows| - 1].pod, flows[|flows| - 1].weight)
  }

  function DestWeights(flows: seq<Flow>): Entries<Dest> {
    if flows == [] then []
    else Bump(DestWeights(flows[..|flows| - 1]), flows[|flows| - 1].dest, flows[|flows| - 1].weight)
  }

  function RowTotal(rows: seq<Row>): int {
    if rows == [] then 0
    else RowTotal(rows[..|rows| - 1]) + if Valid(rows[|rows| - 1]) then Weight(rows[|rows| - 1]) else 0
  }

  function FlowTotal(flows: seq<Flow>): int {
    if flows == [] then 0 else flows[0].weight + FlowTotal(flows[1..])
  }

  /** What the valid rows of one pod weigh together. */
  function RowsOfPod(rows: seq<Row>, pod: string): int {
    if rows == [] then 0
    else
      var r := rows[|rows| - 1];
      RowsOfPod(rows[..|rows| - 1], pod) + if Valid(r) && PodOf(r) == pod then Weight(r) else 0
  }

  function FlowsOfPod(flows: seq<Flow>, pod: string): int {
    if flows == [] then 0
    else (if flows[0].pod == pod then flows[0].weight else 0) + FlowsOfPod(flows[1..], pod)
  }

  /** A flow belongs to the pod its key names. */
  predicate Coherent(flows: seq<Flow>) {
    forall i | 0 <= i < |flows| :: flows[i].pod == flows[i].key.pod
  }

  lemma {:induction false} AddFlowTotals(flows: seq<Flow>, f: Flow, pod: string)
    requires Coherent(flows) && f.pod == f.key.pod
    ensures Coherent(AddFlow(flows, f))
    ensures FlowTotal(AddFlow(flows, f)) == FlowTotal(flows) + f.weight
    ensures FlowsOfPod(AddFlow(flows, f), pod) == FlowsOfPod(flows, pod) + if f.pod == pod then f.weight else 0
  {
    if flows != [] && flows[0].key != f.key {
      AddFlowTotals(flows[1..], f, pod);
    }
  }

  lemma {:induction false} FlowsConserve(rows: seq<Row>, pod: string)
    ensures Coherent(Flows(rows)) && FlowTotal(Flows(rows)) == RowTotal(rows)
    ensures FlowsOfPod(Flows(rows), pod) == RowsOfPod(rows, pod)
  {
    if rows != [] {
      FlowsConserve(rows[..|rows| - 1], pod);
      if Valid(rows[|rows| - 1]) {
        AddFlowTotals(Flows(rows[..|rows| - 1]), FlowOf(rows[|rows| - 1]), pod);
      }
    }
  }

  lemma {:induction false} TotalsLast(flows: seq<Flow>, f: Flow, pod: string)
    ensures FlowTotal(flows + [f]) == FlowTotal(flows) + f.weight
    ensures FlowsOfPod(flows + [f], pod) == FlowsOfPod(flows, pod) + if f.pod == pod then f.weight else 0
  {
    if flows != [] {
      TotalsLast(flows[1..], f, pod);
      assert (flows + [f])[1..] == flows[1..] + [f];
    }
  }

  lemma {:induction false} WeightTotals(flows: seq<Flow>)
    ensures Total(PodWeights(flows)) == FlowTotal(flows) == Total(DestWeights(flows))
  {
    if flows != [] {
      var n := |flows| - 1;
      var f := flows[n];
      WeightTotals(flows[..n]);
      BumpTotal(PodWeights(flows[..n]), f.pod, f.weight);
      BumpTotal(DestWeights(flows[..n]), f.dest, f.weight);
      TotalsLast(flows[..n], f, "");
      assert flows == flows[..n] + [f];
    }
  }

  lemma {:induction false} PodWeightIs(flows: seq<Flow>, pod: string)
    ensures Coalesce(Get(PodWeights(flows), pod), 0) == FlowsOfPod(flows, pod)
  {
    if flows != [] {
      var n := |flows| - 1;
      var f := flows[n];
      PodWeightIs(flows[..n], pod);
      BumpGet(PodWeights(flows[..n]), f.pod, f.weight, pod);
      TotalsLast(flows[..n], f, pod);
      assert flows == flows[..n] + [f];
    }
  }

  /** Every pod and every destination is weighed once. */
  lemma {:induction false} WeightsDistinct(flows: seq<Flow>)
    ensures Distinct(PodWeights(flows)) && Distinct(DestWeights(flows))
  {
    if flows != [] {
      var n := |flows| - 1;
      WeightsDistinct(flows[..n]);
      BumpDistinct(PodWeights(flows[..n]), flows[n].pod, flows[n].weight);
      BumpDistinct(DestWeights(flows[..n]), flows[n].dest, flows[n].weight);
    }
  }

  /** What a single connection contributes: nothing without pod, address or port, and else one flow. */
  lemma OneRow(r: Row)
    ensures var pod, ip := Text.Trim(Coalesce(r.podUid, "")), Text.Trim(Coalesce(r.destIp, ""));
      var p := Text.Trim(Coalesce(r.protocol, ""));
      var protocol := if p == "" then "tcp" else p;
      Flows([r]) ==
        if pod == "" || ip == "" || r.port.None? then []
        else [Flow(pod, Dest(ip, r.port.value, protocol), FlowKey(pod, ip, r.port.value, Text.Lower(protocol)),
                   if r.observed.Some? && r.observed.value >= 1 then r.observed.value else 1)]
  {
    assert [r][..0] == [];
    assert Text.Trim("tcp") == "tcp" && Text.Trim("") == "";
  }

  /** One common total from rows to flows to nodes, and each pod weighs what its own rows weigh. */
  lemma WeightIsConserved(rows: seq<Row>, pod: string)
    ensures var flows := Flows(rows);
      && Total(PodWeights(flows)) == Total(DestWeights(flows)) == FlowTotal(flows) == RowTotal(rows)
      && Coalesce(Get(PodWeights(flows), pod), 0) == RowsOfPod(rows, pod)
  {
    FlowsConserve(rows, pod);
    WeightTotals(Flows(rows));
    PodWeightIs(Flows(rows), pod);
  }

  // ---------------------------------------------------------------- what a destination is credited

  /** The flow a pod's connections to a destination belong to. */
  function KeyFor(pod: string, d: Dest): FlowKey {
    FlowKey(pod, d.ip, d.port, Text.Lower(d.protocol))
  }

  /** What the valid rows to one destination weigh, from one pod or (None) from all. */
  function RowsOfDest(rows: seq<Row>, pod: Option<string>, d: Dest): int {
    if rows == [] then 0
    else
      var r := rows[|rows| - 1];
      RowsOfDest(rows[..|rows| - 1], pod, d)
      + if Valid(r) && DestOf(r) == d && (pod.Some? ==> PodOf(r) == pod.value) then Weight(r) else 0
  }

  function RowsOfKey(rows: seq<Row>, k: FlowKey): int {
    if rows == [] then 0
    else
      var r := rows[|rows| - 1];
      RowsOfKey(rows[..|rows| - 1], k) + if Valid(r) && KeyOf(r) == k then Weight(r) else 0
  }

  /** What the flows credit to one destination, from one pod or (None) from all. */
  function Credit(flows: seq<Flow>, pod: Option<string>, d: Dest): int {
    if flows == [] then 0
    else
      (if flows[0].dest == d && (pod.Some? ==> flows[0].pod == pod.value) then flows[0].weight else 0)
      + Credit(flows[1..], pod, d)
  }

  /** The destination as the first valid row of a flow spells it. */
  function FirstSpelling(rows: seq<Row>, k: FlowKey): Option<Dest> {
    if rows == [] then None
    else
      var before, r := FirstSpelling(rows[..|rows| - 1], k), rows[|rows| - 1];
      if before.None? && Valid(r) && KeyOf(r) == k then Some(DestOf(r)) else before
  }

  function Lookup(flows: seq<Flow>, k: FlowKey): Option<Flow> {
    if flows == [] then None else if flows[0].key == k then Some(flows[0]) else Lookup(flows[1..], k)
  }

  /** One flow per key, and the key is the one of its pod and destination. */
  predicate Keyed(flows: seq<Flow>) {
    flows == []
    || (flows[0].key == KeyFor(flows[0].pod, flows[0].dest) && Lookup(flows[1..], flows[0].key).None?
        && Keyed(flows[1..]))
  }

  lemma {:induction false} AddFlowLookup(flows: seq<Flow>, f: Flow, k: FlowKey)
    requires Keyed(flows) && f.key == KeyFor(f.pod, f.dest)
    ensures Keyed(AddFlow(flows, f))
    ensures Lookup(AddFlow(flows, f), k) ==
      if k != f.key then Lookup(flows, k)
      else match Lookup(flows, k)
        case None => Some(f)
        case Some(g) => Some(g.(weight := g.weight + f.weight))
  {
    if flows != [] && flows[0].key != f.key {
      AddFlowLookup(flows[1..], f, k);
      AddFlowLookup(flows[1..], f, flows[0].key);
    }
  }

  /** The flow of a key, given its first spelling and the weight of its rows. */
  function Carried(k: FlowKey, first: Option<Dest>, weight: int): Option<Flow> {
    if first.None? then None else Some(Flow(k.pod, first.value, k, weight))
  }

  lemma CarriedStep(flows: seq<Flow>, f: Flow, k: FlowKey, first: Option<Dest>, weight: int)
    requires Keyed(flows) && f.key == KeyFor(f.pod, f.dest)
    requires Lookup(flows, k) == Carried(k, first, weight) && (first.None? ==> weight == 0)
    ensures Keyed(AddFlow(flows, f))
    ensures Lookup(AddFlow(flows, f), k) ==
      if f.key == k then Carried(k, if first.None? then Some(f.dest) else first, weight + f.weight)
      else Carried(k, first, weight)
  {
    AddFlowLookup(flows, f, k);
  }

  /** A flow carries the weight of all rows of its key, under the first spelling. */
  lemma {:induction false} FlowsLookup(rows: seq<Row>, k: FlowKey)
    ensures Keyed(Flows(rows))
    ensures Lookup(Flows(rows), k) == Carried(k, FirstSpelling(rows, k), RowsOfKey(rows, k))
    ensures FirstSpelling(rows, k).None? ==> RowsOfKey(rows, k) == 0
  {
    if rows != [] {
      var n := |rows| - 1;
      FlowsLookup(rows[..n], k);
      if Valid(rows[n]) {
        CarriedStep(Flows(rows[..n]), FlowOf(rows[n]), k, FirstSpelling(rows[..n], k), RowsOfKey(rows[..n], k));
      }
    }
  }

  lemma {:induction false} CreditLookup(flows: seq<Flow>, pod: string, d: Dest)
    requires Keyed(flows)
    ensures Credit(flows, Some(pod), d) ==
      match Lookup(flows, KeyFor(pod, d))
      case None => 0
      case Some(f) => if f.pod == pod && f.dest == d then f.weight else 0
  {
    if flows != [] {
      CreditLookup(flows[1..], pod, d);
    }
  }

  /**
   What a destination is credited with: everything its flow carries when it is the flow's first
   spelling, and nothing otherwise, whatever its own rows weigh.
   */
  lemma FirstSpellingTakesAll(rows: seq<Row>, pod: string, d: Dest)
    ensures Credit(Flows(rows), Some(pod), d) ==
      if FirstSpelling(rows, KeyFor(pod, d)) == Some(d) then RowsOfKey(rows, KeyFor(pod, d)) else 0
  {
    FlowsLookup(rows, KeyFor(pod, d));
    CreditLookup(Flows(rows), pod, d);
  }

  /** Rows of one flow spell its destination alike. */
  predicate SpeltAlike(rows: seq<Row>) {
    forall i, j | 0 <= i < |rows| && 0 <= j < |rows| ::
      Valid(rows[i]) && Valid(rows[j]) && KeyOf(rows[i]) == KeyOf(rows[j]) ==> DestOf(rows[i]) == DestOf(rows[j])
  }

  lemma {:induction false} FirstSpellingRow(rows: seq<Row>, k: FlowKey)
    ensures FirstSpelling(rows, k).Some? ==>
      exists i :: 0 <= i < |rows| && Valid(rows[i]) && KeyOf(rows[i]) == k
        && DestOf(rows[i]) == FirstSpelling(rows, k).value
    ensures FirstSpelling(rows, k).None? ==> forall i | 0 <= i < |rows| :: Valid(rows[i]) ==> KeyOf(rows[i]) != k
  {
    if rows != [] {
      FirstSpellingRow(rows[..|rows| - 1], k);
    }
  }

  /** A new row of a flow spelt alike adds its weight where the row says. */
  lemma {:induction false} AddFlowCredit(flows: seq<Flow>, f: Flow, pod: Option<string>, d: Dest)
    requires match Lookup(flows, f.key) case None => true case Some(g) => g.pod == f.pod && g.dest == f.dest
    ensures Credit(AddFlow(flows, f), pod, d) ==
      Credit(flows, pod, d) + if f.dest == d && (pod.Some? ==> f.pod == pod.value) then f.weight else 0
  {
    if flows != [] && flows[0].key != f.key {
      AddFlowCredit(flows[1..], f, pod, d);
    }
  }

  lemma AlikeFlow(rows: seq<Row>, n: nat)
    requires SpeltAlike(rows) && n < |rows| && Valid(rows[n])
    ensures var k := KeyOf(rows[n]);
      FirstSpelling(rows[..n], k).Some? ==> FirstSpelling(rows[..n], k).value == DestOf(rows[n])
  {
    var k := KeyOf(rows[n]);
    FirstSpellingRow(rows[..n], k);
    if FirstSpelling(rows[..n], k).Some? {
      var i :| 0 <= i < n && Valid(rows[..n][i]) && KeyOf(rows[..n][i]) == k
               && DestOf(rows[..n][i]) == FirstSpelling(rows[..n], k).value;
      assert rows[..n][i] == rows[i];
    }
  }

  lemma AlikeStep(rows: seq<Row>, pod: Option<string>, d: Dest)
    requires rows != [] && SpeltAlike(rows) && Valid(rows[|rows| - 1])
    ensures var n := |rows| - 1;
      Credit(Flows(rows), pod, d) == Credit(Flows(rows[..n]), pod, d)
        + if DestOf(rows[n]) == d && (pod.Some? ==> PodOf(rows[n]) == pod.value) then Weight(rows[n]) else 0
  {
    var n := |rows| - 1;
    var f := FlowOf(rows[n]);
    AlikeFlow(rows, n);
    FlowsLookup(rows[..n], f.key);
    AddFlowCredit(Flows(rows[..n]), f, pod, d);
  }

  /** When rows of a flow are spelt alike, every destination is credited what its own rows weigh. */
  lemma {:induction false} AlikeIsCredited(rows: seq<Row>, pod: Option<string>, d: Dest)
    requires SpeltAlike(rows)
    ensures Credit(Flows(rows), pod, d) == RowsOfDest(rows, pod, d)
  {
    if rows != [] {
      AlikeIsCredited(rows[..|rows| - 1], pod, d);
      if Valid(rows[|rows| - 1]) {
        AlikeStep(rows, pod, d);
      }
    }
  }

  lemma {:induction false} RowsOfDestPositive(rows: seq<Row>, i: nat)
    requires i < |rows| && Valid(rows[i])
    ensures RowsOfDest(rows, Some(PodOf(rows[i])), DestOf(rows[i])) > 0
  {
    RowsOfDestNonNegative(rows[..|rows| - 1], Some(PodOf(rows[i])), DestOf(rows[i]));
    if i < |rows| - 1 {
      RowsOfDestPositive(rows[..|rows| - 1], i);
    }
  }

  lemma {:induction false} RowsOfDestNonNegative(rows: seq<Row>, pod: Option<string>, d: Dest)
    ensures RowsOfDest(rows, pod, d) >= 0
  {
    if rows != [] {
      RowsOfDestNonNegative(rows[..|rows| - 1], pod, d);
    }
  }

  /** Every destination is credited, pod by pod, what its rows weigh. */
  ghost predicate CreditedAsObserved(rows: seq<Row>) {
    forall pod, d :: Credit(Flows(rows), Some(pod), d) == RowsOfDest(rows, Some(pod), d)
  }

  /** Destinations are credited as observed exactly when rows of one flow spell its destination alike. */
  lemma CreditedIffSpeltAlike(rows: seq<Row>)
    ensures CreditedAsObserved(rows) <==> SpeltAlike(rows)
  {
    if SpeltAlike(rows) {
      forall pod, d ensures Credit(Flows(rows), Some(pod), d) == RowsOfDest(rows, Some(pod), d) {
        AlikeIsCredited(rows, Some(pod), d);
      }
    } else {
      var i, j :| 0 <= i < |rows| && 0 <= j < |rows| && Valid(rows[i]) && Valid(rows[j])
                  && KeyOf(rows[i]) == KeyOf(rows[j]) && DestOf(rows[i]) != DestOf(rows[j]);
      var m := if FirstSpelling(rows, KeyOf(rows[i])) == Some(DestOf(rows[i])) then j else i;
      FirstSpellingTakesAll(rows, PodOf(rows[m]), DestOf(rows[m]));
      RowsOfDestPositive(rows, m);
      assert Credit(Flows(rows), Some(PodOf(rows[m])), DestOf(rows[m])) == 0;
    }
  }

  lemma {:induction false} CreditLast(flows: seq<Flow>, f: Flow, d: Dest)
    ensures Credit(flows + [f], None, d) == Credit(flows, None, d) + if f.dest == d then f.weight else 0
  {
    if flows != [] {
      CreditLast(flows[1..], f, d);
      assert (flows + [f])[1..] == flows[1..] + [f];
    }
  }

  lemma {:induction false} DestWeightIs(flows: seq<Flow>, d: Dest)
    ensures Coalesce(Get(DestWeights(flows), d), 0) == Credit(flows, None, d)
  {
    if flows != [] {
      var n := |flows| - 1;
      var f := flows[n];
      DestWeightIs(flows[..n], d);
      BumpGet(DestWeights(flows[..n]), f.dest, f.weight, d);
      CreditLast(flows[..n], f, d);
      assert flows == flows[..n] + [f];
    }
  }

  /** With consistent spelling a destination weighs what its rows weigh, as pods always do. */
  lemma AlikeDestinationsAreConserved(rows: seq<Row>, d: Dest)
    requires SpeltAlike(rows)
    ensures Coalesce(Get(DestWeights(Flows(rows)), d), 0) == RowsOfDest(rows, None, d)
  {
    DestWeightIs(Flows(rows), d);
    AlikeIsCredited(rows, None, d);
  }

  function Sample(protocol: string, observed: int): Row {
    Row(Some("p"), Some("10.0.0.1"), Some(443), Some(protocol), Some(observed))
  }

  lemma SampleSpelling(protocol: string, observed: int)
    requires Text.Trim(protocol) == protocol != "" && observed > 0
    ensures var r := Sample(protocol, observed);
      && Valid(r) && PodOf(r) == "p" && DestOf(r) == Dest("10.0.0.1", 443, protocol)
      && KeyOf(r) == FlowKey("p", "10.0.0.1", 443, Text.Lower(protocol)) && Weight(r) == observed
  {
    assert Text.Trim("p") == "p" && Text.Trim("10.0.0.1") == "10.0.0.1";
  }

  lemma SampleSpellings()
    ensures Text.Trim("TCP") == "TCP" != "" && Text.Trim("tcp") == "tcp" != "" && "TCP" != "tcp"
    ensures Text.Lower("TCP") == Text.Lower("tcp")
  {
    assert "TCP"[0] != "tcp"[0];
    assert Text.Lower("TCP") == "tcp" == Text.Lower("tcp");
  }

  /** Two connections of one pod, spelt TCP and tcp: the second destination weighs 3 and is credited nothing. */
  lemma SecondSpellingIsLost()
    ensures var rows, d := [Sample("TCP", 2), Sample("tcp", 3)], Dest("10.0.0.1", 443, "tcp");
      RowsOfDest(rows, Some("p"), d) == 3 && Credit(Flows(rows), Some("p"), d) == 0 && !CreditedAsObserved(rows)
  {
    var first, second := Sample("TCP", 2), Sample("tcp", 3);
    var rows, d := [first, second], Dest("10.0.0.1", 443, "tcp");
    SampleSpellings();
    SampleSpelling("TCP", 2);
    SampleSpelling("tcp", 3);
    assert rows[..1] == [first] && [first][..0] == [];
    assert RowsOfDest([first], Some("p"), d) == 0;
    assert FirstSpelling([first], KeyFor("p", d)) == Some(DestOf(first));
    FirstSpellingTakesAll(rows, "p", d);
  }

  // ---------------------------------------------------------------- keeping the heaviest

  predicate Descending<K>(e: Entries<K>) {
    forall i, j | 0 <= i < j < |e| :: e[i].1 >= e[j].1
  }

  /** Places an entry after every entry at least as heavy, so equal weights keep their order. */
  function Insert<K>(e: Entries<K>, x: (K, int)): Entries<K> {
    if e == [] || e[0].1 < x.1 then [x] + e else [e[0]] + Insert(e[1..], x)
  }

  /** `sort((a, b) => b[1] - a[1])` */
  function Sorted<K>(e: Entries<K>): Entries<K> {
    if e == [] then [] else Insert(Sorted(e[..|e| - 1]), e[|e| - 1])
  }

  lemma {:induction false} InsertSorts<K>(e: Entries<K>, x: (K, int))
    requires Descending(e)
    ensures Descending(Insert(e, x)) && Insert(e, x) != []
    ensures Insert(e, x)[0] == if e == [] || e[0].1 < x.1 then x else e[0]
  {
    if e != [] && e[0].1 >= x.1 {
      InsertSorts(e[1..], x);
      var r := Insert(e[1..], x);
      assert e[0].1 >= r[0].1;
      assert forall i | 0 <= i < |r| :: r[0].1 >= r[i].1;
    }
  }

  lemma {:induction false} InsertPermutes<K>(e: Entries<K>, x: (K, int))
    ensures multiset(Insert(e, x)) == multiset(e) + multiset{x} && |Insert(e, x)| == |e| + 1
  {
    if e != [] && e[0].1 >= x.1 {
      InsertPermutes(e[1..], x);
      assert e == [e[0]] + e[1..];
    }
  }

  lemma {:induction false} SortedSorts<K>(e: Entries<K>)
    ensures Descending(Sorted(e)) && multiset(Sorted(e)) == multiset(e) && |Sorted(e)| == |e|
  {
    if e != [] {
      var n := |e| - 1;
      SortedSorts(e[..n]);
      InsertSorts(Sorted(e[..n]), e[n]);
      InsertPermutes(Sorted(e[..n]), e[n]);
      MultisetLast(e);
    }
  }

  lemma MultisetLast<T>(s: seq<T>)
    requires s != []
    ensures multiset(s) == multiset(s[..|s| - 1]) + multiset{s[|s| - 1]}
  {
    assert s == s[..|s| - 1] + [s[|s| - 1]];
  }

  function Min(a: nat, b: nat): nat { if a <= b then a else b }

  function Top<K>(e: Entries<K>, n: nat): Entries<K> {
    Sorted(e)[..Min(n, |Sorted(e)|)]
  }

  function Dropped<K>(e: Entries<K>, n: nat): Entries<K> {
    Sorted(e)[Min(n, |Sorted(e)|)..]
  }

  /** Selection splits the entries: at most `n` are kept, and nothing dropped outweighs anything kept. */
  lemma TopKeepsHeaviest<K>(e: Entries<K>, n: nat)
    ensures |Top(e, n)| == Min(n, |e|)
    ensures multiset(Top(e, n)) + multiset(Dropped(e, n)) == multiset(e)
    ensures forall i, j | 0 <= i < |Top(e, n)| && 0 <= j < |Dropped(e, n)| :: Top(e, n)[i].1 >= Dropped(e, n)[j].1
  {
    SortedSorts(e);
    var k := Min(n, |Sorted(e)|);
    assert Sorted(e) == Sorted(e)[..k] + Sorted(e)[k..];
  }

  // ---------------------------------------------------------------- the graph

  datatype Node = PodNode(uid: string, weight: int) | DestNode(dest: Dest, weight: int)
  datatype Link = Link(pod: string, dest: Dest, value: int, key: FlowKey)
  datatype Graph = Graph(nodes: seq<Node>, links: seq<Link>, entities: nat)

  /** Half of the node budget, at least one. */
  function Half(maxNodes: int): nat {
    if maxNodes / 2 > 1 then maxNodes / 2 else 1
  }

  function PodNodes(e: Entries<string>): seq<Node> {
    seq(|e|, i requires 0 <= i < |e| => PodNode(e[i].0, e[i].1))
  }

  function DestNodes(e: Entries<Dest>): seq<Node> {
    seq(|e|, i requires 0 <= i < |e| => DestNode(e[i].0, e[i].1))
  }

  predicate Kept<K(==)>(e: Entries<K>, k: K) {
    exists i :: 0 <= i < |e| && e[i].0 == k
  }

  /** Flows between two kept nodes, paired with their weights for sorting. */
  function Inner(flows: seq<Flow>, pods: Entries<string>, dests: Entries<Dest>): Entries<Flow> {
    if flows == [] then []
    else
      var f := flows[|flows| - 1];
      Inner(flows[..|flows| - 1], pods, dests)
      + if Kept(pods, f.pod) && Kept(dests, f.dest) then [(f, f.weight)] else []
  }

  function Links(e: Entries<Flow>): seq<Link> {
    seq(|e|, i requires 0 <= i < |e| => Link(e[i].0.pod, e[i].0.dest, e[i].0.weight, e[i].0.key))
  }

  function Built(rows: seq<Row>, maxNodes: int): Graph {
    var flows := Flows(rows);
    var pods, dests := Top(PodWeights(flows), Half(maxNodes)), Top(DestWeights(flows), Half(maxNodes));
    Graph(PodNodes(pods) + DestNodes(dests), Links(Top(Inner(flows, pods, dests), MAX_LINKS)),
          |PodWeights(flows)| + |DestWeights(flows)|)
  }

  lemma {:induction false} InnerIsKept(flows: seq<Flow>, pods: Entries<string>, dests: Entries<Dest>)
    ensures forall i | 0 <= i < |Inner(flows, pods, dests)| ::
      Kept(pods, Inner(flows, pods, dests)[i].0.pod) && Kept(dests, Inner(flows, pods, dests)[i].0.dest)
  {
    if flows != [] {
      InnerIsKept(flows[..|flows| - 1], pods, dests);
    }
  }

  predicate HasPod(nodes: seq<Node>, uid: string) {
    exists i :: 0 <= i < |nodes| && nodes[i].PodNode? && nodes[i].uid == uid
  }

  predicate HasDest(nodes: seq<Node>, d: Dest) {
    exists i :: 0 <= i < |nodes| && nodes[i].DestNode? && nodes[i].dest == d
  }

  /** The budget is respected and every emitted link joins two emitted nodes. */
  lemma GraphIsBounded(rows: seq<Row>, maxNodes: int)
    ensures var g := Built(rows, maxNodes);
      && |g.nodes| <= (if maxNodes > 2 then maxNodes else 2) && |g.links| <= MAX_LINKS
      && |g.nodes| <= g.entities
      && (forall i | 0 <= i < |g.links| :: HasPod(g.nodes, g.links[i].pod) && HasDest(g.nodes, g.links[i].dest))
  {
    var flows, half := Flows(rows), Half(maxNodes);
    var pods, dests := Top(PodWeights(flows), half), Top(DestWeights(flows), half);
    TopKeepsHeaviest(PodWeights(flows), half);
    TopKeepsHeaviest(DestWeights(flows), half);
    var inner := Inner(flows, pods, dests);
    var top := Top(inner, MAX_LINKS);
    TopKeepsHeaviest(inner, MAX_LINKS);
    InnerIsKept(flows, pods, dests);
    var nodes := Built(rows, maxNodes).nodes;
    forall i | 0 <= i < |top| ensures HasPod(nodes, top[i].0.pod) && HasDest(nodes, top[i].0.dest) {
      assert top[i] in multiset(top);
      assert top[i] in multiset(inner);
      var j :| 0 <= j < |inner| && inner[j] == top[i];
      KeptIsEmittedPod(pods, dests, inner[j].0.pod);
      KeptIsEmittedDest(pods, dests, inner[j].0.dest);
    }
  }

  lemma KeptIsEmittedPod(pods: Entries<string>, dests: Entries<Dest>, uid: string)
    requires Kept(pods, uid)
    ensures HasPod(PodNodes(pods) + DestNodes(dests), uid)
  {
    var i :| 0 <= i < |pods| && pods[i].0 == uid;
    assert (PodNodes(pods) + DestNodes(dests))[i] == PodNode(uid, pods[i].1);
  }

  lemma KeptIsEmittedDest(pods: Entries<string>, dests: Entries<Dest>, d: Dest)
    requires Kept(dests, d)
    ensures HasDest(PodNodes(pods) + DestNodes(dests), d)
  {
    var j :| 0 <= j < |dests| && dests[j].0 == d;
    assert (PodNodes(pods) + DestNodes(dests))[|pods| + j] == DestNode(d, dests[j].1);
  }

  lemma {:induction false} RowsOfPodNonNegative(rows: seq<Row>, pod: string)
    ensures RowsOfPod(rows, pod) >= 0
  {
    if rows != [] {
      RowsOfPodNonNegative(rows[..|rows| - 1], pod);
    }
  }

  lemma {:induction false} AddFlowGrows(flows: seq<Flow>, f: Flow, d: Dest)
    requires f.weight > 0
    ensures Credit(AddFlow(flows, f), None, d) >= Credit(flows, None, d)
  {
    if flows != [] && flows[0].key != f.key {
      AddFlowGrows(flows[1..], f, d);
    }
  }

  lemma {:induction false} CreditNonNegative(rows: seq<Row>, d: Dest)
    ensures Credit(Flows(rows), None, d) >= 0
  {
    if rows != [] {
      var n := |rows| - 1;
      CreditNonNegative(rows[..n], d);
      if Valid(rows[n]) {
        AddFlowGrows(Flows(rows[..n]), FlowOf(rows[n]), d);
      }
    }
  }

  /** An entry left out is no heavier than any entry kept, and kept entries carry their true weight. */
  lemma LeftOutIsLighter<K>(e: Entries<K>, n: nat, k: K, i: nat)
    requires Distinct(e) && i < |Top(e, n)|
    ensures Get(e, Top(e, n)[i].0) == Some(Top(e, n)[i].1)
    ensures Get(e, k).Some? && !Kept(Top(e, n), k) ==> Top(e, n)[i].1 >= Get(e, k).value
  {
    TopKeepsHeaviest(e, n);
    assert Top(e, n)[i] in multiset(Top(e, n));
    assert Top(e, n)[i] in multiset(e);
    var j :| 0 <= j < |e| && e[j] == Top(e, n)[i];
    DistinctGet(e, j);
    if Get(e, k).Some? && !Kept(Top(e, n), k) {
      GetIndex(e, k);
      var x := (k, Get(e, k).value);
      assert x in multiset(e);
      assert x !in Top(e, n);
      assert x in multiset(Dropped(e, n));
      var d :| 0 <= d < |Dropped(e, n)| && Dropped(e, n)[d] == x;
    }
  }

  /** The graph shows the busiest pods and destinations, each with its full weight. */
  lemma BusiestAreShown(rows: seq<Row>, maxNodes: int, i: nat, uid: string, dest: Dest)
    requires i < |Built(rows, maxNodes).nodes|
    ensures var g, flows := Built(rows, maxNodes), Flows(rows);
      match g.nodes[i]
      case PodNode(u, w) =>
        && w == RowsOfPod(rows, u)
        && (!HasPod(g.nodes, uid) ==> w >= RowsOfPod(rows, uid))
      case DestNode(d, w) =>
        && w == Credit(flows, None, d)
        && (!HasDest(g.nodes, dest) ==> w >= Credit(flows, None, dest))
  {
    var flows, half := Flows(rows), Half(maxNodes);
    var pods, dests := Top(PodWeights(flows), half), Top(DestWeights(flows), half);
    WeightsDistinct(flows);
    if i < |pods| {
      LeftOutIsLighter(PodWeights(flows), half, uid, i);
      WeightIsConserved(rows, pods[i].0);
      WeightIsConserved(rows, uid);
      if Kept(pods, uid) { KeptIsEmittedPod(pods, dests, uid); }
      RowsOfPodNonNegative(rows, pods[i].0);
    } else {
      LeftOutIsLighter(DestWeights(flows), half, dest, i - |pods|);
      DestWeightIs(flows, dests[i - |pods|].0);
      DestWeightIs(flows, dest);
      if Kept(dests, dest) { KeptIsEmittedDest(pods, dests, dest); }
      CreditNonNegative(rows, dests[i - |pods|].0);
    }
  }

  // ---------------------------------------------------------------- what the graph shows

  function Keys<K>(e: Entries<K>): set<K> {
    set i | 0 <= i < |e| :: e[i].0
  }

  lemma KeysLast<K>(e: Entries<K>)
    requires e != []
    ensures Keys(e) == Keys(e[..|e| - 1]) + {e[|e| - 1].0}
  {
    var n := |e| - 1;
    forall k | k in Keys(e) ensures k in Keys(e[..n]) + {e[n].0} {
      var i :| 0 <= i < |e| && e[i].0 == k;
      assert i < n ==> e[..n][i].0 == k;
    }
    forall k | k in Keys(e[..n]) ensures k in Keys(e) {
      var i :| 0 <= i < n && e[..n][i].0 == k;
      assert e[i].0 == k;
    }
  }

  lemma {:induction false} DistinctCount<K>(e: Entries<K>)
    requires Distinct(e)
    ensures |Keys(e)| == |e|
  {
    if e != [] {
      var n := |e| - 1;
      DistinctCount(e[..n]);
      KeysLast(e);
      assert e[n].0 !in Keys(e[..n]);
    } else {
      assert Keys(e) == {};
    }
  }

  lemma BumpKeys<K>(e: Entries<K>, k: K, w: int)
    ensures Keys(Bump(e, k, w)) == Keys(e) + {k}
  {
    var after := Keys(Bump(e, k, w));
    forall j | j in after ensures j in Keys(e) + {k} {
      BumpedKey(e, k, w, j);
    }
    forall j | j in Keys(e) + {k} ensures j in after {
      BumpedKey(e, k, w, j);
    }
  }

  lemma BumpedKey<K>(e: Entries<K>, k: K, w: int, j: K)
    ensures j in Keys(Bump(e, k, w)) <==> j in Keys(e) || j == k
  {
    BumpGet(e, k, w, j);
    KeysGet(e, j);
    KeysGet(Bump(e, k, w), j);
  }

  lemma KeysGet<K>(e: Entries<K>, k: K)
    ensures k in Keys(e) <==> Get(e, k).Some?
  {
    GetIndex(e, k);
  }

  /** Sorting keeps keys distinct. */
  lemma {:induction false} InsertKeys<K>(e: Entries<K>, x: (K, int))
    requires Distinct(e) && x.0 !in Keys(e)
    ensures Distinct(Insert(e, x)) && Keys(Insert(e, x)) == Keys(e) + {x.0}
  {
    if e != [] && e[0].1 >= x.1 {
      assert Keys(e) == {e[0].0} + Keys(e[1..]) by { KeysHead(e); }
      InsertKeys(e[1..], x);
      KeysHead([e[0]] + Insert(e[1..], x));
      assert e[0].0 !in Keys(Insert(e[1..], x));
      DistinctHead(e[0], Insert(e[1..], x));
    } else {
      KeysHead([x] + e);
      DistinctHead(x, e);
    }
  }

  lemma KeysHead<K>(e: Entries<K>)
    requires e != []
    ensures Keys(e) == {e[0].0} + Keys(e[1..])
    ensures Distinct(e) ==> e[0].0 !in Keys(e[1..])
  {
    forall k | k in Keys(e) ensures k in {e[0].0} + Keys(e[1..]) {
      var i :| 0 <= i < |e| && e[i].0 == k;
      assert i > 0 ==> e[1..][i - 1].0 == k;
    }
    forall k | k in Keys(e[1..]) ensures k in Keys(e) {
      var i :| 0 <= i < |e| - 1 && e[1..][i].0 == k;
      assert e[i + 1].0 == k;
    }
  }

  lemma DistinctHead<K>(x: (K, int), e: Entries<K>)
    requires Distinct(e) && x.0 !in Keys(e)
    ensures Distinct([x] + e)
  {
    var r := [x] + e;
    forall i, j | 0 <= i < j < |r| ensures r[i].0 != r[j].0 {
      assert e[j - 1].0 in Keys(e);
    }
  }

  lemma {:induction false} SortedKeys<K>(e: Entries<K>)
    requires Distinct(e)
    ensures Distinct(Sorted(e)) && Keys(Sorted(e)) == Keys(e)
  {
    if e != [] {
      var n := |e| - 1;
      SortedKeys(e[..n]);
      KeysLast(e);
      DistinctLast(e);
      InsertKeys(Sorted(e[..n]), e[n]);
    }
  }

  lemma DistinctLast<K>(e: Entries<K>)
    requires Distinct(e) && e != []
    ensures e[|e| - 1].0 !in Keys(e[..|e| - 1])
  {
  }

  /** The selected entries: distinct, from the entries, as many as the budget or the entries allow. */
  lemma TopKeys<K>(e: Entries<K>, n: nat)
    requires Distinct(e)
    ensures Distinct(Top(e, n)) && Keys(Top(e, n)) <= Keys(e)
    ensures |Top(e, n)| == |Keys(Top(e, n))| == Min(n, |Keys(e)|)
  {
    SortedKeys(e);
    SortedSorts(e);
    DistinctCount(e);
    DistinctCount(Top(e, n));
    forall k | k in Keys(Top(e, n)) ensures k in Keys(Sorted(e)) {
      var i :| 0 <= i < |Top(e, n)| && Top(e, n)[i].0 == k;
      assert Sorted(e)[i].0 == k;
    }
  }

  // Pods, destinations and flows, as the rows name them.

  /** The pods of valid rows. */
  function PodsOf(rows: seq<Row>): set<string> {
    set i | 0 <= i < |rows| && Valid(rows[i]) :: PodOf(rows[i])
  }

  /** The flows of valid rows. */
  function KeysOf(rows: seq<Row>): set<FlowKey> {
    set i | 0 <= i < |rows| && Valid(rows[i]) :: KeyOf(rows[i])
  }

  /** Their destinations, each as the flow's first row spells it. */
  function DestsOf(rows: seq<Row>): set<Dest> {
    set k | k in KeysOf(rows) && FirstSpelling(rows, k).Some? :: FirstSpelling(rows, k).value
  }

  /** A flow as the rows give it. */
  function FlowFor(rows: seq<Row>, k: FlowKey): Flow
    requires FirstSpelling(rows, k).Some?
  {
    Flow(k.pod, FirstSpelling(rows, k).value, k, RowsOfKey(rows, k))
  }

  lemma {:induction false} KeyedAt(flows: seq<Flow>, i: nat)
    requires Keyed(flows) && i < |flows|
    ensures Lookup(flows, flows[i].key) == Some(flows[i])
  {
    if i > 0 {
      KeyedAt(flows[1..], i - 1);
    }
  }

  lemma {:induction false} LookupAt(flows: seq<Flow>, k: FlowKey)
    requires Lookup(flows, k).Some?
    ensures exists i :: 0 <= i < |flows| && flows[i] == Lookup(flows, k).value && flows[i].key == k
  {
    if flows[0].key != k {
      LookupAt(flows[1..], k);
      var i :| 0 <= i < |flows| - 1 && flows[1..][i] == Lookup(flows, k).value && flows[1..][i].key == k;
      assert flows[i + 1] == flows[1..][i];
    } else {
      assert flows[0] == Lookup(flows, k).value;
    }
  }

  lemma SpeltIffKnown(rows: seq<Row>, k: FlowKey)
    ensures FirstSpelling(rows, k).Some? <==> k in KeysOf(rows)
  {
    FirstSpellingRow(rows, k);
  }

  /** The flow at a position is the one its rows give. */
  lemma FlowAt(rows: seq<Row>, i: nat)
    requires i < |Flows(rows)|
    ensures var k := Flows(rows)[i].key;
      k in KeysOf(rows) && FirstSpelling(rows, k).Some? && Flows(rows)[i] == FlowFor(rows, k)
  {
    var k := Flows(rows)[i].key;
    FlowsLookup(rows, k);
    KeyedAt(Flows(rows), i);
    SpeltIffKnown(rows, k);
  }

  lemma FlowOfKey(rows: seq<Row>, k: FlowKey) returns (i: nat)
    requires k in KeysOf(rows)
    ensures FirstSpelling(rows, k).Some?
    ensures i < |Flows(rows)| && Flows(rows)[i] == FlowFor(rows, k)
  {
    SpeltIffKnown(rows, k);
    FlowsLookup(rows, k);
    LookupAt(Flows(rows), k);
    i :| 0 <= i < |Flows(rows)| && Flows(rows)[i] == Lookup(Flows(rows), k).value && Flows(rows)[i].key == k;
  }

  lemma {:induction false} WeightKeys(flows: seq<Flow>)
    ensures Keys(PodWeights(flows)) == set i | 0 <= i < |flows| :: flows[i].pod
    ensures Keys(DestWeights(flows)) == set i | 0 <= i < |flows| :: flows[i].dest
  {
    if flows != [] {
      var n := |flows| - 1;
      WeightKeys(flows[..n]);
      BumpKeys(PodWeights(flows[..n]), flows[n].pod, flows[n].weight);
      BumpKeys(DestWeights(flows[..n]), flows[n].dest, flows[n].weight);
      assert forall i | 0 <= i < n :: flows[..n][i] == flows[i];
      assert (set i | 0 <= i < |flows| :: flows[i].pod) == (set i | 0 <= i < n :: flows[..n][i].pod) + {flows[n].pod};
      assert (set i | 0 <= i < |flows| :: flows[i].dest)
          == (set i | 0 <= i < n :: flows[..n][i].dest) + {flows[n].dest};
    }
  }

  lemma WeighedPods(rows: seq<Row>)
    ensures Keys(PodWeights(Flows(rows))) == PodsOf(rows)
  {
    var flows := Flows(rows);
    WeightKeys(flows);
    forall p | p in PodsOf(rows) ensures p in Keys(PodWeights(flows)) {
      var r :| 0 <= r < |rows| && Valid(rows[r]) && PodOf(rows[r]) == p;
      var i := FlowOfKey(rows, KeyOf(rows[r]));
      assert flows[i].pod == p;
    }
    forall p | p in Keys(PodWeights(flows)) ensures p in PodsOf(rows) {
      var i :| 0 <= i < |flows| && flows[i].pod == p;
      FlowAt(rows, i);
      var r :| 0 <= r < |rows| && Valid(rows[r]) && KeyOf(rows[r]) == flows[i].key;
    }
  }

  lemma WeighedDests(rows: seq<Row>)
    ensures Keys(DestWeights(Flows(rows))) == DestsOf(rows)
  {
    var flows := Flows(rows);
    WeightKeys(flows);
    forall d | d in DestsOf(rows) ensures d in Keys(DestWeights(flows)) {
      var k :| k in KeysOf(rows) && FirstSpelling(rows, k) == Some(d);
      var i := FlowOfKey(rows, k);
      assert flows[i].dest == d;
    }
    forall d | d in Keys(DestWeights(flows)) ensures d in DestsOf(rows) {
      var i :| 0 <= i < |flows| && flows[i].dest == d;
      FlowAt(rows, i);
    }
  }

  function ShownPods(nodes: seq<Node>): set<string> {
    set i | 0 <= i < |nodes| && nodes[i].PodNode? :: nodes[i].uid
  }

  function ShownDests(nodes: seq<Node>): set<Dest> {
    set i | 0 <= i < |nodes| && nodes[i].DestNode? :: nodes[i].dest
  }

  lemma ShownAreSelected(pods: Entries<string>, dests: Entries<Dest>)
    ensures ShownPods(PodNodes(pods) + DestNodes(dests)) == Keys(pods)
    ensures ShownDests(PodNodes(pods) + DestNodes(dests)) == Keys(dests)
  {
    var nodes := PodNodes(pods) + DestNodes(dests);
    forall p | p in Keys(pods) ensures p in ShownPods(nodes) {
      var i :| 0 <= i < |pods| && pods[i].0 == p;
      assert nodes[i] == PodNode(p, pods[i].1);
    }
    forall d | d in Keys(dests) ensures d in ShownDests(nodes) {
      var i :| 0 <= i < |dests| && dests[i].0 == d;
      assert nodes[|pods| + i] == DestNode(d, dests[i].1);
    }
    assert forall i | 0 <= i < |nodes| ::
      nodes[i] == if i < |pods| then PodNode(pods[i].0, pods[i].1)
                  else DestNode(dests[i - |pods|].0, dests[i - |pods|].1);
  }

  /**
   How many nodes are shown: of each kind, half of the budget but at least one, or all there are;
   none is shown twice, and `entities` counts all pods and destinations.
   */
  lemma NodesShown(rows: seq<Row>, maxNodes: int)
    ensures var g, h := Built(rows, maxNodes), if maxNodes / 2 > 1 then maxNodes / 2 else 1;
      && ShownPods(g.nodes) <= PodsOf(rows) && ShownDests(g.nodes) <= DestsOf(rows)
      && |ShownPods(g.nodes)| == (if h <= |PodsOf(rows)| then h else |PodsOf(rows)|)
      && |ShownDests(g.nodes)| == (if h <= |DestsOf(rows)| then h else |DestsOf(rows)|)
      && |g.nodes| == |ShownPods(g.nodes)| + |ShownDests(g.nodes)|
      && g.entities == |PodsOf(rows)| + |DestsOf(rows)|
  {
    var flows, h := Flows(rows), Half(maxNodes);
    WeightsDistinct(flows);
    WeighedPods(rows);
    WeighedDests(rows);
    TopKeys(PodWeights(flows), h);
    TopKeys(DestWeights(flows), h);
    DistinctCount(PodWeights(flows));
    DistinctCount(DestWeights(flows));
    ShownAreSelected(Top(PodWeights(flows), h), Top(DestWeights(flows), h));
  }

  /** The flows whose pod and destination are both shown. */
  function Eligible(rows: seq<Row>, nodes: seq<Node>): set<FlowKey> {
    set k | k in KeysOf(rows) && FirstSpelling(rows, k).Some? && k.pod in ShownPods(nodes)
            && FirstSpelling(rows, k).value in ShownDests(nodes)
  }

  function ByKey(e: Entries<Flow>): Entries<FlowKey> {
    seq(|e|, i requires 0 <= i < |e| => (e[i].0.key, e[i].1))
  }

  predicate Between(f: Flow, pods: Entries<string>, dests: Entries<Dest>) {
    Kept(pods, f.pod) && Kept(dests, f.dest)
  }

  /** The candidates are the flows between selected nodes, each with its weight. */
  lemma {:induction false} InnerIs(flows: seq<Flow>, pods: Entries<string>, dests: Entries<Dest>)
    ensures var e := Inner(flows, pods, dests);
      && (forall i | 0 <= i < |e| :: e[i].1 == e[i].0.weight && Between(e[i].0, pods, dests))
      && (forall f | f in Keys(e) :: f in flows)
      && (forall j | 0 <= j < |flows| && Between(flows[j], pods, dests) :: flows[j] in Keys(e))
  {
    if flows != [] {
      var n := |flows| - 1;
      InnerIs(flows[..n], pods, dests);
      InnerStep(flows, pods, dests);
      assert forall j | 0 <= j < n :: flows[..n][j] == flows[j];
    }
  }

  lemma InnerStep(flows: seq<Flow>, pods: Entries<string>, dests: Entries<Dest>)
    requires flows != []
    ensures var n := |flows| - 1;
      Keys(Inner(flows, pods, dests)) ==
        Keys(Inner(flows[..n], pods, dests)) + if Between(flows[n], pods, dests) then {flows[n]} else {}
  {
    var n := |flows| - 1;
    var e := Inner(flows, pods, dests);
    if Between(flows[n], pods, dests) {
      KeysLast(e);
      assert e[..|e| - 1] == Inner(flows[..n], pods, dests);
    } else {
      assert e == Inner(flows[..n], pods, dests);
    }
  }

  predicate KeysApart(flows: seq<Flow>) {
    forall i, j | 0 <= i < j < |flows| :: flows[i].key != flows[j].key
  }

  lemma FlowsApart(flows: seq<Flow>)
    requires Keyed(flows)
    ensures KeysApart(flows)
  {
    forall i, j | 0 <= i < j < |flows| ensures flows[i].key != flows[j].key {
      FlowApart(flows, i, j);
    }
  }

  lemma {:induction false} FlowApart(flows: seq<Flow>, i: nat, j: nat)
    requires Keyed(flows) && i < j < |flows|
    ensures flows[i].key != flows[j].key
  {
    if i > 0 {
      FlowApart(flows[1..], i - 1, j - 1);
    } else {
      KeyedAt(flows[1..], j - 1);
    }
  }

  lemma {:induction false} InnerApart(flows: seq<Flow>, pods: Entries<string>, dests: Entries<Dest>)
    requires KeysApart(flows)
    ensures Distinct(ByKey(Inner(flows, pods, dests)))
  {
    if flows != [] {
      var n := |flows| - 1;
      InnerApart(flows[..n], pods, dests);
      InnerIs(flows[..n], pods, dests);
      var before := Inner(flows[..n], pods, dests);
      forall i | 0 <= i < |before| ensures before[i].0.key != flows[n].key {
        assert before[i].0 in Keys(before);
        var j :| 0 <= j < n && flows[..n][j] == before[i].0;
        assert flows[j] == flows[..n][j];
      }
      var e := ByKey(Inner(flows, pods, dests));
      forall i, j | 0 <= i < j < |e| ensures e[i].0 != e[j].0 {
        assert e[i].0 == before[i].0.key;
        if j < |before| {
          assert ByKey(before)[i].0 != ByKey(before)[j].0;
        }
      }
    }
  }

  /** Distinct by key is distinct by flow. */
  lemma ByKeyApart(e: Entries<Flow>)
    requires Distinct(ByKey(e))
    ensures Distinct(e)
  {
    forall i, j | 0 <= i < j < |e| ensures e[i].0 != e[j].0 {
      assert ByKey(e)[i].0 != ByKey(e)[j].0;
    }
  }

  lemma KeptIffShown(pods: Entries<string>, dests: Entries<Dest>, f: Flow)
    ensures Between(f, pods, dests) <==>
      var nodes := PodNodes(pods) + DestNodes(dests); f.pod in ShownPods(nodes) && f.dest in ShownDests(nodes)
  {
    ShownAreSelected(pods, dests);
  }

  /** The candidates are one for each flow between shown nodes. */
  lemma CandidatesAreEligible(rows: seq<Row>, pods: Entries<string>, dests: Entries<Dest>)
    ensures var e := Inner(Flows(rows), pods, dests);
      && Distinct(e) && |e| == |Eligible(rows, PodNodes(pods) + DestNodes(dests))|
      && (forall i | 0 <= i < |e| ::
            && e[i].0.key in Eligible(rows, PodNodes(pods) + DestNodes(dests)) && FirstSpelling(rows, e[i].0.key).Some?
            && e[i] == (FlowFor(rows, e[i].0.key), RowsOfKey(rows, e[i].0.key)))
      && (forall k | k in Eligible(rows, PodNodes(pods) + DestNodes(dests)) ::
            FirstSpelling(rows, k).Some? && FlowFor(rows, k) in Keys(e))
  {
    var flows := Flows(rows);
    var e, keys := Inner(flows, pods, dests), Eligible(rows, PodNodes(pods) + DestNodes(dests));
    FlowsLookup(rows, FlowKey("", "", 0, ""));
    FlowsApart(flows);
    InnerApart(flows, pods, dests);
    InnerIs(flows, pods, dests);
    ByKeyApart(e);
    forall i | 0 <= i < |e|
      ensures e[i].0.key in keys && FirstSpelling(rows, e[i].0.key).Some?
      ensures e[i] == (FlowFor(rows, e[i].0.key), RowsOfKey(rows, e[i].0.key))
    {
      assert e[i].0 in Keys(e);
      var j :| 0 <= j < |flows| && flows[j] == e[i].0;
      FlowAt(rows, j);
      KeptIffShown(pods, dests, e[i].0);
    }
    forall k | k in keys ensures FirstSpelling(rows, k).Some? && FlowFor(rows, k) in Keys(e) {
      var j := FlowOfKey(rows, k);
      KeptIffShown(pods, dests, flows[j]);
    }
    EligibleCount(rows, e, keys);
  }

  lemma EligibleCount(rows: seq<Row>, e: Entries<Flow>, keys: set<FlowKey>)
    requires Distinct(ByKey(e)) && forall i | 0 <= i < |e| :: e[i].0.key in keys
    requires forall k | k in keys :: FirstSpelling(rows, k).Some? && FlowFor(rows, k) in Keys(e)
    ensures |e| == |keys|
  {
    DistinctCount(ByKey(e));
    forall k | k in keys ensures k in Keys(ByKey(e)) {
      var i :| 0 <= i < |e| && e[i].0 == FlowFor(rows, k);
      assert ByKey(e)[i].0 == k;
    }
    assert Keys(ByKey(e)) == keys;
  }

  function LinkKeys(links: seq<Link>): set<FlowKey> {
    set i | 0 <= i < |links| :: links[i].key
  }

  /**
   Which flows become links: each link is a flow between shown nodes, once, with the weight of all
   its rows; there are 320 of them, or all there are; and none left out outweighs one that is kept.
   */
  lemma LinksShown(rows: seq<Row>, maxNodes: int)
    ensures var g := Built(rows, maxNodes);
      && LinkKeys(g.links) <= Eligible(rows, g.nodes)
      && |g.links| == |LinkKeys(g.links)|
      && |g.links| == (if 320 <= |Eligible(rows, g.nodes)| then 320 else |Eligible(rows, g.nodes)|)
      && (forall i | 0 <= i < |g.links| ::
            var k := g.links[i].key;
            && FirstSpelling(rows, k).Some?
            && g.links[i] == Link(k.pod, FirstSpelling(rows, k).value, RowsOfKey(rows, k), k))
      && (forall k, i | k in Eligible(rows, g.nodes) && k !in LinkKeys(g.links) && 0 <= i < |g.links| ::
            g.links[i].value >= RowsOfKey(rows, k))
  {
    var flows, half := Flows(rows), Half(maxNodes);
    var pods, dests := Top(PodWeights(flows), half), Top(DestWeights(flows), half);
    CandidatesAreEligible(rows, pods, dests);
    LinksOf(rows, Inner(flows, pods, dests), Eligible(rows, PodNodes(pods) + DestNodes(dests)));
  }

  lemma LinksOf(rows: seq<Row>, e: Entries<Flow>, keys: set<FlowKey>)
    requires Distinct(e) && |e| == |keys| && FromRows(rows, e) && forall i | 0 <= i < |e| :: e[i].0.key in keys
    requires forall k | k in keys :: FirstSpelling(rows, k).Some? && FlowFor(rows, k) in Keys(e)
    ensures var links := Links(Top(e, MAX_LINKS));
      && LinkKeys(links) <= keys && |links| == |LinkKeys(links)| == Min(320, |keys|)
      && (forall i | 0 <= i < |links| ::
            var k := links[i].key;
            && FirstSpelling(rows, k).Some?
            && links[i] == Link(k.pod, FirstSpelling(rows, k).value, RowsOfKey(rows, k), k))
      && (forall k, i | k in keys && k !in LinkKeys(links) && 0 <= i < |links| ::
            links[i].value >= RowsOfKey(rows, k))
  {
    var top := Top(e, MAX_LINKS);
    var links := Links(top);
    TopKeys(e, MAX_LINKS);
    DistinctCount(e);
    forall i | 0 <= i < |top| ensures top[i] in e {
      TopIsFrom(e, MAX_LINKS, i);
    }
    LinkKeysCount(rows, top);
    forall k, i | k in keys && k !in LinkKeys(links) && 0 <= i < |links| ensures links[i].value >= RowsOfKey(rows, k) {
      LeftOutFlow(rows, e, k, i);
    }
  }

  /** Every entry is a flow as its rows give it, with its weight. */
  ghost predicate FromRows(rows: seq<Row>, e: Entries<Flow>) {
    forall i | 0 <= i < |e| ::
      FirstSpelling(rows, e[i].0.key).Some? && e[i] == (FlowFor(rows, e[i].0.key), RowsOfKey(rows, e[i].0.key))
  }

  lemma LinkKeysCount(rows: seq<Row>, top: Entries<Flow>)
    requires FromRows(rows, top) && Distinct(top)
    ensures |LinkKeys(Links(top))| == |top|
  {
    forall i, j | 0 <= i < j < |top| ensures ByKey(top)[i].0 != ByKey(top)[j].0 {
      assert top[i].0 != top[j].0;
    }
    DistinctCount(ByKey(top));
    forall k | k in LinkKeys(Links(top)) ensures k in Keys(ByKey(top)) {
      var i :| 0 <= i < |top| && Links(top)[i].key == k;
      assert ByKey(top)[i].0 == k;
    }
    forall k | k in Keys(ByKey(top)) ensures k in LinkKeys(Links(top)) {
      var i :| 0 <= i < |top| && ByKey(top)[i].0 == k;
      assert Links(top)[i].key == k;
    }
    assert LinkKeys(Links(top)) == Keys(ByKey(top));
  }

  lemma KeptHasLink(top: Entries<Flow>, f: Flow)
    ensures Kept(top, f) ==> f.key in LinkKeys(Links(top))
  {
    if m :| 0 <= m < |top| && top[m].0 == f {
      assert Links(top)[m].key == f.key;
    }
  }

  lemma LeftOutFlow(rows: seq<Row>, e: Entries<Flow>, k: FlowKey, i: nat)
    requires FromRows(rows, e) && Distinct(e) && i < |Top(e, MAX_LINKS)|
    requires FirstSpelling(rows, k).Some? && FlowFor(rows, k) in Keys(e) && k !in LinkKeys(Links(Top(e, MAX_LINKS)))
    ensures Top(e, MAX_LINKS)[i].1 >= RowsOfKey(rows, k)
  {
    var top, f := Top(e, MAX_LINKS), FlowFor(rows, k);
    var j :| 0 <= j < |e| && e[j].0 == f;
    DistinctGet(e, j);
    KeptHasLink(top, f);
    LeftOutIsLighter(e, MAX_LINKS, f, i);
  }

  lemma TopIsFrom<K>(e: Entries<K>, n: nat, i: nat)
    requires i < |Top(e, n)|
    ensures Top(e, n)[i] in e
  {
    TopKeepsHeaviest(e, n);
    assert Top(e, n)[i] in multiset(Top(e, n));
    assert Top(e, n)[i] in multiset(e);
  }

  // ---------------------------------------------------------------- the algorithm

  method AggregateRows(rows: seq<Row>) returns (flows: seq<Flow>)
    ensures flows == Flows(rows)
  {
    flows := [];
    for i := 0 to |rows|
      invariant flows == Flows(rows[..i])
    {
      assert rows[..i + 1][..i] == rows[..i];
      if Valid(rows[i]) {
        flows := AddFlow(flows, FlowOf(rows[i]));
      }
    }
    assert rows[..|rows|] == rows;
  }

  method WeighNodes(flows: seq<Flow>) returns (pods: Entries<string>, dests: Entries<Dest>)
    ensures pods == PodWeights(flows) && dests == DestWeights(flows)
  {
    pods, dests := [], [];
    for i := 0 to |flows|
      invariant pods == PodWeights(flows[..i]) && dests == DestWeights(flows[..i])
    {
      assert flows[..i + 1][..i] == flows[..i];
      pods := Bump(pods, flows[i].pod, flows[i].weight);
      dests := Bump(dests, flows[i].dest, flows[i].weight);
    }
    assert flows[..|flows|] == flows;
  }

  method BuildGraph(rows: seq<Row>, maxNodes: int) returns (g: Graph)
    ensures g == Built(rows, maxNodes)
  {
    var flows := AggregateRows(rows);
    var podWeight, destWeight := WeighNodes(flows);
    var half := Half(maxNodes);
    var pods, dests := Top(podWeight, half), Top(destWeight, half);
    var inner: Entries<Flow> := [];
    for i := 0 to |flows|
      invariant inner == Inner(flows[..i], pods, dests)
    {
      assert flows[..i + 1][..i] == flows[..i];
      if Kept(pods, flows[i].pod) && Kept(dests, flows[i].dest) {
        inner := inner + [(flows[i], flows[i].weight)];
      }
    }
    assert flows[..|flows|] == flows;
    g := Graph(PodNodes(pods) + DestNodes(dests), Links(Top(inner, MAX_LINKS)), |podWeight| + |destWeight|);
  }
}
