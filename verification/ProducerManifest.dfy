/** The runtime producer manifest: its validation, and the declarations every Agent sends. */
module ProducerManifest {
  import Text

  datatype Declaration = Declaration(producer: string, source: string, enabled: bool, authoritative: bool)
  datatype AgentState = Running | Stopping | OtherState(name: string)
  datatype Manifest = Manifest(
    version: int, session: string, startedAt: int, reportedAt: int, state: AgentState, producers: seq<Declaration>)

  const REGISTRY: map<string, string> :=
    map["runtime-file" := "file", "falco" := "falco",
        "ebpf-exec" := "ebpf", "ebpf-connect" := "ebpf", "ebpf-all" := "ebpf"]
  const ZERO_TIME := -62_135_596_800_000_000
  const MINUTE := 60_000_000
  const LEASE_MAX_AGE := MINUTE

  // ---------------------------------------------------------------- what acceptance means

  predicate HeaderOk(m: Manifest, now: int) {
    && m.version == 1 && 16 <= |m.session| <= 128 && Text.Trim(m.session) == m.session
    && !m.state.OtherState?
    && m.startedAt != ZERO_TIME && m.reportedAt != ZERO_TIME && m.startedAt <= m.reportedAt
    && now - 2 * LEASE_MAX_AGE <= m.reportedAt <= now + MINUTE
  }

  type Registry = map<string, string>

  predicate DeclarationOk(reg: Registry, d: Declaration, stopping: bool) {
    && d.producer in reg && reg[d.producer] == d.source
    && !d.authoritative && !(stopping && d.enabled)
  }

  predicate AllOk(reg: Registry, ps: seq<Declaration>, stopping: bool) {
    forall i | 0 <= i < |ps| :: DeclarationOk(reg, ps[i], stopping)
  }

  predicate NoRepeat(ps: seq<Declaration>) {
    forall i, j | 0 <= i < j < |ps| :: ps[i].producer != ps[j].producer
  }

  predicate Conforms(reg: Registry, ps: seq<Declaration>, stopping: bool) {
    |ps| == |reg| && NoRepeat(ps) && AllOk(reg, ps, stopping)
  }

  method Validate(m: Manifest, now: int) returns (ok: bool)
    ensures ok <==> HeaderOk(m, now) && Conforms(REGISTRY, m.producers, m.state.Stopping?)
  {
    if m.version != 1 || |m.session| < 16 || |m.session| > 128 || Text.Trim(m.session) != m.session { return false; }
    if m.state.OtherState? { return false; }
    if m.startedAt == ZERO_TIME || m.reportedAt == ZERO_TIME || m.reportedAt < m.startedAt
       || m.reportedAt > now + MINUTE || m.reportedAt < now - 2 * LEASE_MAX_AGE { return false; }
    ok := ValidateProducers(REGISTRY, m.producers, m.state.Stopping?);
  }

  /** The loop over the declarations, filling `seen`. */
  method ValidateProducers(reg: Registry, ps: seq<Declaration>, stopping: bool) returns (ok: bool)
    ensures ok <==> Conforms(reg, ps, stopping)
  {
    if |ps| != |reg| { return false; }
    var seen: set<string> := {};
    for i := 0 to |ps|
      invariant seen == Named(ps[..i])
      invariant forall j, k | 0 <= j < k < i :: ps[j].producer != ps[k].producer
      invariant forall j | 0 <= j < i :: DeclarationOk(reg, ps[j], stopping)
    {
      var p := ps[i];
      NamedIndex(ps[..i], p.producer);
      if p.producer in seen {
        var j :| 0 <= j < |ps[..i]| && ps[..i][j].producer == p.producer;
        assert ps[j].producer == p.producer;
        return false;
      }
      if p.producer !in reg || reg[p.producer] != p.source { return false; }
      if p.authoritative || (stopping && p.enabled) { return false; }
      forall j | 0 <= j < i ensures ps[j].producer != p.producer {
        assert ps[..i][j] == ps[j];
      }
      assert ps[..i + 1][..i] == ps[..i];
      seen := seen + {p.producer};
    }
    ok := true;
  }

  // ---------------------------------------------------------------- pigeonhole

  function Named(ps: seq<Declaration>): set<string> {
    if ps == [] then {} else Named(ps[..|ps| - 1]) + {ps[|ps| - 1].producer}
  }

  lemma {:induction false} NamedIndex(ps: seq<Declaration>, id: string)
    ensures id in Named(ps) <==> exists i :: 0 <= i < |ps| && ps[i].producer == id
  {
    if ps != [] {
      var n := |ps| - 1;
      NamedIndex(ps[..n], id);
      assert forall i | 0 <= i < n :: ps[..n][i] == ps[i];
    }
  }

  /** A list names as many producers as it has entries exactly when none repeats. */
  lemma {:induction false} NamedSize(ps: seq<Declaration>)
    ensures |Named(ps)| <= |ps|
    ensures |Named(ps)| == |ps| <==> NoRepeat(ps)
  {
    if ps != [] {
      var n := |ps| - 1;
      NamedSize(ps[..n]);
      NamedIndex(ps[..n], ps[n].producer);
      assert forall i | 0 <= i < n :: ps[..n][i] == ps[i];
      assert NoRepeat(ps) <==> NoRepeat(ps[..n]) && ps[n].producer !in Named(ps[..n]);
    }
  }

  lemma SameSize(s: set<string>, t: set<string>)
    requires s <= t
    ensures |s| <= |t| && (|s| == |t| ==> s == t)
  {
    assert t == s + (t - s);
    assert |t| == |s| + |t - s|;
  }

  lemma {:induction false} NamedWithin(reg: Registry, ps: seq<Declaration>, stopping: bool)
    requires AllOk(reg, ps, stopping)
    ensures Named(ps) <= reg.Keys
  {
    if ps != [] {
      NamedWithin(reg, ps[..|ps| - 1], stopping);
    }
  }

  /** Not repeating and naming every registered producer are the same thing at the registry's length. */
  lemma CompleteIffDistinct(reg: Registry, ps: seq<Declaration>, stopping: bool)
    requires |ps| == |reg| && AllOk(reg, ps, stopping)
    ensures NoRepeat(ps) <==> Named(ps) == reg.Keys
  {
    NamedSize(ps);
    NamedWithin(reg, ps, stopping);
    SameSize(Named(ps), reg.Keys);
  }

  /** An accepted manifest declares each registered producer exactly once, with its registered source. */
  lemma AcceptedIsTheRegistry(reg: Registry, ps: seq<Declaration>, stopping: bool, id: string)
    requires Conforms(reg, ps, stopping)
    ensures id in reg <==> exists i :: 0 <= i < |ps| && ps[i].producer == id
    ensures forall i, j | 0 <= i < |ps| && 0 <= j < |ps| && ps[i].producer == id == ps[j].producer ::
      i == j && ps[i].source == reg[id]
  {
    CompleteIffDistinct(reg, ps, stopping);
    NamedIndex(ps, id);
  }

  /** Acceptance does not depend on the order of the declarations. */
  lemma AcceptanceIgnoresOrder(reg: Registry, ps: seq<Declaration>, qs: seq<Declaration>, stopping: bool)
    requires multiset(ps) == multiset(qs)
    ensures Conforms(reg, ps, stopping) <==> Conforms(reg, qs, stopping)
  {
    assert |ps| == |multiset(ps)| == |multiset(qs)| == |qs|;
    SameMembers(reg, ps, qs, stopping);
    SameMembers(reg, qs, ps, stopping);
    if |ps| == |reg| && AllOk(reg, ps, stopping) {
      CompleteIffDistinct(reg, ps, stopping);
      CompleteIffDistinct(reg, qs, stopping);
    }
  }

  lemma SameMembers(reg: Registry, ps: seq<Declaration>, qs: seq<Declaration>, stopping: bool)
    requires multiset(ps) == multiset(qs)
    ensures Named(ps) <= Named(qs)
    ensures AllOk(reg, qs, stopping) ==> AllOk(reg, ps, stopping)
  {
    forall i | 0 <= i < |ps| ensures exists j :: 0 <= j < |qs| && qs[j] == ps[i] {
      assert ps[i] in multiset(qs);
    }
    forall id | id in Named(ps) ensures id in Named(qs) {
      NamedIndex(ps, id);
      NamedIndex(qs, id);
      var i :| 0 <= i < |ps| && ps[i].producer == id;
      var j :| 0 <= j < |qs| && qs[j] == ps[i];
    }
  }

  // ---------------------------------------------------------------- the Agent's side

  predicate AtMost(a: Declaration, b: Declaration) {
    !Text.Less(b.producer, a.producer)
  }

  predicate Ordered(ps: seq<Declaration>) {
    forall i, j | 0 <= i < j < |ps| :: AtMost(ps[i], ps[j])
  }

  /** Index of a least declaration from position `lo` on. */
  method LeastFrom(a: array<Declaration>, lo: nat) returns (k: nat)
    requires lo < a.Length
    ensures lo <= k < a.Length && forall j | lo <= j < a.Length :: AtMost(a[k], a[j])
  {
    k := lo;
    Text.LessAsymmetric(a[lo].producer, a[lo].producer);
    for i := lo + 1 to a.Length
      invariant lo <= k < a.Length && forall j | lo <= j < i :: AtMost(a[k], a[j])
    {
      Text.LessAsymmetric(a[i].producer, a[i].producer);
      if Text.Less(a[i].producer, a[k].producer) {
        Text.LessAsymmetric(a[i].producer, a[k].producer);
        forall j | lo <= j < i ensures AtMost(a[i], a[j]) {
          Text.AtMostTransitive(a[i].producer, a[k].producer, a[j].producer);
        }
        k := i;
      }
    }
  }

  /** `sort.Slice` by producer id, in place. */
  method SortDeclarations(a: array<Declaration>)
    modifies a
    ensures Ordered(a[..]) && multiset(a[..]) == multiset(old(a[..]))
  {
    for n := 0 to a.Length
      invariant forall i, j | 0 <= i < n && i < j < a.Length :: AtMost(a[i], a[j])
      invariant multiset(a[..]) == multiset(old(a[..]))
    {
      var k := LeastFrom(a, n);
      a[n], a[k] := a[k], a[n];
    }
  }

  datatype Config = Config(runtimeEvents: bool, falcoEvents: bool, ebpf: bool, ebpfMode: string)

  function NormalizedMode(mode: string): string {
    var m := Text.Lower(Text.Trim(mode));
    if m == "exec" || m == "connect" || m == "all" then m else "exec"
  }

  function ProducerForMode(mode: string): string {
    "ebpf-" + NormalizedMode(mode)
  }

  function Initial(cfg: Config): seq<Declaration> {
    [ Declaration("runtime-file", "file", cfg.runtimeEvents, false),
      Declaration("falco", "falco", cfg.falcoEvents, false),
      Declaration("ebpf-exec", "ebpf", false, false),
      Declaration("ebpf-connect", "ebpf", false, false),
      Declaration("ebpf-all", "ebpf", false, false) ]
  }

  function Switched(d: Declaration, selected: string): Declaration {
    if d.producer == selected then d.(enabled := true, authoritative := false) else d
  }

  /** The selected eBPF producer is switched on, and nothing else changes. */
  function Declared(cfg: Config, ps: seq<Declaration>): seq<Declaration> {
    if cfg.ebpf then seq(|ps|, i requires 0 <= i < |ps| => Switched(ps[i], ProducerForMode(cfg.ebpfMode))) else ps
  }

  lemma InitialNames(cfg: Config)
    ensures Named(Initial(cfg)) == REGISTRY.Keys
  {
    var ps := Initial(cfg);
    assert Named(ps[..1]) == {"runtime-file"} by { assert ps[..1][..0] == []; }
    assert Named(ps[..2]) == {"runtime-file", "falco"} by { assert ps[..2][..1] == ps[..1]; }
    assert Named(ps[..3]) == {"runtime-file", "falco", "ebpf-exec"} by { assert ps[..3][..2] == ps[..2]; }
    assert Named(ps[..4]) == {"runtime-file", "falco", "ebpf-exec", "ebpf-connect"} by {
      assert ps[..4][..3] == ps[..3];
    }
  }

  lemma InitialNoRepeat(cfg: Config)
    ensures NoRepeat(Initial(cfg))
  {
    var ps := Initial(cfg);
    assert |ps[0].producer| == |ps[3].producer| == 12 && ps[0].producer[0] == 'r' && ps[3].producer[0] == 'e';
    assert |ps[1].producer| == 5 && |ps[2].producer| == 9 && |ps[4].producer| == 8;
  }

  lemma InitialOk(cfg: Config)
    ensures AllOk(REGISTRY, Initial(cfg), false)
  {
  }

  lemma DeclaredConforms(cfg: Config)
    ensures Conforms(REGISTRY, Declared(cfg, Initial(cfg)), false)
  {
    InitialNames(cfg);
    InitialNoRepeat(cfg);
    InitialOk(cfg);
    NamedSize(Initial(cfg));
    SwitchingConforms(REGISTRY, cfg, Initial(cfg));
  }

  lemma SwitchingConforms(reg: Registry, cfg: Config, ps: seq<Declaration>)
    requires Conforms(reg, ps, false)
    ensures Conforms(reg, Declared(cfg, ps), false)
  {
    var qs := Declared(cfg, ps);
    assert forall i | 0 <= i < |qs| :: qs[i].producer == ps[i].producer && DeclarationOk(reg, ps[i], false);
  }

  method SwitchOn(a: array<Declaration>, cfg: Config)
    modifies a
    ensures a[..] == Declared(cfg, old(a[..]))
  {
    if cfg.ebpf {
      var selected := ProducerForMode(cfg.ebpfMode);
      for i := 0 to a.Length
        invariant forall j | 0 <= j < i :: a[j] == Switched(old(a[j]), selected)
        invariant forall j | i <= j < a.Length :: a[j] == old(a[j])
      {
        if a[i].producer == selected {
          a[i] := a[i].(enabled := true, authoritative := false);
        }
      }
    }
  }

  /** Which producers a configuration runs: any eBPF mode but connect and all means exec. */
  predicate Runs(cfg: Config, producer: string) {
    var mode := Text.Lower(Text.Trim(cfg.ebpfMode));
    match producer
    case "runtime-file" => cfg.runtimeEvents
    case "falco" => cfg.falcoEvents
    case "ebpf-connect" => cfg.ebpf && mode == "connect"
    case "ebpf-all" => cfg.ebpf && mode == "all"
    case "ebpf-exec" => cfg.ebpf && mode != "connect" && mode != "all"
    case _ => false
  }

  lemma ModeNames(mode: string)
    ensures var m := Text.Lower(Text.Trim(mode));
      ProducerForMode(mode) == if m == "connect" then "ebpf-connect" else if m == "all" then "ebpf-all" else "ebpf-exec"
  {
    assert "ebpf-" + "connect" == "ebpf-connect" && "ebpf-" + "all" == "ebpf-all" && "ebpf-" + "exec" == "ebpf-exec";
  }

  lemma ProducersApart()
    ensures |"ebpf-exec"| == 9 && |"ebpf-connect"| == 12 && |"ebpf-all"| == 8
    ensures |"falco"| == 5 && |"runtime-file"| == 12
    ensures "ebpf-connect"[0] == 'e' && "runtime-file"[0] == 'r'
  {
  }

  /** A declaration is enabled exactly when the configuration runs that producer, and none is authoritative. */
  lemma EnabledIffRuns(cfg: Config, i: nat)
    requires i < |Declared(cfg, Initial(cfg))|
    ensures var d := Declared(cfg, Initial(cfg))[i]; (d.enabled <==> Runs(cfg, d.producer)) && !d.authoritative
  {
    ModeNames(cfg.ebpfMode);
    ProducersApart();
    assert Initial(cfg)[i].producer == ["runtime-file", "falco", "ebpf-exec", "ebpf-connect", "ebpf-all"][i];
  }

  lemma EnabledInAnyOrder(cfg: Config, ps: seq<Declaration>)
    requires multiset(ps) == multiset(Declared(cfg, Initial(cfg)))
    ensures forall i | 0 <= i < |ps| :: (ps[i].enabled <==> Runs(cfg, ps[i].producer)) && !ps[i].authoritative
  {
    var all := Declared(cfg, Initial(cfg));
    forall i | 0 <= i < |ps| ensures (ps[i].enabled <==> Runs(cfg, ps[i].producer)) && !ps[i].authoritative {
      assert ps[i] in multiset(ps);
      assert ps[i] in multiset(all);
      var j :| 0 <= j < |all| && all[j] == ps[i];
      EnabledIffRuns(cfg, j);
    }
  }

  /** Whatever the configuration, what the Agent sends is sorted, meets the producer rules and says what runs. */
  method RuntimeProducerDeclarations(cfg: Config) returns (ps: seq<Declaration>)
    ensures Conforms(REGISTRY, ps, false) && Ordered(ps)
    ensures multiset(ps) == multiset(Declared(cfg, Initial(cfg)))
    ensures forall i | 0 <= i < |ps| :: (ps[i].enabled <==> Runs(cfg, ps[i].producer)) && !ps[i].authoritative
  {
    var list := Initial(cfg);
    var a := new Declaration[|list|](i requires 0 <= i < |list| => list[i]);
    assert a[..] == list;
    SwitchOn(a, cfg);
    SortDeclarations(a);
    ps := a[..];
    DeclaredConforms(cfg);
    AcceptanceIgnoresOrder(REGISTRY, Declared(cfg, list), ps, false);
    EnabledInAnyOrder(cfg, ps);
  }
}
