/**
 The shipped Pod policies in the Common Expression Language: a small evaluator (sections
 "Logical Operators", "Field Selection" and "Macros" of the language definition), the legacy
 and corrected expressions, and what they decide on every well-typed Pod spec.
 */
module PolicyCel {

  datatype Value = Null | Bool(b: bool) | Text(s: string) | List(items: seq<Value>) | Map(fields: map<string, Value>)

  datatype Expr =
    | Var(name: string)
    | Literal(b: bool)
    | Select(operand: Expr, field: string)
    | Has(operand: Expr, field: string)
    | Equals(left: Expr, right: Expr)
    | Not(operand: Expr)
    | And(left: Expr, right: Expr)
    | Or(left: Expr, right: Expr)
    | Exists(range: Expr, variable: string, body: Expr)

  datatype Result = Ok(value: Value) | Error
  type Env = map<string, Value>

  function Bit(b: bool): Result { Ok(Bool(b)) }

  /** A false operand decides, even next to an error; otherwise an error or a non-bool is an error. */
  function Conjunction(a: Result, b: Result): Result {
    if a == Bit(false) || b == Bit(false) then Bit(false)
    else if a == Bit(true) && b == Bit(true) then Bit(true)
    else Error
  }

  function Disjunction(a: Result, b: Result): Result {
    if a == Bit(true) || b == Bit(true) then Bit(true)
    else if a == Bit(false) && b == Bit(false) then Bit(false)
    else Error
  }

  /** Both operators are symmetric, and true (false) exactly when both operands are. */
  lemma LogicMeans(a: Result, b: Result)
    ensures Conjunction(a, b) == Conjunction(b, a) && Disjunction(a, b) == Disjunction(b, a)
    ensures Conjunction(a, b) == Bit(true) <==> a == Bit(true) && b == Bit(true)
    ensures Conjunction(a, b) == Bit(false) <==> a == Bit(false) || b == Bit(false)
    ensures Disjunction(a, b) == Bit(false) <==> a == Bit(false) && b == Bit(false)
    ensures Disjunction(a, b) == Bit(true) <==> a == Bit(true) || b == Bit(true)
  {
  }

  function Negation(a: Result): Result {
    if a.Ok? && a.value.Bool? then Bit(!a.value.b) else Error
  }

  function Eval(e: Expr, env: Env): Result
    decreases e, 0
  {
    match e
    case Var(x) => if x in env then Ok(env[x]) else Error
    case Literal(b) => Bit(b)
    case Select(o, f) =>
      var r := Eval(o, env);
      if r.Ok? && r.value.Map? && f in r.value.fields then Ok(r.value.fields[f]) else Error
    case Has(o, f) =>
      var r := Eval(o, env);
      if r.Ok? && r.value.Map? then Bit(f in r.value.fields) else Error
    case Equals(l, r) =>
      var a, b := Eval(l, env), Eval(r, env);
      if a.Ok? && b.Ok? then Bit(a.value == b.value) else Error
    case Not(o) => Negation(Eval(o, env))
    case And(l, r) => Conjunction(Eval(l, env), Eval(r, env))
    case Or(l, r) => Disjunction(Eval(l, env), Eval(r, env))
    case Exists(range, x, body) =>
      var r := Eval(range, env);
      if r.Ok? && r.value.List? then EvalExists(r.value.items, x, body, env) else Error
  }

  /** The macro is a disjunction of the body over the elements. */
  function EvalExists(items: seq<Value>, x: string, body: Expr, env: Env): Result
    decreases body, |items|
  {
    if items == [] then Bit(false)
    else Disjunction(EvalExists(items[..|items| - 1], x, body, env), Eval(body, env[x := items[|items| - 1]]))
  }

  // ---------------------------------------------------------------- the expressions

  function IsPrivileged(c: Expr): Expr {
    And(And(Has(c, "securityContext"), Has(Select(c, "securityContext"), "privileged")),
        Equals(Select(Select(c, "securityContext"), "privileged"), Literal(true)))
  }

  function AnyPrivileged(spec: Expr, kind: string): Expr {
    And(Has(spec, kind), Exists(Select(spec, kind), "c", IsPrivileged(Var("c"))))
  }

  function SharesHost(spec: Expr, flag: string): Expr {
    And(Has(spec, flag), Equals(Select(spec, flag), Literal(true)))
  }

  const RESOURCE := Var("resource")
  const SPEC := Select(Var("object"), "spec")

  const NO_PRIVILEGED :=
    And(And(Not(AnyPrivileged(RESOURCE, "containers")), Not(AnyPrivileged(RESOURCE, "initContainers"))),
        Not(AnyPrivileged(RESOURCE, "ephemeralContainers")))

  const NO_HOST_NAMESPACES :=
    And(And(Not(SharesHost(RESOURCE, "hostNetwork")), Not(SharesHost(RESOURCE, "hostPID"))),
        Not(SharesHost(RESOURCE, "hostIPC")))

  const LEGACY_PRIVILEGED :=
    And(And(Has(Var("object"), "spec"), Has(SPEC, "containers")),
        Exists(Select(SPEC, "containers"), "c", IsPrivileged(Var("c"))))

  const LEGACY_HOST_NAMESPACES :=
    And(Has(Var("object"), "spec"),
        Or(Or(SharesHost(SPEC, "hostNetwork"), SharesHost(SPEC, "hostPID")), SharesHost(SPEC, "hostIPC")))

  // ---------------------------------------------------------------- Pod specs

  predicate WellTypedContainer(c: Value) {
    && c.Map?
    && ("securityContext" in c.fields ==>
          && c.fields["securityContext"].Map?
          && ("privileged" in c.fields["securityContext"].fields ==>
              c.fields["securityContext"].fields["privileged"].Bool?))
  }

  predicate ContainersTyped(spec: Value, kind: string)
    requires spec.Map?
  {
    kind in spec.fields ==>
      && spec.fields[kind].List?
      && forall i | 0 <= i < |spec.fields[kind].items| :: WellTypedContainer(spec.fields[kind].items[i])
  }

  predicate FlagTyped(spec: Value, flag: string)
    requires spec.Map?
  {
    flag in spec.fields ==> spec.fields[flag].Bool?
  }

  /** Any other field may hold anything. */
  predicate WellTyped(spec: Value) {
    && spec.Map?
    && ContainersTyped(spec, "containers") && ContainersTyped(spec, "initContainers")
    && ContainersTyped(spec, "ephemeralContainers")
    && FlagTyped(spec, "hostNetwork") && FlagTyped(spec, "hostPID") && FlagTyped(spec, "hostIPC")
  }

  predicate Privileged(c: Value) {
    && c.Map? && "securityContext" in c.fields && c.fields["securityContext"].Map?
    && "privileged" in c.fields["securityContext"].fields
    && c.fields["securityContext"].fields["privileged"] == Bool(true)
  }

  predicate HasPrivileged(spec: Value, kind: string)
    requires spec.Map? && ContainersTyped(spec, kind)
  {
    kind in spec.fields && exists i :: 0 <= i < |spec.fields[kind].items| && Privileged(spec.fields[kind].items[i])
  }

  predicate FlagSet(spec: Value, flag: string)
    requires spec.Map?
  {
    flag in spec.fields && spec.fields[flag] == Bool(true)
  }

  predicate HostShared(spec: Value)
    requires spec.Map?
  {
    FlagSet(spec, "hostNetwork") || FlagSet(spec, "hostPID") || FlagSet(spec, "hostIPC")
  }

  // ---------------------------------------------------------------- evaluation

  lemma {:induction false} PrivilegedEval(c: Value, env: Env)
    requires WellTypedContainer(c) && "c" in env && env["c"] == c
    ensures Eval(IsPrivileged(Var("c")), env) == Bit(Privileged(c))
  {
    var x := Var("c");
    assert Eval(x, env) == Ok(c);
    var context := Select(x, "securityContext");
    assert Eval(Has(x, "securityContext"), env) == Bit("securityContext" in c.fields);
    if "securityContext" in c.fields {
      var s := c.fields["securityContext"];
      assert Eval(context, env) == Ok(s);
      assert Eval(Has(context, "privileged"), env) == Bit("privileged" in s.fields);
      if "privileged" in s.fields {
        assert Eval(Select(context, "privileged"), env) == Ok(s.fields["privileged"]);
        assert Eval(Equals(Select(context, "privileged"), Literal(true)),
          env) == Bit(s.fields["privileged"] == Bool(true));
      }
    }
    assert Eval(And(Has(x, "securityContext"), Has(context, "privileged")), env)
        == Conjunction(Eval(Has(x, "securityContext"), env), Eval(Has(context, "privileged"), env));
  }

  lemma {:induction false} ExistsEval(items: seq<Value>, env: Env)
    requires forall i | 0 <= i < |items| :: WellTypedContainer(items[i])
    ensures EvalExists(items, "c", IsPrivileged(Var("c")), env)
         == Bit(exists i :: 0 <= i < |items| && Privileged(items[i]))
  {
    if items != [] {
      var n := |items| - 1;
      ExistsEval(items[..n], env);
      PrivilegedEval(items[n], env["c" := items[n]]);
      assert (exists i :: 0 <= i < |items| && Privileged(items[i])) <==>
             (exists i :: 0 <= i < n && Privileged(items[..n][i])) || Privileged(items[n]);
    }
  }

  lemma {:induction false} AnyPrivilegedEval(e: Expr, env: Env, spec: Value, kind: string)
    requires spec.Map? && Eval(e, env) == Ok(spec) && ContainersTyped(spec, kind)
    ensures Eval(AnyPrivileged(e, kind), env) == Bit(HasPrivileged(spec, kind))
  {
    var some := Exists(Select(e, kind), "c", IsPrivileged(Var("c")));
    assert Eval(Has(e, kind), env) == Bit(kind in spec.fields);
    if kind in spec.fields {
      assert Eval(Select(e, kind), env) == Ok(spec.fields[kind]);
      ExistsEval(spec.fields[kind].items, env);
      assert Eval(some, env) == Bit(HasPrivileged(spec, kind));
    }
    assert Eval(AnyPrivileged(e, kind), env) == Conjunction(Eval(Has(e, kind), env), Eval(some, env));
  }

  lemma {:induction false} SharesHostEval(e: Expr, env: Env, spec: Value, flag: string)
    requires spec.Map? && Eval(e, env) == Ok(spec)
    ensures Eval(SharesHost(e, flag), env) == Bit(FlagSet(spec, flag))
  {
    assert Eval(Has(e, flag), env) == Bit(flag in spec.fields);
    if flag in spec.fields {
      assert Eval(Select(e, flag), env) == Ok(spec.fields[flag]);
      assert Eval(Equals(Select(e, flag), Literal(true)), env) == Bit(spec.fields[flag] == Bool(true));
    }
    assert Eval(SharesHost(e, flag), env)
        == Conjunction(Eval(Has(e, flag), env), Eval(Equals(Select(e, flag), Literal(true)), env));
  }

  function Bound(spec: Value): Env { map["resource" := spec] }

  function BoundAsObject(spec: Value): Env { map["object" := Map(map["spec" := spec])] }

  /** The corrected privileged policy is true exactly when no container of any kind is privileged. */
  lemma {:induction false} NoPrivilegedDecides(spec: Value)
    requires WellTyped(spec)
    ensures Eval(NO_PRIVILEGED, Bound(spec)) ==
      Bit(!HasPrivileged(spec, "containers") && !HasPrivileged(spec, "initContainers")
          && !HasPrivileged(spec, "ephemeralContainers"))
  {
    var env := Bound(spec);
    assert Eval(RESOURCE, env) == Ok(spec);
    AnyPrivilegedEval(RESOURCE, env, spec, "containers");
    AnyPrivilegedEval(RESOURCE, env, spec, "initContainers");
    AnyPrivilegedEval(RESOURCE, env, spec, "ephemeralContainers");
    NotEval(AnyPrivileged(RESOURCE, "containers"), env);
    NotEval(AnyPrivileged(RESOURCE, "initContainers"), env);
    NotEval(AnyPrivileged(RESOURCE, "ephemeralContainers"), env);
    AndEval(Not(AnyPrivileged(RESOURCE, "containers")), Not(AnyPrivileged(RESOURCE, "initContainers")), env);
    AndEval(And(Not(AnyPrivileged(RESOURCE, "containers")), Not(AnyPrivileged(RESOURCE, "initContainers"))),
            Not(AnyPrivileged(RESOURCE, "ephemeralContainers")), env);
  }

  lemma {:induction false} NotEval(e: Expr, env: Env)
    ensures Eval(Not(e), env) == Negation(Eval(e, env))
  {
  }

  lemma {:induction false} AndEval(l: Expr, r: Expr, env: Env)
    ensures Eval(And(l, r), env) == Conjunction(Eval(l, env), Eval(r, env))
  {
  }

  lemma {:induction false} OrEval(l: Expr, r: Expr, env: Env)
    ensures Eval(Or(l, r), env) == Disjunction(Eval(l, env), Eval(r, env))
  {
  }

  lemma {:induction false} LegacyPrivilegedDecides(spec: Value)
    requires WellTyped(spec)
    ensures Eval(LEGACY_PRIVILEGED, BoundAsObject(spec)) == Bit(HasPrivileged(spec, "containers"))
  {
    var env := BoundAsObject(spec);
    SpecEval(spec);
    AnyPrivilegedEval(SPEC, env, spec, "containers");
    var some := Exists(Select(SPEC, "containers"), "c", IsPrivileged(Var("c")));
    AndEval(Has(SPEC, "containers"), some, env);
    AndEval(Has(Var("object"), "spec"), Has(SPEC, "containers"), env);
    AndEval(And(Has(Var("object"), "spec"), Has(SPEC, "containers")), some, env);
    assert Eval(Has(SPEC, "containers"), env) == Bit("containers" in spec.fields);
  }

  lemma {:induction false} SpecEval(spec: Value)
    ensures Eval(SPEC, BoundAsObject(spec)) == Ok(spec)
    ensures Eval(Has(Var("object"), "spec"), BoundAsObject(spec)) == Bit(true)
  {
    var env := BoundAsObject(spec);
    assert Eval(Var("object"), env) == Ok(Map(map["spec" := spec]));
  }

  lemma {:induction false} NoHostNamespacesDecides(spec: Value)
    requires spec.Map?
    ensures Eval(NO_HOST_NAMESPACES, Bound(spec)) == Bit(!HostShared(spec))
  {
    var env := Bound(spec);
    assert Eval(RESOURCE, env) == Ok(spec);
    var net, pid, ipc := SharesHost(RESOURCE, "hostNetwork"), SharesHost(RESOURCE, "hostPID"), SharesHost(RESOURCE,
      "hostIPC");
    SharesHostEval(RESOURCE, env, spec, "hostNetwork");
    SharesHostEval(RESOURCE, env, spec, "hostPID");
    SharesHostEval(RESOURCE, env, spec, "hostIPC");
    NotEval(net, env);
    NotEval(pid, env);
    NotEval(ipc, env);
    AndEval(Not(net), Not(pid), env);
    AndEval(And(Not(net), Not(pid)), Not(ipc), env);
  }

  lemma {:induction false} LegacyHostNamespacesDecides(spec: Value)
    requires spec.Map?
    ensures Eval(LEGACY_HOST_NAMESPACES, BoundAsObject(spec)) == Bit(HostShared(spec))
  {
    var env := BoundAsObject(spec);
    SpecEval(spec);
    var net, pid, ipc := SharesHost(SPEC, "hostNetwork"), SharesHost(SPEC, "hostPID"), SharesHost(SPEC, "hostIPC");
    SharesHostEval(SPEC, env, spec, "hostNetwork");
    SharesHostEval(SPEC, env, spec, "hostPID");
    SharesHostEval(SPEC, env, spec, "hostIPC");
    OrEval(net, pid, env);
    OrEval(Or(net, pid), ipc, env);
    AndEval(Has(Var("object"), "spec"), Or(Or(net, pid), ipc), env);
  }

  /**
   Corrected against legacy on one spec: neither errs; host namespaces are exact negations; the
   privileged policy implies the negated legacy one and equals it when there are only app containers.
   */
  lemma {:induction false} CorrectedAgainstLegacy(spec: Value)
    requires WellTyped(spec)
    ensures Eval(NO_HOST_NAMESPACES, Bound(spec)) == Negation(Eval(LEGACY_HOST_NAMESPACES, BoundAsObject(spec)))
    ensures Eval(NO_HOST_NAMESPACES, Bound(spec)).Ok? && Eval(NO_PRIVILEGED, Bound(spec)).Ok?
    ensures Eval(NO_PRIVILEGED, Bound(spec)) == Bit(true) ==> Eval(LEGACY_PRIVILEGED, BoundAsObject(spec)) == Bit(false)
    ensures "initContainers" !in spec.fields && "ephemeralContainers" !in spec.fields ==>
      Eval(NO_PRIVILEGED, Bound(spec)) == Negation(Eval(LEGACY_PRIVILEGED, BoundAsObject(spec)))
  {
    NoPrivilegedDecides(spec);
    LegacyPrivilegedDecides(spec);
    NoHostNamespacesDecides(spec);
    LegacyHostNamespacesDecides(spec);
  }

  /** Under the evaluator's own binding the legacy expressions name an unbound variable and never decide. */
  lemma {:induction false} LegacyNeverDecides(spec: Value)
    ensures Eval(LEGACY_PRIVILEGED, Bound(spec)) == Error
    ensures Eval(LEGACY_HOST_NAMESPACES, Bound(spec)) == Error
  {
    var env := Bound(spec);
    UnboundIsError(env);
    var net, pid, ipc := SharesHost(SPEC, "hostNetwork"), SharesHost(SPEC, "hostPID"), SharesHost(SPEC, "hostIPC");
    UnboundShare(env, "hostNetwork");
    UnboundShare(env, "hostPID");
    UnboundShare(env, "hostIPC");
    OrEval(net, pid, env);
    OrEval(Or(net, pid), ipc, env);
    AndEval(Has(Var("object"), "spec"), Or(Or(net, pid), ipc), env);
    var some := Exists(Select(SPEC, "containers"), "c", IsPrivileged(Var("c")));
    assert Eval(Select(SPEC, "containers"), env) == Error;
    assert Eval(some, env) == Error;
    assert Eval(Has(SPEC, "containers"), env) == Error;
    AndEval(Has(Var("object"), "spec"), Has(SPEC, "containers"), env);
    AndEval(And(Has(Var("object"), "spec"), Has(SPEC, "containers")), some, env);
  }

  lemma {:induction false} UnboundIsError(env: Env)
    requires "object" !in env
    ensures Eval(Has(Var("object"), "spec"), env) == Error && Eval(SPEC, env) == Error
  {
    assert Eval(Var("object"), env) == Error;
  }

  lemma {:induction false} UnboundShare(env: Env, flag: string)
    requires Eval(SPEC, env) == Error
    ensures Eval(SharesHost(SPEC, flag), env) == Error
  {
    assert Eval(Has(SPEC, flag), env) == Error;
    assert Eval(Select(SPEC, flag), env) == Error;
    assert Eval(Equals(Select(SPEC, flag), Literal(true)), env) == Error;
    AndEval(Has(SPEC, flag), Equals(Select(SPEC, flag), Literal(true)), env);
  }
}
