/** The bootstrap administrator, created or synchronised at every restart, among the other users. */
module AdminBootstrap {
  import opened Sql
  import Text

  /** A salted hash checks against its own password and no other. */
  datatype Hash = Hash(secret: string, salt: nat)

  predicate Checks(password: string, h: Hash) {
    h.secret == password
  }

  datatype User = User(
    email: string, hash: Hash, mustChange: bool, bootstrap: bool, changedAt: Option<int>, deleted: bool, rest: string)

  /** The users table by its unique username; soft-deleted rows stay in it. */
  type Users = map<string, User>

  const BUILT_IN := "Fortuna_ChangeMe_123!"

  // ---------------------------------------------------------------- environment

  /** Variables as read; '' when unset. `strong` is the password policy. */
  datatype Environment = Environment(
    username: string, password: string, default: string, email: string,
    bootstrapFlag: string, forceFlag: string, allowWeak: bool, strong: string -> bool)

  predicate Truthy(v: string) {
    var t := Text.Trim(Text.Lower(v));
    t == "1" || t == "true" || t == "yes" || t == "on"
  }

  function DefaultPassword(e: Environment): string {
    if Text.Trim(e.default) == "" then BUILT_IN else Text.Trim(e.default)
  }

  function Password(e: Environment): string {
    if Text.Trim(e.password) == "" then DefaultPassword(e) else Text.Trim(e.password)
  }

  /** The credential is the deployment's default one, or is declared to be. */
  predicate Flagged(e: Environment) {
    Text.Trim(e.password) == "" || Truthy(e.bootstrapFlag) || Text.Trim(e.password) == DefaultPassword(e)
  }

  predicate ForceChange(e: Environment) {
    Flagged(e) || Truthy(e.forceFlag)
  }

  function Username(e: Environment): string {
    if Text.Trim(e.username) == "" then "admin" else Text.Trim(e.username)
  }

  function Email(e: Environment): string {
    if Text.Trim(e.email) == "" then Username(e) + "@fortuna.local" else Text.Trim(e.email)
  }

  /** The policy passes or is waived, and the password is short enough to hash. */
  predicate Usable(e: Environment) {
    (e.strong(Password(e)) || e.allowWeak) && |Password(e)| <= 72
  }

  /** The operator configured a password of their own: not blank, not declared a bootstrap one, not the default. */
  predicate OperatorChose(e: Environment) {
    && Text.Trim(e.password) != "" && !Truthy(e.bootstrapFlag)
    && Text.Trim(e.password) != if Text.Trim(e.default) == "" then BUILT_IN else Text.Trim(e.default)
  }

  lemma FlaggedUnlessChosen(e: Environment)
    ensures Flagged(e) <==> !OperatorChose(e)
    ensures OperatorChose(e) ==> Password(e) == Text.Trim(e.password)
  {
  }

  // ---------------------------------------------------------------- one restart

  predicate Live(users: Users, name: string) {
    name in users && !users[name].deleted
  }

  /** The unique keys on username and email admit a new record; soft-deleted rows still hold theirs. */
  predicate Creatable(users: Users, name: string, email: string) {
    name !in users && forall n | n in users :: users[n].email != email
  }

  function Created(e: Environment, salt: nat): User {
    User(Email(e), Hash(Password(e), salt), ForceChange(e), Flagged(e), None, false, "role=admin active")
  }

  /** The named account, when it exists, after a restart. */
  function Synchronised(u: User, e: Environment, salt: nat, now: int): User {
    if Checks(Password(e), u.hash) then u.(mustChange := ForceChange(e), bootstrap := Flagged(e))
    else if Flagged(e) then u
    else u.(hash := Hash(Password(e), salt), mustChange := ForceChange(e), bootstrap := false, changedAt := Some(now))
  }

  predicate Succeeds(users: Users, e: Environment) {
    Usable(e) && (Live(users, Username(e)) || Creatable(users, Username(e), Email(e)))
  }

  function Bootstrapped(users: Users, e: Environment, salt: nat, now: int): Users {
    var name := Username(e);
    if !Succeeds(users, e) then users
    else users[name := if Live(users, name) then Synchronised(users[name], e, salt, now) else Created(e, salt)]
  }

  class Store {
    var users: Users

    constructor (users: Users)
      ensures this.users == users
    {
      this.users := users;
    }

    /**
     No account but the named one is touched. A missing one is created with the configured
     credential; a stored password is replaced exactly when it does not match and the credential
     is not flagged; a matching one only has its flags brought up to date.
     */
    method CreateDefaultAdmin(e: Environment, salt: nat, now: int) returns (ok: bool)
      modifies this
      ensures users == Bootstrapped(old(users), e, salt, now)
      ensures ok <==> Succeeds(old(users), e)
      ensures !ok ==> users == old(users)
      ensures users - {Username(e)} == old(users) - {Username(e)}
      ensures ok ==> Live(users, Username(e))
      ensures ok && Username(e) !in old(users) ==>
        var u := users[Username(e)];
        && Checks(Password(e), u.hash) && u.email == Email(e) && u.changedAt.None?
        && u.mustChange == (!OperatorChose(e) || Truthy(e.forceFlag)) && u.bootstrap == !OperatorChose(e)
      ensures ok && Username(e) in old(users) ==>
        var was, u := old(users)[Username(e)], users[Username(e)];
        && (u.hash != was.hash <==> !Checks(Password(e), was.hash) && OperatorChose(e))
        && (u.hash != was.hash ==> Checks(Password(e), u.hash) && u.changedAt == Some(now) && !u.bootstrap)
        && (u.hash == was.hash ==> u.changedAt == was.changedAt)
        && (Checks(Password(e), u.hash) ==>
              u.mustChange == (!OperatorChose(e) || Truthy(e.forceFlag)) && u.bootstrap == !OperatorChose(e))
        && (!Checks(Password(e), u.hash) ==> u == was)
        && u.(hash := was.hash, mustChange := was.mustChange, bootstrap := was.bootstrap,
              changedAt := was.changedAt) == was
    {
      FlaggedUnlessChosen(e);
      var password, name := Password(e), Username(e);
      if !e.strong(password) && !e.allowWeak { return false; }
      if |password| > 72 { return false; }
      var hashed := Hash(password, salt);
      if !Live(users, name) {
        if !Creatable(users, name, Email(e)) { return false; }
        users := users[name := User(Email(e), hashed, ForceChange(e), Flagged(e), None, false, "role=admin active")];
        return true;
      }
      var user := users[name];
      if !Checks(password, user.hash) {
        if Flagged(e) { return true; }
        user := user.(hash := hashed, mustChange := ForceChange(e), bootstrap := false, changedAt := Some(now));
      } else {
        if user.mustChange != ForceChange(e) { user := user.(mustChange := ForceChange(e)); }
        if user.bootstrap != Flagged(e) { user := user.(bootstrap := Flagged(e)); }
      }
      users := users[name := user];
      ok := true;
    }
  }

  /** A second restart in the same environment changes nothing at all, whatever salt and clock it draws. */
  lemma BootstrapIsIdempotent(users: Users, e: Environment, salt: nat, now: int, salt': nat, now': int)
    ensures Bootstrapped(Bootstrapped(users, e, salt, now), e, salt', now') == Bootstrapped(users, e, salt, now)
  {
    var name, after := Username(e), Bootstrapped(users, e, salt, now);
    if Succeeds(users, e) {
      assert Live(after, name);
      assert Synchronised(after[name], e, salt', now') == after[name];
    }
  }

  // ---------------------------------------------------------------- histories

  /** Restarts, and users of any name who change their password. */
  datatype Event =
    | Restarted(env: Environment, salt: nat, now: int)
    | PasswordChanged(name: string, hash: Hash, mustChange: bool, bootstrap: bool, at: int)

  function Step(users: Users, ev: Event): Users {
    match ev
    case Restarted(e, salt, now) => Bootstrapped(users, e, salt, now)
    case PasswordChanged(name, h, must, boot, at) =>
      if !Live(users, name) then users
      else users[name := users[name].(hash := h, mustChange := must, bootstrap := boot, changedAt := Some(at))]
  }

  function Run(users: Users, events: seq<Event>): Users
    decreases |events|
  {
    if events == [] then users else Run(Step(users, events[0]), events[1..])
  }

  /** The password `name` should hold: the last one its user chose or an operator rotated in for it. */
  function Chosen(name: string, secret: string, events: seq<Event>): string
    decreases |events|
  {
    if events == [] then secret
    else
      var s := match events[0]
        case Restarted(e, _, _) =>
          if Username(e) == name && OperatorChose(e) && Usable(e) then Text.Trim(e.password) else secret
        case PasswordChanged(n, h, _, _, _) => if n == name then h.secret else secret;
      Chosen(name, s, events[1..])
  }

  /**
   Over any mix of restarts, under any usernames, and password changes, each account's stored
   password is exactly the last one chosen for it: a flagged bootstrap credential never replaces
   a password it does not match, and a restart that names another account replaces none.
   */
  lemma {:induction false} StoredIsChosen(users: Users, events: seq<Event>, name: string)
    requires Live(users, name)
    ensures Live(Run(users, events), name)
    ensures Run(users, events)[name].hash.secret == Chosen(name, users[name].hash.secret, events)
    decreases |events|
  {
    if events != [] {
      if events[0].Restarted? { FlaggedUnlessChosen(events[0].env); }
      StoredIsChosen(Step(users, events[0]), events[1..], name);
    }
  }

  /**
   A restart that could use its password leaves a different stored one alone exactly when
   FORTUNA_ADMIN_PASSWORD is blank, is declared a bootstrap credential, or equals the default.
   */
  lemma HashKeptIff(users: Users, e: Environment, salt: nat, now: int)
    requires Usable(e) && Live(users, Username(e)) && !Checks(Password(e), users[Username(e)].hash)
    ensures Bootstrapped(users, e, salt, now)[Username(e)].hash == users[Username(e)].hash <==>
      || Text.Trim(e.password) == "" || Truthy(e.bootstrapFlag)
      || Text.Trim(e.password) == if Text.Trim(e.default) == "" then BUILT_IN else Text.Trim(e.default)
  {
    FlaggedUnlessChosen(e);
  }

  /** The hash `name` holds when only its user ever changes it. */
  function LastChange(name: string, h: Hash, events: seq<Event>): Hash
    decreases |events|
  {
    if events == [] then h
    else
      var next := if events[0].PasswordChanged? && events[0].name == name then events[0].hash else h;
      LastChange(name, next, events[1..])
  }

  /** Without FORTUNA_ADMIN_PASSWORD no restart, however many, touches the password of an existing account. */
  lemma {:induction false} BlankPasswordTouchesNothing(users: Users, events: seq<Event>, name: string)
    requires Live(users, name)
    requires forall i | 0 <= i < |events| && events[i].Restarted? :: Text.Trim(events[i].env.password) == ""
    ensures Live(Run(users, events), name)
    ensures Run(users, events)[name].hash == LastChange(name, users[name].hash, events)
    decreases |events|
  {
    if events != [] {
      if events[0].Restarted? { FlaggedUnlessChosen(events[0].env); }
      BlankPasswordTouchesNothing(Step(users, events[0]), events[1..], name);
    }
  }

  /** A first start with nothing configured: `admin` with the built-in password, to be changed at first login. */
  lemma FirstStart(strong: string -> bool, salt: nat, now: int)
    requires strong(BUILT_IN)
    ensures Bootstrapped(map[], Environment("", "", "", "", "", "", false, strong), salt, now) ==
      map["admin" := User("admin@fortuna.local", Hash(BUILT_IN, salt), true, true, None, false, "role=admin active")]
  {
    var e := Environment("", "", "", "", "", "", false, strong);
    assert "admin" + "@fortuna.local" == "admin@fortuna.local";
    assert Email(e) == "admin@fortuna.local";
    assert |BUILT_IN| == 21;
  }

  /** A rotation: an operator password replaces the stored one, and the force flag asks for a change. */
  lemma Rotation(users: Users, strong: string -> bool, salt: nat, now: int)
    requires Live(users, "ops") && !Checks("n3w", users["ops"].hash)
    ensures var e := Environment(" ops", "n3w ", "", "", "no", " YES", true, strong);
      Bootstrapped(users, e, salt, now) ==
        users["ops" := users["ops"].(hash := Hash("n3w", salt), mustChange := true, bootstrap := false,
                                     changedAt := Some(now))]
  {
    var e := Environment(" ops", "n3w ", "", "", "no", " YES", true, strong);
    TrimSamples();
    assert |BUILT_IN| == 21;
  }

  /** Which values switch a flag on. */
  lemma TruthyWords()
    ensures Truthy("1") && Truthy("true") && Truthy("yes") && Truthy("On")
    ensures !Truthy("") && !Truthy("0") && !Truthy("false") && !Truthy("off")
  {
    assert Text.Lower("1") == "1" && Text.Lower("true") == "true" && Text.Lower("yes") == "yes";
    assert Text.Lower("On") == "on" && Text.Lower("0") == "0" && Text.Lower("false") == "false";
    assert Text.Lower("off") == "off" && Text.Trim("off") == "off" && Text.Trim("false") == "false";
  }

  /** A first start with a configured account. */
  lemma NamedStart(strong: string -> bool, salt: nat, now: int)
    ensures Bootstrapped(map[], Environment(" ops", "n3w ", "", "o@x", "no", "no", true, strong), salt, now) ==
      map["ops" := User("o@x", Hash("n3w", salt), false, false, None, false, "role=admin active")]
  {
    TrimSamples();
    assert Text.Trim("o@x") == "o@x";
    assert |BUILT_IN| == 21;
  }

  /** A soft-deleted account still holds its name, and any account its email: then nothing is created or changed. */
  lemma TakenNameOrEmailStops(users: Users, e: Environment, salt: nat, now: int)
    requires if Username(e) in users then users[Username(e)].deleted
             else exists n :: n in users && users[n].email == Email(e)
    ensures !Succeeds(users, e) && Bootstrapped(users, e, salt, now) == users
  {
  }

  /** A free name and email are used, whatever other accounts there are. */
  lemma FreeNameIsCreated(users: Users, e: Environment, salt: nat, now: int)
    requires Username(e) !in users && (forall n | n in users :: users[n].email != Email(e)) && Usable(e)
    ensures Succeeds(users, e)
    ensures Bootstrapped(users, e, salt, now) == users[Username(e) := Created(e, salt)]
  {
  }

  lemma TrimSamples()
    ensures Text.Trim(" ops") == "ops" && Text.Trim("n3w ") == "n3w" && Truthy(" YES") && !Truthy("no")
  {
    assert Text.TrimLeft(" ops") == "ops" && Text.TrimRight("ops") == "ops";
    assert Text.TrimLeft("n3w ") == "n3w " && Text.TrimRight("n3w ") == "n3w";
    assert Text.Lower(" YES") == " yes";
    assert Text.TrimLeft(" yes") == "yes" && Text.TrimRight("yes") == "yes";
    assert Text.Lower("no") == "no" && Text.Trim("no") == "no";
  }

  /** Histories compose, and one event is one step. */
  lemma {:induction false} RunComposes(users: Users, a: seq<Event>, b: seq<Event>, ev: Event)
    ensures Run(users, a + b) == Run(Run(users, a), b) && Run(users, [ev]) == Step(users, ev)
    decreases |a|
  {
    assert Run(Step(users, ev), [ev][1..]) == Step(users, ev);
    if a == [] {
      assert a + b == b;
    } else {
      assert (a + b)[1..] == a[1..] + b;
      RunComposes(Step(users, a[0]), a[1..], b, ev);
    }
  }

  predicate Names(ev: Event, name: string) {
    match ev
    case Restarted(e, _, _) => Username(e) == name
    case PasswordChanged(n, _, _, _, _) => n == name
  }

  /** An account that no event names is exactly as it was, present or absent. */
  lemma {:induction false} OthersAreUntouched(users: Users, events: seq<Event>, name: string)
    requires forall i | 0 <= i < |events| :: !Names(events[i], name)
    ensures name in Run(users, events) <==> name in users
    ensures name in users ==> Run(users, events)[name] == users[name]
    decreases |events|
  {
    if events != [] {
      assert !Names(events[0], name);
      OthersAreUntouched(Step(users, events[0]), events[1..], name);
    }
  }

  /**
   The shipped constant itself is not always flagged: with another default configured it counts
   as an operator password. It replaces a different stored password exactly in that case.
   */
  lemma BuiltInReplacesIff(users: Users, e: Environment, salt: nat, now: int)
    requires Live(users, Username(e)) && !Checks(BUILT_IN, users[Username(e)].hash)
    requires Text.Trim(e.password) == BUILT_IN && Usable(e)
    ensures Checks(BUILT_IN, Bootstrapped(users, e, salt, now)[Username(e)].hash) <==>
      !Truthy(e.bootstrapFlag) && Text.Trim(e.default) != "" && Text.Trim(e.default) != BUILT_IN
  {
    assert |BUILT_IN| > 0;
  }
}
