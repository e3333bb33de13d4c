/** The positional migration runner and its ledger, over any series of startups, crashes and releases. */
module MigrationLedger {

  type Migration = string

  /** How running a migration ends; tolerated errors are recorded like success. */
  datatype Outcome = Succeeds | Tolerated | Fails
  datatype Crash = Lives | DiesBeforeRun | DiesBeforeRecord

  /** What happens at one position: does the ledger query answer, how does the migration end, ... */
  datatype Step = Step(queryOk: bool, outcome: Outcome, tablesOk: bool, recordOk: bool, crash: Crash)

  datatype Execution = Execution(version: nat, migration: Migration)
  datatype Ending = Completed | Refused | Crashed

  datatype Startup = Startup(release: seq<Migration>, step: nat -> Step, coreTablesOk: bool)

  predicate Increasing(log: seq<Execution>) {
    forall i, j | 0 <= i < j < |log| :: log[i].version < log[j].version
  }

  /** Version v of the release, counted from one. */
  predicate Positional(release: seq<Migration>, e: Execution) {
    1 <= e.version <= |release| && release[e.version - 1] == e.migration
  }

  /** Every recorded version names a migration of the release that ran under that version. */
  predicate NamesRan(recorded: set<nat>, log: seq<Execution>, release: seq<Migration>) {
    forall v | v in recorded :: 1 <= v <= |release| && Execution(v, release[v - 1]) in log
  }

  /** No version was ever used for two different migrations. */
  predicate OneName(log: seq<Execution>) {
    forall i, j | 0 <= i < |log| && 0 <= j < |log| && log[i].version == log[j].version :: log[i] == log[j]
  }

  /** What one startup may add to the ledger and to the history of executions. */
  ghost predicate RanOnce(s: Startup, before: set<nat>, after: set<nat>, ran: seq<Execution>) {
    && before <= after
    && Increasing(ran)
    && (forall i | 0 <= i < |ran| :: Positional(s.release, ran[i]))
    && (forall i | 0 <= i < |ran| :: ran[i].version in before ==> !s.step(ran[i].version - 1).queryOk)
    && (forall v | v in after && v !in before ::
          && 1 <= v <= |s.release| && Execution(v, s.release[v - 1]) in ran && !s.step(v - 1).outcome.Fails?)
  }

  // ---------------------------------------------------------------- what a startup does at each version

  /** The ledger answers and holds the version. */
  predicate Skips(s: Startup, before: set<nat>, v: nat)
    requires v > 0
  {
    s.step(v - 1).queryOk && v in before
  }

  predicate Runs(s: Startup, before: set<nat>, v: nat)
    requires v > 0
  {
    !Skips(s, before, v) && !s.step(v - 1).crash.DiesBeforeRun?
  }

  /** A tolerated error in the first migration, with required tables missing. */
  predicate Refuses(s: Startup, v: nat)
    requires v > 0
  {
    v == 1 && s.step(0).outcome.Tolerated? && !s.step(0).tablesOk
  }

  /** Ran to an outcome that counts as applied, and lived to record it. */
  predicate Applies(s: Startup, before: set<nat>, v: nat)
    requires v > 0
  {
    Runs(s, before, v) && s.step(v - 1).crash.Lives? && !s.step(v - 1).outcome.Fails? && !Refuses(s, v)
  }

  /** The run ends at this version. */
  predicate Halts(s: Startup, before: set<nat>, v: nat)
    requires v > 0
  {
    !Skips(s, before, v) && (!s.step(v - 1).crash.Lives? || Refuses(s, v))
  }

  function AppliedUpTo(s: Startup, before: set<nat>, n: nat): nat {
    if n == 0 then 0 else AppliedUpTo(s, before, n - 1) + if Applies(s, before, n) then 1 else 0
  }

  function SkippedUpTo(s: Startup, before: set<nat>, n: nat): nat {
    if n == 0 then 0 else SkippedUpTo(s, before, n - 1) + if Skips(s, before, n) then 1 else 0
  }

  /** What has run, and what the ledger holds, after the first `n` versions. */
  function RanUpTo(s: Startup, before: set<nat>, n: nat): seq<Execution>
    requires n <= |s.release|
  {
    if n == 0 then []
    else RanUpTo(s, before, n - 1) + if Runs(s, before, n) then [Execution(n, s.release[n - 1])] else []
  }

  function RecordedUpTo(s: Startup, before: set<nat>, n: nat): set<nat> {
    if n == 0 then before
    else RecordedUpTo(s, before, n - 1) + if Applies(s, before, n) && s.step(n - 1).recordOk then {n} else {}
  }

  lemma {:induction false} RecordedAt(s: Startup, before: set<nat>, n: nat, v: nat)
    ensures v in RecordedUpTo(s, before, n) <==>
      v in before || (0 < v <= n && Applies(s, before, v) && s.step(v - 1).recordOk)
  {
    if n > 0 {
      RecordedAt(s, before, n - 1, v);
    }
  }

  lemma {:induction false} RanAt(s: Startup, before: set<nat>, n: nat, v: nat)
    requires n <= |s.release| && 0 < v <= |s.release|
    ensures Execution(v, s.release[v - 1]) in RanUpTo(s, before, n) <==> v <= n && Runs(s, before, v)
  {
    if n > 0 {
      RanAt(s, before, n - 1, v);
      RanInOrder(s, before, n - 1);
    }
  }

  lemma {:induction false} RanInOrder(s: Startup, before: set<nat>, n: nat)
    requires n <= |s.release|
    ensures var ran := RanUpTo(s, before, n);
      && Increasing(ran)
      && forall i | 0 <= i < |ran| ::
           Positional(s.release, ran[i]) && ran[i].version <= n && Runs(s, before, ran[i].version)
  {
    if n > 0 {
      RanInOrder(s, before, n - 1);
    }
  }

  /** Up to version `reached`, what ran and what is recorded, version by version. */
  ghost predicate Done(s: Startup, before: set<nat>, after: set<nat>, ran: seq<Execution>, reached: nat) {
    && (forall v: nat :: v in after <==>
          v in before || (0 < v <= reached && Applies(s, before, v) && s.step(v - 1).recordOk))
    && (forall v | 0 < v <= |s.release| ::
          Execution(v, s.release[v - 1]) in ran <==> v <= reached && Runs(s, before, v))
  }

  lemma DoneUpTo(s: Startup, before: set<nat>, n: nat)
    requires n <= |s.release|
    ensures Done(s, before, RecordedUpTo(s, before, n), RanUpTo(s, before, n), n)
    ensures RanOnce(s, before, RecordedUpTo(s, before, n), RanUpTo(s, before, n))
  {
    var after, ran := RecordedUpTo(s, before, n), RanUpTo(s, before, n);
    forall v: nat
      ensures v in after <==> v in before || (0 < v <= n && Applies(s, before, v) && s.step(v - 1).recordOk)
    {
      RecordedAt(s, before, n, v);
    }
    forall v | 0 < v <= |s.release|
      ensures Execution(v, s.release[v - 1]) in ran <==> v <= n && Runs(s, before, v)
    {
      RanAt(s, before, n, v);
    }
    RanInOrder(s, before, n);
  }

  /** The whole of one startup: how far it got and why it stopped there, what ran, what is recorded, the counts. */
  ghost predicate StartupExactly(
    s: Startup, before: set<nat>, after: set<nat>, ran: seq<Execution>, ending: Ending, applied: nat, skipped: nat,
    reached: nat)
  {
    && reached <= |s.release| && Done(s, before, after, ran, reached) && RanOnce(s, before, after, ran)
    && applied == AppliedUpTo(s, before, reached) && skipped == SkippedUpTo(s, before, reached)
    && EndsAt(s, before, ending, reached)
  }

  ghost predicate EndsAt(s: Startup, before: set<nat>, ending: Ending, reached: nat) {
    && (forall v | 0 < v < reached :: !Halts(s, before, v))
    && (if reached > 0 && Halts(s, before, reached)
        then ending == if s.step(reached - 1).crash.Lives? then Refused else Crashed
        else reached == |s.release| && ending == if s.coreTablesOk then Completed else Refused)
  }

  function Joined(rans: seq<seq<Execution>>): seq<Execution> {
    if rans == [] then [] else Joined(rans[..|rans| - 1]) + rans[|rans| - 1]
  }

  /** Each startup in turn, from the ledger the one before left. */
  ghost predicate Chained(
    history: seq<Startup>, before: set<nat>, after: set<nat>, ledgers: seq<set<nat>>, rans: seq<seq<Execution>>,
    reached: seq<nat>)
  {
    && |ledgers| == |history| + 1 && |rans| == |reached| == |history|
    && ledgers[0] == before && ledgers[|history|] == after
    && forall i | 0 <= i < |history| ::
         && Done(history[i], ledgers[i], ledgers[i + 1], rans[i], reached[i])
         && RanOnce(history[i], ledgers[i], ledgers[i + 1], rans[i])
  }

  lemma ChainedNext(
    history: seq<Startup>, i: nat, before: set<nat>, mid: set<nat>, after: set<nat>, ledgers: seq<set<nat>>,
    rans: seq<seq<Execution>>, reached: seq<nat>, ran: seq<Execution>, far: nat)
    requires i < |history| && Chained(history[..i], before, mid, ledgers, rans, reached)
    requires Done(history[i], mid, after, ran, far) && RanOnce(history[i], mid, after, ran)
    ensures Chained(history[..i + 1], before, after, ledgers + [after], rans + [ran], reached + [far])
    ensures Joined(rans + [ran]) == Joined(rans) + ran
  {
    assert (rans + [ran])[..|rans|] == rans;
    var h, l, r, f := history[..i + 1], ledgers + [after], rans + [ran], reached + [far];
    forall j | 0 <= j < |h| ensures Done(h[j], l[j], l[j + 1], r[j], f[j]) && RanOnce(h[j], l[j], l[j + 1], r[j]) {
      if j < i {
        assert Done(history[..i][j], ledgers[j], ledgers[j + 1], rans[j], reached[j])
               && RanOnce(history[..i][j], ledgers[j], ledgers[j + 1], rans[j]);
      }
    }
  }

  class Ledger {
    var recorded: set<nat>
    var log: seq<Execution>

    constructor ()
      ensures recorded == {} && log == []
    {
      recorded, log := {}, [];
    }

    /**
     One startup. The ledger only grows, positions strictly increase, a recorded version runs
     again only when the ledger query failed, and what gets recorded ran in this startup. Up to
     the version where the run ends, each version is skipped, run and recorded exactly as its
     step says, and the counts are what was applied and skipped.
     */
    method RunMigrations(s: Startup)
      returns (ending: Ending, applied: nat, skipped: nat, ran: seq<Execution>, ghost reached: nat)
      modifies this
      ensures log == old(log) + ran
      ensures RanOnce(s, old(recorded), recorded, ran)
      ensures StartupExactly(s, old(recorded), recorded, ran, ending, applied, skipped, reached)
    {
      ending, applied, skipped, ran, reached := RunEach(s);
      DoneUpTo(s, old(recorded), reached);
    }

    method RunEach(s: Startup)
      returns (ending: Ending, applied: nat, skipped: nat, ran: seq<Execution>, ghost reached: nat)
      modifies this
      ensures log == old(log) + ran && reached <= |s.release|
      ensures ran == RanUpTo(s, old(recorded), reached) && recorded == RecordedUpTo(s, old(recorded), reached)
      ensures applied == AppliedUpTo(s, old(recorded), reached) && skipped == SkippedUpTo(s, old(recorded), reached)
      ensures EndsAt(s, old(recorded), ending, reached)
    {
      applied, skipped, ran, reached := 0, 0, [], 0;
      for i := 0 to |s.release|
        invariant log == old(log) + ran && reached == i
        invariant ran == RanUpTo(s, old(recorded), i) && recorded == RecordedUpTo(s, old(recorded), i)
        invariant applied == AppliedUpTo(s, old(recorded), i) && skipped == SkippedUpTo(s, old(recorded), i)
        invariant forall v | 0 < v <= i :: !Halts(s, old(recorded), v)
      {
        var version, step := i + 1, s.step(i);
        RecordedAt(s, old(recorded), i, version);
        reached := version;
        if step.queryOk && version in recorded {
          skipped := skipped + 1;
          continue;
        }
        if step.crash.DiesBeforeRun? { return Crashed, applied, skipped, ran, reached; }
        var e := Execution(version, s.release[i]);
        log, ran := log + [e], ran + [e];
        if step.crash.DiesBeforeRecord? { return Crashed, applied, skipped, ran, reached; }
        if step.outcome.Fails? { continue; }
        if step.outcome.Tolerated? && i == 0 && !step.tablesOk { return Refused, applied, skipped, ran, reached; }
        if step.recordOk {
          recorded := recorded + {version};
        }
        applied := applied + 1;
      }
      ending := if s.coreTablesOk then Completed else Refused;
    }

    /** Any series of startups whose releases only append to the list. */
    method RunHistory(history: seq<Startup>, base: seq<Migration>)
      returns (ghost ledgers: seq<set<nat>>, ghost rans: seq<seq<Execution>>, ghost reached: seq<nat>)
      requires NamesRan(recorded, log, base) && OneName(log)
      requires forall i | 0 <= i < |log| :: Positional(base, log[i])
      requires forall i | 0 <= i < |history| :: base <= history[i].release
      requires forall i, j | 0 <= i < j < |history| :: history[i].release <= history[j].release
      modifies this
      ensures Chained(history, old(recorded), recorded, ledgers, rans, reached) && log == old(log) + Joined(rans)
      ensures old(recorded) <= recorded && old(log) <= log
      ensures NamesRan(recorded, log, if history == [] then base else history[|history| - 1].release)
      ensures OneName(log)
    {
      ledgers, rans, reached := RunAll(history);
      ghost var n := |history|;
      NamesAlong(history, base, old(log), ledgers, rans, reached, n);
      assert rans[..n] == rans;
    }

    method RunAll(history: seq<Startup>)
      returns (ghost ledgers: seq<set<nat>>, ghost rans: seq<seq<Execution>>, ghost reached: seq<nat>)
      modifies this
      ensures Chained(history, old(recorded), recorded, ledgers, rans, reached) && log == old(log) + Joined(rans)
    {
      ledgers, rans, reached := [recorded], [], [];
      for i := 0 to |history|
        invariant Chained(history[..i], old(recorded), recorded, ledgers, rans, reached)
        invariant log == old(log) + Joined(rans)
      {
        ghost var known := recorded;
        var ending, applied, skipped, ran, far := RunMigrations(history[i]);
        ChainedNext(history, i, old(recorded), known, recorded, ledgers, rans, reached, ran, far);
        ledgers, rans, reached := ledgers + [recorded], rans + [ran], reached + [far];
      }
      assert history[..|history|] == history;
    }
  }

  /** The release in force after the first `i` startups. */
  function ReleaseAt(history: seq<Startup>, base: seq<Migration>, i: nat): seq<Migration>
    requires i <= |history|
  {
    if i == 0 then base else history[i - 1].release
  }

  lemma {:induction false} NamesAlong(
    history: seq<Startup>, base: seq<Migration>, past: seq<Execution>, ledgers: seq<set<nat>>,
    rans: seq<seq<Execution>>, reached: seq<nat>, i: nat)
    requires i <= |history| && |ledgers| == |history| + 1
    requires Chained(history, ledgers[0], ledgers[|history|], ledgers, rans, reached)
    requires NamesRan(ledgers[0], past, base) && forall k | 0 <= k < |past| :: Positional(base, past[k])
    requires forall j | 0 <= j < |history| :: base <= history[j].release
    requires forall j, k | 0 <= j < k < |history| :: history[j].release <= history[k].release
    ensures var log, release := past + Joined(rans[..i]), ReleaseAt(history, base, i);
      && ledgers[0] <= ledgers[i] && NamesRan(ledgers[i], log, release)
      && forall k | 0 <= k < |log| :: Positional(release, log[k])
  {
    if i > 0 {
      NamesAlong(history, base, past, ledgers, rans, reached, i - 1);
      var log := past + Joined(rans[..i - 1]);
      assert rans[..i][..i - 1] == rans[..i - 1];
      assert past + Joined(rans[..i]) == log + rans[i - 1];
      assert Done(history[i - 1], ledgers[i - 1], ledgers[i], rans[i - 1], reached[i - 1])
             && RanOnce(history[i - 1], ledgers[i - 1], ledgers[i], rans[i - 1]);
      AppendKeepsNames(ReleaseAt(history, base, i - 1), history[i - 1], ledgers[i - 1], log, ledgers[i], rans[i - 1]);
    }
  }

  lemma AppendKeepsNames(
    release: seq<Migration>, s: Startup, known: set<nat>, past: seq<Execution>, recorded: set<nat>, ran: seq<Execution>)
    requires release <= s.release && NamesRan(known, past, release)
    requires forall k | 0 <= k < |past| :: Positional(release, past[k])
    requires RanOnce(s, known, recorded, ran)
    ensures NamesRan(recorded, past + ran, s.release)
    ensures forall k | 0 <= k < |past + ran| :: Positional(s.release, (past + ran)[k])
  {
    forall v | v in recorded ensures 1 <= v <= |s.release| && Execution(v, s.release[v - 1]) in past + ran {
      if v in known {
        assert s.release[v - 1] == release[v - 1];
      }
    }
  }

  /** At every version the ledger answers and records, and the migration neither fails nor takes the process down. */
  ghost predicate Smooth(s: Startup) {
    forall i: nat :: s.step(i).queryOk && s.step(i).recordOk && s.step(i).crash.Lives? && !s.step(i).outcome.Fails?
  }

  lemma SomethingRan(t: Startup, before: set<nat>, after: set<nat>, ran: seq<Execution>, reached: nat)
    requires RanOnce(t, before, after, ran) && Done(t, before, after, ran, reached) && ran != []
    ensures exists v :: 0 < v <= |t.release| && Runs(t, before, v)
  {
    assert Positional(t.release, ran[0]) && ran[0] in ran;
    assert Runs(t, before, ran[0].version);
  }

  /** After a smooth completed startup, another startup of the same release runs nothing while the ledger answers. */
  lemma SecondRunsNothing(
    s: Startup, before: set<nat>, mid: set<nat>, ran: seq<Execution>, ending: Ending, applied: nat, skipped: nat,
    reached: nat, t: Startup, after: set<nat>, ran': seq<Execution>, ending': Ending, applied': nat, skipped': nat,
    reached': nat)
    requires StartupExactly(s, before, mid, ran, ending, applied, skipped, reached) && Smooth(s) && ending.Completed?
    requires StartupExactly(t, mid, after, ran', ending', applied', skipped', reached')
    requires t.release == s.release && forall i: nat :: t.step(i).queryOk
    ensures forall v | 0 < v <= |s.release| :: v in mid
    ensures ran' == [] && after == mid && applied' == 0 && skipped' == |s.release|
  {
    forall v | 0 < v <= |s.release| ensures v in mid && Skips(t, mid, v) {
      assert !Halts(s, before, v);
    }
    if ran' != [] {
      SomethingRan(t, mid, after, ran', reached');
    }
    assert after == mid;
    AllSkipped(t, mid, reached');
  }

  lemma {:induction false} AllSkipped(t: Startup, mid: set<nat>, n: nat)
    requires forall v | 0 < v <= n :: Skips(t, mid, v)
    ensures SkippedUpTo(t, mid, n) == n && AppliedUpTo(t, mid, n) == 0
  {
    if n > 0 {
      AllSkipped(t, mid, n - 1);
    }
  }

  /**
   Without append-only lists the ledger's meaning depends on the positions: it survives a
   change of release exactly when every recorded position still holds the same migration.
   */
  lemma LedgerSurvivesIff(recorded: set<nat>, log: seq<Execution>, before: seq<Migration>, after: seq<Migration>)
    requires NamesRan(recorded, log, before) && OneName(log)
    ensures NamesRan(recorded, log, after) <==>
      forall v | v in recorded :: v <= |after| && after[v - 1] == before[v - 1]
  {
    forall v | v in recorded && v <= |after| && Execution(v, after[v - 1]) in log
      ensures after[v - 1] == before[v - 1]
    {
      var i :| 0 <= i < |log| && log[i] == Execution(v, after[v - 1]);
      var j :| 0 <= j < |log| && log[j] == Execution(v, before[v - 1]);
      assert log[i] == log[j];
    }
  }

  /** Inserting a migration at the front makes the ledger claim one that never ran under its version. */
  lemma InsertionBreaksLedger(a: Migration, b: Migration, inserted: Migration)
    requires a != inserted
    ensures var log := [Execution(1, a), Execution(2, b)];
      NamesRan({1, 2}, log, [a, b]) && !NamesRan({1, 2}, log, [inserted, a, b])
  {
    var log := [Execution(1, a), Execution(2, b)];
    assert Execution(1, inserted) !in log;
    assert log[0] in log && log[1] in log;
  }
}
