/**
 Runtime-coverage evidence: the validator of incoming reports, the SQL contract that stored
 rows must meet, and the startup backfill of the receipt history.
 */
module RuntimeCoverage {
  import opened Sql
  import Text

  // ---------------------------------------------------------------- reports

  /** Times are integers at column precision (microseconds); counters are unsigned. */
  datatype Report = Report(
    version: int, id: string, producer: string, source: string, session: string, status: string,
    windowStart: int, windowEnd: int,
    emitted: nat, delivered: nat, dropped: nat, invalid: nat, errors: nat, reason: string)

  const VERSION := 1
  const MINUTE := 60_000_000
  const ZERO_TIME := -62_135_596_800_000_000    // the first instant of year 1

  predicate Trimmed(s: string) {
    Text.Trim(s) == s
  }

  predicate Registered(source: string, producer: string) {
    match source
    case "file" => producer == "runtime-file"
    case "falco" => producer == "falco"
    case "ebpf" => producer == "ebpf-exec" || producer == "ebpf-connect" || producer == "ebpf-all"
    case _ => false
  }

  datatype Rule =
    | Identity | ProducerRequired | SessionRequired | UnsupportedSource | SourceMismatch | Status | Interval
    | OverDelivered | CompleteWithLoss | FailedWithoutReason | ReasonTooLong

  /** The first rule the report breaks, or None. */
  function Validate(c: Report, now: int): Option<Rule> {
    if c.version != VERSION || |c.id| < 16 || |c.id| > 128 || !Trimmed(c.id) then Some(Identity)
    else if Text.Trim(c.producer) == "" || |c.producer| > 128 || !Trimmed(c.producer) then Some(ProducerRequired)
    else if |c.session| < 16 || |c.session| > 128 || !Trimmed(c.session) then Some(SessionRequired)
    else if c.source != "file" && c.source != "falco" && c.source != "ebpf" then Some(UnsupportedSource)
    else if !Registered(c.source, c.producer) then Some(SourceMismatch)
    else if c.status != "complete" && c.status != "failed" then Some(Status)
    else if c.windowStart == ZERO_TIME || c.windowEnd <= c.windowStart || c.windowEnd > now + MINUTE then Some(Interval)
    else if c.delivered > c.emitted then Some(OverDelivered)
    else if c.status == "complete" && (c.dropped != 0 || c.invalid != 0 || c.errors != 0 || c.delivered != c.emitted)
    then Some(CompleteWithLoss)
    else if c.status == "failed" && Text.Trim(c.reason) == "" then Some(FailedWithoutReason)
    else if |c.reason| > 512 then Some(ReasonTooLong)
    else None
  }

  /** What breaks each rule, on its own. */
  predicate Breaks(c: Report, now: int, rule: Rule) {
    match rule
    case Identity => c.version != VERSION || !(16 <= |c.id| <= 128) || !Trimmed(c.id)
    case ProducerRequired => |c.producer| > 128 || Text.Trim(c.producer) != c.producer || c.producer == ""
    case SessionRequired => !(16 <= |c.session| <= 128) || !Trimmed(c.session)
    case UnsupportedSource => c.source != "file" && c.source != "falco" && c.source != "ebpf"
    case SourceMismatch => !Registered(c.source, c.producer)
    case Status => c.status != "complete" && c.status != "failed"
    case Interval => c.windowStart == ZERO_TIME || !(c.windowStart < c.windowEnd <= now + MINUTE)
    case OverDelivered => c.delivered > c.emitted
    case CompleteWithLoss =>
      c.status == "complete" && !(c.dropped == c.invalid == c.errors == 0 && c.delivered == c.emitted)
    case FailedWithoutReason => c.status == "failed" && Text.Trim(c.reason) == ""
    case ReasonTooLong => |c.reason| > 512
  }

  /** The order in which rules are tried. */
  const RULES: seq<Rule> :=
    [ Identity, ProducerRequired, SessionRequired, UnsupportedSource, SourceMismatch, Status, Interval, OverDelivered,
      CompleteWithLoss, FailedWithoutReason, ReasonTooLong ]

  /** Where a rule stands in that order. */
  function Place(rule: Rule): nat {
    match rule
    case Identity => 0 case ProducerRequired => 1 case SessionRequired => 2 case UnsupportedSource => 3
    case SourceMismatch => 4 case Status => 5 case Interval => 6 case OverDelivered => 7
    case CompleteWithLoss => 8 case FailedWithoutReason => 9 case ReasonTooLong => 10
  }

  lemma RuleAt(rule: Rule)
    ensures Place(rule) < |RULES| && RULES[Place(rule)] == rule
  {
  }

  /** Which rules are intact when a given one is reported, or none is. */
  lemma EarlierIntact(c: Report, now: int, rule: Rule)
    requires Validate(c, now).None? || Place(rule) < Place(Validate(c, now).value)
    ensures !Breaks(c, now, rule)
  {
  }

  /** The rule reported is the first that is broken; None means that none is. */
  lemma FirstBrokenRule(c: Report, now: int)
    ensures match Validate(c, now)
      case None => forall i | 0 <= i < |RULES| :: !Breaks(c, now, RULES[i])
      case Some(rule) =>
        exists i :: 0 <= i < |RULES| && RULES[i] == rule && Breaks(c, now, rule)
                    && forall j | 0 <= j < i :: !Breaks(c, now, RULES[j])
  {
    var v := Validate(c, now);
    forall i | 0 <= i < |RULES| && (v.None? || i < Place(v.value)) ensures !Breaks(c, now, RULES[i]) {
      assert Place(RULES[i]) == i;
      EarlierIntact(c, now, RULES[i]);
    }
    if v.Some? {
      RuleAt(v.value);
      ReportedIsBroken(c, now);
    }
  }

  lemma ReportedIsBroken(c: Report, now: int)
    requires Validate(c, now).Some?
    ensures Breaks(c, now, Validate(c, now).value)
  {
  }

  // ---------------------------------------------------------------- stored rows

  datatype Stored = Stored(
    cluster: Option<string>, agent: Option<string>, producer: Option<string>,
    session: Option<string>, coverage: Option<string>,
    source: Option<string>, status: Option<string>,
    windowStart: Option<int>, windowEnd: Option<int>, received: Option<int>, continuous: Option<int>,
    emitted: Option<int>, delivered: Option<int>, dropped: Option<int>, invalid: Option<int>, errors: Option<int>,
    reason: Option<string>)

  function Store(c: Report, cluster: string, agent: string, received: int, continuous: Option<int>): Stored {
    Stored(Some(cluster), Some(agent), Some(c.producer), Some(c.session), Some(c.id), Some(c.source), Some(c.status),
           Some(c.windowStart), Some(c.windowEnd), Some(received), continuous,
           Some(c.emitted), Some(c.delivered), Some(c.dropped), Some(c.invalid), Some(c.errors), Some(c.reason))
  }

  function Is(a: Option<string>, s: string): Tri { Eq(a, Some(s)) }

  function IsNull<T>(a: Option<T>): Tri { Bool(a.None?) }

  /** `NOT ((source_kind = 'file' AND producer_id = 'runtime-file') OR ...)` */
  function UnknownProducer(r: Stored): Tri {
    Is(r.source, "file").And(Is(r.producer, "runtime-file"))
      .Or(Is(r.source, "falco").And(Is(r.producer, "falco")))
      .Or(Is(r.source, "ebpf").And(Is(r.producer, "ebpf-exec").Or(Is(r.producer, "ebpf-connect"))
                                     .Or(Is(r.producer, "ebpf-all"))))
      .Not()
  }

  function Lossy(r: Stored): Tri {
    Bool(Coalesce(r.dropped, 0) != 0 || Coalesce(r.invalid, 0) != 0 || Coalesce(r.errors, 0) != 0
         || Coalesce(r.delivered, 0) != Coalesce(r.emitted, 0))
  }

  function Reasonless(r: Stored): Tri {
    if r.reason.None? then True else Bool(Text.Btrim(r.reason.value) == "")
  }

  /** The parenthesised condition of the contract query, operator by operator. */
  function Violation(r: Stored): Tri {
    IsNull(r.status).Or(Is(r.status, "complete").Or(Is(r.status, "failed")).Not())
      .Or(IsNull(r.source)).Or(IsNull(r.received))
      .Or(IsNull(r.windowStart)).Or(IsNull(r.windowEnd)).Or(Le(r.windowEnd, r.windowStart))
      .Or(Bool(Coalesce(r.delivered, 0) > Coalesce(r.emitted, 0)))
      .Or(Is(r.status, "complete").And(Lossy(r)))
      .Or(Is(r.status, "failed").And(Reasonless(r)))
      .Or(UnknownProducer(r))
      .Or(Is(r.status, "failed").And(IsNull(r.continuous).Not()))
  }

  /** A complete evidence identity and window: what the partial check looks at and the backfill copies. */
  predicate Evidenced(r: Stored) {
    && Present(r.session) && Present(r.coverage) && Present(r.source) && Present(r.status)
    && r.windowStart.Some? && r.windowEnd.Some? && r.received.Some?
  }

  predicate InContract(r: Stored, allowPartial: bool) {
    !((allowPartial ==> Evidenced(r)) && Violation(r).Holds())
  }

  predicate Owned(r: Stored) {
    Present(r.cluster) && Present(r.agent) && Present(r.producer)
  }

  predicate ReceiptIdentity(r: Stored) {
    Owned(r) && Present(r.session) && Present(r.coverage)
  }

  predicate KnownSource(source: string) {
    source == "file" || source == "falco" || source == "ebpf"
  }

  /** The contract in two-valued terms. */
  predicate Meets(r: Stored) {
    && (r.status == Some("complete") || r.status == Some("failed"))
    && r.source.Some? && r.received.Some? && r.windowStart.Some? && r.windowEnd.Some?
    && r.windowStart.value < r.windowEnd.value
    && Coalesce(r.delivered, 0) <= Coalesce(r.emitted, 0)
    && (r.status == Some("complete") ==>
          Coalesce(r.dropped, 0) == 0 && Coalesce(r.invalid, 0) == 0 && Coalesce(r.errors, 0) == 0
          && Coalesce(r.delivered, 0) == Coalesce(r.emitted, 0))
    && (r.status == Some("failed") ==> r.reason.Some? && Text.Btrim(r.reason.value) != "" && r.continuous.None?)
    && (if r.producer.Some? then Registered(r.source.value, r.producer.value) else KnownSource(r.source.value))
  }

  /** Three-valued logic read back: the contract query counts a row exactly when it does not meet this. */
  lemma ContractMeaning(r: Stored)
    ensures InContract(r, false) <==> Meets(r)
    ensures InContract(r, true) <==> (Evidenced(r) ==> Meets(r))
  {
    ProducerClause(r);
  }

  /** A NULL producer makes the registry clause unknown, so only an unknown source is counted. */
  lemma ProducerClause(r: Stored)
    ensures r.source.Some? && r.producer.Some? ==>
      (UnknownProducer(r).Holds() <==> !Registered(r.source.value, r.producer.value))
    ensures r.source.Some? && r.producer.None? ==>
      (UnknownProducer(r).Holds() <==> !KnownSource(r.source.value))
  {
  }

  // ---------------------------------------------------------------- the exact gap

  /** What the validator demands of a report and the SQL contract and identity checks do not. */
  predicate BeyondContract(c: Report, now: int) {
    && c.version == VERSION
    && 16 <= |c.id| <= 128 && Trimmed(c.id)
    && 16 <= |c.session| <= 128 && Trimmed(c.session)
    && c.windowStart != ZERO_TIME && c.windowEnd <= now + MINUTE
    && (c.status == "failed" ==> Text.Trim(c.reason) != "")
    && |c.reason| <= 512
  }

  /** The validator's rules as one condition. */
  predicate Accepted(c: Report, now: int) {
    && BeyondContract(c, now)
    && Registered(c.source, c.producer) && (c.status == "complete" || c.status == "failed")
    && c.windowStart < c.windowEnd && c.delivered <= c.emitted
    && (c.status == "complete" ==> c.dropped == c.invalid == c.errors == 0 && c.delivered == c.emitted)
  }

  lemma RegisteredFacts(source: string, producer: string)
    requires Registered(source, producer)
    ensures KnownSource(source) && |source| > 0 && 0 < |producer| <= 128 && Trimmed(producer)
      && Text.Trim(producer) != ""
  {
    RegisteredIsTrimmed();
    assert |producer| in {5, 12, 9, 8};
  }

  lemma RegisteredIsTrimmed()
    ensures Trimmed("runtime-file") && Trimmed("falco") && Trimmed("ebpf-exec") && Trimmed("ebpf-connect")
      && Trimmed("ebpf-all")
  {
  }

  lemma ValidateMeaning(c: Report, now: int)
    ensures Validate(c, now).None? <==> Accepted(c, now)
  {
    if Registered(c.source, c.producer) {
      RegisteredFacts(c.source, c.producer);
    }
  }

  /**
   The gap, for every report: it is accepted, for an owner and with no continuity start when
   failed, exactly when its row passes both SQL checks and it meets `BeyondContract`.
   */
  lemma AcceptedIffContractAndMore(c: Report, now: int, cluster: string, agent: string, received: int,
    continuous: Option<int>)
    ensures var r := Store(c, cluster, agent, received, continuous);
      Validate(c, now).None? && cluster != "" && agent != "" && (c.status == "failed" ==> continuous.None?)
      <==> ReceiptIdentity(r) && InContract(r, false) && BeyondContract(c, now)
  {
    var r := Store(c, cluster, agent, received, continuous);
    ValidateMeaning(c, now);
    ContractMeaning(r);
    BtrimKeepsWords(c.reason);
    if Registered(c.source, c.producer) {
      RegisteredFacts(c.source, c.producer);
    }
  }

  /** Every accepted report, once stored for an owner, meets the SQL contract and the identity checks. */
  lemma AcceptedReportsMeetContract(c: Report, now: int, cluster: string, agent: string, received: int,
    continuous: Option<int>)
    requires Validate(c, now).None? && cluster != "" && agent != ""
    requires c.status == "failed" ==> continuous.None?
    ensures var r := Store(c, cluster, agent, received, continuous);
      ReceiptIdentity(r) && Evidenced(r) && InContract(r, false) && InContract(r, true)
  {
    var r := Store(c, cluster, agent, received, continuous);
    AcceptedIffContractAndMore(c, now, cluster, agent, received, continuous);
    ValidateMeaning(c, now);
    RegisteredFacts(c.source, c.producer);
    assert |c.status| > 0;
  }

  /** The row was stored from a report accepted at `now`. */
  ghost predicate FromReport(r: Stored, now: int) {
    exists c: Report, cluster: string, agent: string, received: int, continuous: Option<int>
      {:trigger Store(c, cluster, agent, received, continuous)} ::
      && Validate(c, now).None? && cluster != "" && agent != "" && (c.status == "failed" ==> continuous.None?)
      && r == Store(c, cluster, agent, received, continuous)
  }

  predicate Counter(a: Option<int>) { a.Some? && a.value >= 0 }

  /** No column a report fills is NULL, and no counter is negative. */
  predicate Complete(r: Stored) {
    && r.cluster.Some? && r.agent.Some? && r.producer.Some? && r.session.Some? && r.coverage.Some?
    && r.source.Some? && r.status.Some? && r.windowStart.Some? && r.windowEnd.Some? && r.received.Some?
        && r.reason.Some?
    && Counter(r.emitted) && Counter(r.delivered) && Counter(r.dropped) && Counter(r.invalid) && Counter(r.errors)
  }

  /** The report a row can only have come from. */
  function Load(r: Stored): Report
    requires Complete(r)
  {
    Report(VERSION, r.coverage.value, r.producer.value, r.source.value, r.session.value, r.status.value,
           r.windowStart.value, r.windowEnd.value, r.emitted.value, r.delivered.value, r.dropped.value,
           r.invalid.value, r.errors.value, r.reason.value)
  }

  /** The same gap for every row: what the checks would have to add to accept stored reports only. */
  lemma StoredReportsExactly(r: Stored, now: int)
    ensures FromReport(r, now) <==>
      ReceiptIdentity(r) && InContract(r, false) && Complete(r) && BeyondContract(Load(r), now)
  {
    if FromReport(r, now) {
      var c: Report, cluster: string, agent: string, received: int, continuous: Option<int> :|
        && Validate(c, now).None? && cluster != "" && agent != "" && (c.status == "failed" ==> continuous.None?)
        && r == Store(c, cluster, agent, received, continuous);
      AcceptedIffContractAndMore(c, now, cluster, agent, received, continuous);
      LoadStore(c, cluster, agent, received, continuous);
    }
    if ReceiptIdentity(r) && InContract(r, false) && Complete(r) && BeyondContract(Load(r), now) {
      StoredFromLoad(r, now);
    }
  }

  lemma StoredFromLoad(r: Stored, now: int)
    requires ReceiptIdentity(r) && InContract(r, false) && Complete(r) && BeyondContract(Load(r), now)
    ensures FromReport(r, now)
  {
    StoreLoad(r);
    AcceptedIffContractAndMore(Load(r), now, r.cluster.value, r.agent.value, r.received.value, r.continuous);
  }

  lemma LoadStore(c: Report, cluster: string, agent: string, received: int, continuous: Option<int>)
    ensures var r := Store(c, cluster, agent, received, continuous);
      Complete(r) && (c.version == VERSION ==> Load(r) == c)
  {
  }

  lemma StoreLoad(r: Stored)
    requires Complete(r)
    ensures Store(Load(r), r.cluster.value, r.agent.value, r.received.value, r.continuous) == r
  {
  }

  lemma BtrimKeepsWords(s: string)
    ensures Text.Trim(s) != "" ==> Text.Btrim(s) != ""
  {
    if Text.Btrim(s) == "" {
      SpacesTrimAway(s);
    }
  }

  lemma {:induction false} SpacesTrimAway(s: string)
    requires forall i | 0 <= i < |s| :: s[i] == ' '
    ensures Text.TrimLeft(s) == ""
  {
    if s != "" {
      SpacesTrimAway(s[1..]);
    }
  }

  /** A NULL producer stays in the contract, though no report stores one: only the identity check rejects it. */
  lemma NullProducerMeetsContract(r: Stored, now: int)
    requires InContract(r, false)
    ensures var s := r.(producer := None); InContract(s, false) && !Owned(s) && !FromReport(s, now)
  {
    ContractMeaning(r);
    ContractMeaning(r.(producer := None));
    StoredReportsExactly(r.(producer := None), now);
  }

  /** BTRIM leaves a tab, so a failed row with a blank reason passes both checks, though no report stores one. */
  lemma BlankReasonMeetsContract(r: Stored, now: int)
    requires ReceiptIdentity(r) && InContract(r, false) && r.status == Some("failed")
    ensures var s := r.(reason := Some("\t")); ReceiptIdentity(s) && InContract(s, false) && !FromReport(s, now)
  {
    var s := r.(reason := Some("\t"));
    ContractMeaning(r);
    ContractMeaning(s);
    assert Text.Btrim("\t") == "\t" && Text.Trim("\t") == "";
    StoredReportsExactly(s, now);
  }

  /** Counters may be negative in both checks, as long as they agree; no report stores one. */
  lemma NegativeCountersMeetContract(r: Stored, now: int)
    requires ReceiptIdentity(r) && InContract(r, false)
    ensures var s := r.(emitted := Some(-5), delivered := Some(-5));
      ReceiptIdentity(s) && InContract(s, false) && !FromReport(s, now)
  {
    var s := r.(emitted := Some(-5), delivered := Some(-5));
    ContractMeaning(r);
    ContractMeaning(s);
    StoredReportsExactly(s, now);
  }

  // ---------------------------------------------------------------- the receipt backfill

  /** What the INSERT ... SELECT copies. */
  function Receipt(r: Stored): Stored {
    r.(emitted := Some(Coalesce(r.emitted, 0)), delivered := Some(Coalesce(r.delivered, 0)),
       dropped := Some(Coalesce(r.dropped, 0)), invalid := Some(Coalesce(r.invalid, 0)),
       errors := Some(Coalesce(r.errors, 0)), reason := Some(Coalesce(r.reason, "")))
  }

  predicate SameEvidence(a: Stored, b: Stored) {
    Eq(a.cluster, b.cluster).And(Eq(a.agent, b.agent)).And(Eq(a.producer, b.producer))
      .And(Eq(a.session, b.session)).And(Eq(a.coverage, b.coverage)).Holds()
  }

  predicate HasReceipt(receipts: seq<Stored>, r: Stored) {
    exists i :: 0 <= i < |receipts| && SameEvidence(receipts[i], r)
  }

  /** ON CONFLICT DO NOTHING, over the first `n` coverage rows. */
  function Backfilled(coverages: seq<Stored>, receipts: seq<Stored>, n: nat): seq<Stored>
    requires n <= |coverages|
  {
    if n == 0 then receipts
    else
      var before, r := Backfilled(coverages, receipts, n - 1), coverages[n - 1];
      if Owned(r) && Evidenced(r) && !HasReceipt(before, Receipt(r)) then before + [Receipt(r)] else before
  }

  predicate CoverageChecks(coverages: seq<Stored>) {
    forall i | 0 <= i < |coverages| :: Owned(coverages[i]) && InContract(coverages[i], true)
  }

  predicate ReceiptChecks(receipts: seq<Stored>) {
    forall i | 0 <= i < |receipts| :: ReceiptIdentity(receipts[i]) && InContract(receipts[i], false)
  }

  lemma ReceiptMeetsContract(r: Stored)
    requires Owned(r) && Evidenced(r) && InContract(r, true)
    ensures ReceiptIdentity(Receipt(r)) && InContract(Receipt(r), false)
  {
    ContractMeaning(r);
    ContractMeaning(Receipt(r));
  }

  /** What the backfill writes passes the stricter check; existing receipts stay, in place. */
  lemma {:induction false} BackfillMeetsContract(coverages: seq<Stored>, receipts: seq<Stored>, n: nat)
    requires n <= |coverages| && CoverageChecks(coverages) && ReceiptChecks(receipts)
    ensures ReceiptChecks(Backfilled(coverages, receipts, n))
    ensures receipts <= Backfilled(coverages, receipts, n)
  {
    if n > 0 {
      BackfillMeetsContract(coverages, receipts, n - 1);
      var before, after := Backfilled(coverages, receipts, n - 1), Backfilled(coverages, receipts, n);
      if after != before {
        ReceiptMeetsContract(coverages[n - 1]);
        forall i | 0 <= i < |after| ensures ReceiptIdentity(after[i]) && InContract(after[i], false) {
          assert i < |before| ==> after[i] == before[i];
        }
      }
    }
  }

  /** Every row with complete evidence has its receipt, and identities stay unique. */
  lemma {:induction false} BackfillIsComplete(coverages: seq<Stored>, receipts: seq<Stored>, n: nat)
    requires n <= |coverages|
    ensures forall i | 0 <= i < n && Owned(coverages[i]) && Evidenced(coverages[i]) ::
      HasReceipt(Backfilled(coverages, receipts, n), coverages[i])
    ensures UniqueEvidence(receipts) ==> UniqueEvidence(Backfilled(coverages, receipts, n))
  {
    if n > 0 {
      BackfillIsComplete(coverages, receipts, n - 1);
      var before, after, r := Backfilled(coverages, receipts, n - 1), Backfilled(coverages, receipts, n),
        coverages[n - 1];
      forall i | 0 <= i < n && Owned(coverages[i]) && Evidenced(coverages[i])
        ensures HasReceipt(after, coverages[i])
      {
        if HasReceipt(before, coverages[i]) {
          var j :| 0 <= j < |before| && SameEvidence(before[j], coverages[i]);
          assert after[j] == before[j];
        } else {
          assert SameEvidence(after[|before|], r);
        }
      }
    }
  }

  predicate UniqueEvidence(receipts: seq<Stored>) {
    forall i, j | 0 <= i < j < |receipts| :: !SameEvidence(receipts[i], receipts[j])
  }

  /** The receipt holds the row's identity, window and verdict, and its counters and reason with NULL made explicit. */
  predicate Evidences(receipt: Stored, r: Stored) {
    && receipt.cluster == r.cluster && receipt.agent == r.agent && receipt.producer == r.producer
    && receipt.session == r.session && receipt.coverage == r.coverage
    && receipt.source == r.source && receipt.status == r.status
    && receipt.windowStart == r.windowStart && receipt.windowEnd == r.windowEnd
    && receipt.received == r.received && receipt.continuous == r.continuous
    && Zeroed(r.emitted, receipt.emitted) && Zeroed(r.delivered, receipt.delivered)
    && Zeroed(r.dropped, receipt.dropped) && Zeroed(r.invalid, receipt.invalid) && Zeroed(r.errors, receipt.errors)
    && receipt.reason == if r.reason.Some? then r.reason else Some("")
  }

  predicate Zeroed(before: Option<int>, after: Option<int>) {
    after == if before.Some? then before else Some(0)
  }

  /** What is written is the evidence of a coverage row, one that is owned and complete. */
  lemma {:induction false} BackfillWrites(coverages: seq<Stored>, receipts: seq<Stored>, n: nat, i: nat)
    requires n <= |coverages| && |receipts| <= i < |Backfilled(coverages, receipts, n)|
    ensures exists j :: 0 <= j < n && Owned(coverages[j]) && Evidenced(coverages[j])
                        && Evidences(Backfilled(coverages, receipts, n)[i], coverages[j])
  {
    var before := Backfilled(coverages, receipts, n - 1);
    if i < |before| {
      BackfillWrites(coverages, receipts, n - 1, i);
    } else {
      assert Evidences(Backfilled(coverages, receipts, n)[i], coverages[n - 1]);
    }
  }

  lemma {:induction false} NothingToBackfill(coverages: seq<Stored>, receipts: seq<Stored>, n: nat)
    requires n <= |coverages|
    requires forall i | 0 <= i < |coverages| && Owned(coverages[i]) && Evidenced(coverages[i]) ::
      HasReceipt(receipts, coverages[i])
    ensures Backfilled(coverages, receipts, n) == receipts
  {
    if n > 0 {
      NothingToBackfill(coverages, receipts, n - 1);
    }
  }

  predicate SameProducer(a: Stored, b: Stored) {
    Eq(a.cluster, b.cluster).And(Eq(a.agent, b.agent)).And(Eq(a.producer, b.producer)).Holds()
  }

  /** `idx_runtime_coverage_identity` can be built. */
  predicate UniqueProducers(coverages: seq<Stored>) {
    forall i, j | 0 <= i < j < |coverages| :: !SameProducer(coverages[i], coverages[j])
  }

  /** Everything one startup checks, the two unique index builds included. */
  predicate StartupPasses(coverages: seq<Stored>, receipts: seq<Stored>) {
    && CoverageChecks(coverages) && UniqueProducers(coverages)
    && ReceiptChecks(receipts) && UniqueEvidence(receipts)
  }

  /** A startup that passes leaves receipts with which the next one passes, and a rerun adds nothing. */
  lemma StartupIsStable(coverages: seq<Stored>, receipts: seq<Stored>)
    requires StartupPasses(coverages, receipts)
    ensures var r := Backfilled(coverages, receipts, |coverages|);
      StartupPasses(coverages, r) && receipts <= r && Backfilled(coverages, r, |coverages|) == r
  {
    var r := Backfilled(coverages, receipts, |coverages|);
    BackfillMeetsContract(coverages, receipts, |coverages|);
    BackfillIsComplete(coverages, receipts, |coverages|);
    NothingToBackfill(coverages, r, |coverages|);
  }

  /** Rows can pass every row check and still stop startup: two rows of one producer. */
  lemma DuplicateProducerStopsStartup(r: Stored, receipts: seq<Stored>)
    requires Owned(r) && InContract(r, true)
    ensures CoverageChecks([r, r]) && !StartupPasses([r, r], receipts)
  {
    assert SameProducer([r, r][0], [r, r][1]);
  }

  /** Every column of the evidence identity and window is filled, owner included. */
  predicate FullyEvidenced(r: Stored) {
    && Present(r.cluster) && Present(r.agent) && Present(r.producer) && Present(r.session) && Present(r.coverage)
    && Present(r.source) && Present(r.status) && r.windowStart.Some? && r.windowEnd.Some? && r.received.Some?
  }

  /**
   The checks and the backfill on one row: an unowned row fails; a partial one passes unread and is
   not backfilled; a fully evidenced one must meet the contract, and then gets its receipt.
   */
  lemma OneCoverage(r: Stored)
    ensures CoverageChecks([r]) <==>
      Present(r.cluster) && Present(r.agent) && Present(r.producer) && (FullyEvidenced(r) ==> Meets(r))
    ensures |Backfilled([r], [], 1)| == (if FullyEvidenced(r) then 1 else 0)
  {
    ContractMeaning(r);
    assert [r][0] == r;
    assert !HasReceipt([], Receipt(r));
  }

  /** And on one receipt: a full identity, and the contract without exception. */
  lemma OneReceipt(r: Stored)
    ensures ReceiptChecks([r]) <==>
      && Present(r.cluster) && Present(r.agent) && Present(r.producer) && Present(r.session) && Present(r.coverage)
      && Meets(r)
  {
    ContractMeaning(r);
    assert [r][0] == r;
  }

  /** Two rows clash exactly when the columns of the key are equal and none is NULL. */
  lemma PairClashes(a: Stored, b: Stored)
    ensures !UniqueProducers([a, b]) <==>
      && a.cluster == b.cluster && a.agent == b.agent && a.producer == b.producer
      && a.cluster.Some? && a.agent.Some? && a.producer.Some?
    ensures !UniqueEvidence([a, b]) <==>
      && a.cluster == b.cluster && a.agent == b.agent && a.producer == b.producer && a.session == b.session
      && a.coverage == b.coverage && a.cluster.Some? && a.agent.Some? && a.producer.Some? && a.session.Some?
      && a.coverage.Some?
  {
    assert SameProducer([a, b][0], [a, b][1]) == SameProducer(a, b);
    assert SameEvidence([a, b][0], [a, b][1]) == SameEvidence(a, b);
  }

  class History {
    var coverages: seq<Stored>
    var receipts: seq<Stored>

    constructor (coverages: seq<Stored>, receipts: seq<Stored>)
      ensures this.coverages == coverages && this.receipts == receipts
    {
      this.coverages, this.receipts := coverages, receipts;
    }

    /** INSERT ... SELECT ... ON CONFLICT DO NOTHING */
    method Backfill()
      modifies `receipts
      ensures receipts == Backfilled(coverages, old(receipts), |coverages|)
    {
      var n := 0;
      while n < |coverages|
        invariant n <= |coverages| && receipts == Backfilled(coverages, old(receipts), n)
      {
        var r := coverages[n];
        if Owned(r) && Evidenced(r) && !HasReceipt(receipts, Receipt(r)) {
          receipts := receipts + [Receipt(r)];
        }
        n := n + 1;
      }
    }

    /**
     One startup. It refuses to touch anything unless every check passes; then the receipts it
     leaves pass the checks of the next startup, extend the old ones, and need no further backfill.
     */
    method EnsureRuntimeCoverage() returns (ok: bool)
      modifies `receipts
      ensures ok <==> StartupPasses(coverages, old(receipts))
      ensures receipts == if ok then Backfilled(coverages, old(receipts), |coverages|) else old(receipts)
      ensures ok ==> StartupPasses(coverages, receipts) && old(receipts) <= receipts
      ensures ok ==> Backfilled(coverages, receipts, |coverages|) == receipts
    {
      if !CoverageChecks(coverages) { return false; }
      if !UniqueProducers(coverages) { return false; }   // the unique index build fails
      if !ReceiptChecks(receipts) { return false; }
      if !UniqueEvidence(receipts) { return false; }
      StartupIsStable(coverages, receipts);
      Backfill();
      ok := true;
    }
  }
}
