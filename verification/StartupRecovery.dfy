/** Recovery of interrupted runs when the backend starts
    (src/backend/vlm_feedback_loop/main.py, with the snapshot and reconciliation rules of
    services/run_config.py and services/batch_label_service.py that it relies on).

    `Recovered` says what one start makes of one run.  The methods below do it on mutable
    records, project by project, each project in one commit that may fail. */
module StartupRecovery {
  import opened Basics

  // ----- Runs -----

  datatype Status = Queued | Running | Canceling | Paused | Succeeded | Failed | Canceled | Other(name: string)

  datatype Kind = Evaluation | Batch | Unknown(name: string)

  /** The statuses the recovery query selects. */
  predicate Pending(s: Status) {
    s.Queued? || s.Running? || s.Canceling? || s.Paused?
  }

  /** The stored runtime configuration: absent, the first version, the second, or garbage. */
  datatype Snapshot =
    | Absent
    | First(project: string, model: string, body: string)
    | Second(project: string, model: string, generation: string, visual: string, body: string)
    | Garbage

  /** The input keys a run was started with, when its metadata still has them. */
  datatype Inputs = NoInputs | Inputs(keys: seq<string>)

  /** What recovery reads of a run and never writes. */
  datatype Facts = Facts(id: string, project: string, kind: Kind, model: Option<string>,
                         generation: Option<string>, visual: Option<string>,
                         cancelRequested: bool, inputs: Inputs, total: int)

  datatype Counts = Counts(succeeded: nat, schemaInvalid: nat, timeout: nat, endpointError: nat)

  datatype Run = Run(facts: Facts, status: Status, reason: string, completedAt: Option<string>,
                     recovered: bool, snapshot: Snapshot, counts: Counts)

  // ----- The runtime snapshot -----

  /** What the catalog and the settings offer at one start. */
  datatype Env = Env(now: string,
                     capture: (string, string, string, string) -> Option<string>,
                     upgrade: (string, string, string) -> Option<string>)

  function Or(o: Option<string>, default: string): string {
    if o.Some? && o.value != "" then o.value else default
  }

  function Generation(f: Facts): string { Or(f.generation, "precise") }

  function Visual(f: Facts): string { Or(f.visual, "high_detail") }

  /** The second-version snapshot a run would carry, before its lineage is checked. */
  function Materialized(env: Env, r: Run): Option<Snapshot> {
    var f := r.facts;
    match r.snapshot
    case Garbage => None
    case Second(_, _, _, _, _) => Some(r.snapshot)
    case First(project, model, body) =>
      (match env.upgrade(body, Generation(f), Visual(f))
       case None => None
       case Some(b) => Some(Second(project, model, Generation(f), Visual(f), b)))
    case Absent =>
      if f.model.None? then None else
      match env.capture(f.project, f.model.value, Generation(f), Visual(f))
      case None => None
      case Some(b) => Some(Second(f.project, f.model.value, Generation(f), Visual(f), b))
  }

  predicate LineageMatches(f: Facts, s: Snapshot)
    requires s.Second?
  {
    && s.project == f.project && Some(s.model) == f.model
    && s.generation == Generation(f) && s.visual == Visual(f)
  }

  /** `ensure_runtime_config_snapshot`: None when it raises. */
  function Ensured(env: Env, r: Run): (s: Option<Snapshot>)
    ensures s.Some? ==> s.value.Second? && LineageMatches(r.facts, s.value)
  {
    match Materialized(env, r)
    case None => None
    case Some(s) => if LineageMatches(r.facts, s) then Some(s) else None
  }

  /** A snapshot that was ensured once stays, whatever the catalog says later. */
  lemma EnsuredForGood(env: Env, later: Env, r: Run, s: Run)
    requires Ensured(env, r).Some?
    requires s.facts == r.facts && s.snapshot == Ensured(env, r).value
    ensures Ensured(later, s) == Some(s.snapshot)
  {}

  /** When a snapshot can be had: one of the second version that belongs to the run as it is; one
      of the first that does and can be upgraded; none, but a model to capture one for. */
  lemma EnsuredIff(env: Env, r: Run)
    ensures Ensured(env, r).Some? <==>
              match r.snapshot
              case Second(project, model, generation, visual, body) =>
                && project == r.facts.project && Some(model) == r.facts.model
                && generation == Generation(r.facts) && visual == Visual(r.facts)
              case First(project, model, body) =>
                && project == r.facts.project && Some(model) == r.facts.model
                && env.upgrade(body, Generation(r.facts), Visual(r.facts)).Some?
              case Absent =>
                && r.facts.model.Some?
                && env.capture(r.facts.project, r.facts.model.value, Generation(r.facts), Visual(r.facts)).Some?
              case Garbage => false
    ensures r.snapshot.Second? && Ensured(env, r).Some? ==> Ensured(env, r).value == r.snapshot
    ensures Ensured(env, r).Some? && r.snapshot.First? ==>
              Some(Ensured(env, r).value.body) == env.upgrade(r.snapshot.body, Generation(r.facts), Visual(r.facts))
    ensures r.facts.generation in {None, Some("")} ==> Generation(r.facts) == "precise"
    ensures r.facts.visual in {None, Some("")} ==> Visual(r.facts) == "high_detail"
    ensures forall g :: g != "" && r.facts.generation == Some(g) ==> Generation(r.facts) == g
    ensures forall v :: v != "" && r.facts.visual == Some(v) ==> Visual(r.facts) == v
  {}

  // ----- The durable items of a batch run -----

  datatype Invocation = Pend | Success | SchemaInvalid | Timeout | EndpointError | RateLimited | Odd(name: string)

  /** One operation record of a run; `belongs` says that its lineage fields match the run. */
  datatype Operation = Operation(key: Option<string>, belongs: bool, status: Invocation,
                                 schemaValid: bool, ignored: bool, id: string)

  datatype Label = Label(key: string, run: string, operation: string, guided: bool)

  /** What a project database holds besides its runs; recovery only reads it. */
  datatype Ledger = Ledger(operations: map<string, seq<Operation>>, states: map<string, string>,
                           labels: seq<Label>, configurable: set<string>)

  function OperationsOf(ledger: Ledger, run: string): seq<Operation> {
    if run in ledger.operations then ledger.operations[run] else []
  }

  /** Every operation belongs to the run and to one of its items. */
  predicate AllBelong(ops: seq<Operation>, keys: seq<string>) {
    forall i :: 0 <= i < |ops| ==> ops[i].key.Some? && ops[i].key.value in keys && ops[i].belongs
  }

  predicate OnePerKey(ops: seq<Operation>) {
    forall i, j :: 0 <= i < j < |ops| ==> ops[i].key != ops[j].key
  }

  /** No item has two machine labels. */
  predicate LabelsUnique(labels: seq<Label>, keys: seq<string>) {
    forall i, j :: 0 <= i < j < |labels| && labels[i].key in keys ==> labels[i].key != labels[j].key
  }

  predicate StatusesKnown(ops: seq<Operation>) {
    forall i :: 0 <= i < |ops| ==> !ops[i].status.Odd?
  }

  /** What `reconcile_batch_items` demands; anything else raises. */
  predicate Coherent(ledger: Ledger, run: string, keys: seq<string>) {
    var ops := OperationsOf(ledger, run);
    && Distinct(keys)
    && AllBelong(ops, keys) && OnePerKey(ops) && StatusesKnown(ops)
    && (forall i :: 0 <= i < |keys| ==> keys[i] in ledger.states)
    && LabelsUnique(ledger.labels, keys)
  }

  /** An accepted machine label, or a human decision that supersedes it, backs the success. */
  predicate Backed(ledger: Ledger, run: string, op: Operation)
    requires op.key.Some?
  {
    var key := op.key.value;
    key in ledger.states &&
    (|| (ledger.states[key] == "Auto-Labeled" &&
         exists i :: 0 <= i < |ledger.labels| && ledger.labels[i] == Label(key, run, op.id, true))
     || ledger.states[key] in {"Verified", "Omitted"})
  }

  /** Whether an operation counts as a terminal outcome of a canceled run. */
  predicate Counted(ledger: Ledger, run: string, op: Operation)
    requires op.key.Some?
  {
    && !op.ignored && op.status != Pend
    && (op.status == Success && op.schemaValid ==> Backed(ledger, run, op))
  }

  /** The outcomes, one per key: mode `canceled_recovery`. */
  function Outcomes(ledger: Ledger, run: string, ops: seq<Operation>): map<string, (Invocation, bool)>
    requires forall i :: 0 <= i < |ops| ==> ops[i].key.Some?
  {
    if ops == [] then map[] else
    var rest := Outcomes(ledger, run, ops[..|ops| - 1]);
    var op := ops[|ops| - 1];
    if Counted(ledger, run, op) then rest[op.key.value := (op.status, op.schemaValid)] else rest
  }

  lemma {:induction false} OutcomesWithin(ledger: Ledger, run: string, ops: seq<Operation>, keys: seq<string>)
    requires forall i :: 0 <= i < |ops| ==> ops[i].key.Some? && ops[i].key.value in keys
    ensures forall k :: k in Outcomes(ledger, run, ops) ==> k in keys
  {
    if ops != [] {
      OutcomesWithin(ledger, run, ops[..|ops| - 1], keys);
    }
  }

  datatype Bucket = InSucceeded | InSchemaInvalid | InTimeout | InEndpointError

  /** The counter an outcome belongs to. */
  function BucketOf(o: (Invocation, bool)): Bucket {
    if o.0 == Success && o.1 then InSucceeded
    else if o.0 == Timeout then InTimeout
    else if o.0 == EndpointError || o.0 == RateLimited then InEndpointError
    else InSchemaInvalid
  }

  function KeysIn(outcomes: map<string, (Invocation, bool)>, b: Bucket): set<string> {
    set k | k in outcomes && BucketOf(outcomes[k]) == b
  }

  function Summary(outcomes: map<string, (Invocation, bool)>): Counts {
    Counts(|KeysIn(outcomes, InSucceeded)|, |KeysIn(outcomes, InSchemaInvalid)|,
           |KeysIn(outcomes, InTimeout)|, |KeysIn(outcomes, InEndpointError)|)
  }

  function Total(c: Counts): nat {
    c.succeeded + c.schemaInvalid + c.timeout + c.endpointError
  }

  /** Every outcome is counted in exactly one counter. */
  lemma SummaryConserves(outcomes: map<string, (Invocation, bool)>)
    ensures Total(Summary(outcomes)) == |outcomes|
  {
    BucketsCover(outcomes);
    hide KeysIn;
    FourParts(KeysIn(outcomes, InSucceeded), KeysIn(outcomes, InSchemaInvalid),
              KeysIn(outcomes, InTimeout), KeysIn(outcomes, InEndpointError));
    assert |outcomes| == |outcomes.Keys|;
  }

  lemma BucketsCover(outcomes: map<string, (Invocation, bool)>)
    ensures var a, b := KeysIn(outcomes, InSucceeded), KeysIn(outcomes, InSchemaInvalid);
            var c, d := KeysIn(outcomes, InTimeout), KeysIn(outcomes, InEndpointError);
            && outcomes.Keys == (a + b) + (c + d)
            && a !! b && c !! d && (a + b) !! (c + d)
  {}

  lemma FourParts(a: set<string>, b: set<string>, c: set<string>, d: set<string>)
    requires a !! b && c !! d && (a + b) !! (c + d)
    ensures |(a + b) + (c + d)| == |a| + |b| + |c| + |d|
  {}

  /** `_reconstruct_canceled_batch_counters`: None when it raises. */
  function Reconstructed(ledger: Ledger, f: Facts): Option<Counts> {
    if f.inputs.NoInputs? then None
    else if !Distinct(f.inputs.keys) || f.total != |f.inputs.keys| then None
    else if f.id !in ledger.configurable then None
    else if !Coherent(ledger, f.id, f.inputs.keys) then None
    else Some(Summary(Outcomes(ledger, f.id, OperationsOf(ledger, f.id))))
  }

  lemma {:induction false} SubsetSize<T>(a: set<T>, b: set<T>)
    requires a <= b
    ensures |a| <= |b|
  {
    if a != {} {
      var x :| x in a;
      SubsetSize(a - {x}, b - {x});
    }
  }

  lemma {:induction false} KeySetSize(keys: seq<string>)
    ensures |set k | k in keys| <= |keys|
  {
    if keys != [] {
      var rest := keys[1..];
      KeySetSize(rest);
      assert (set k | k in keys) == (set k | k in rest) + {keys[0]};
    }
  }

  /** The reconstructed counters never exceed the items the run was given. */
  lemma CountersWithinInputs(ledger: Ledger, f: Facts)
    requires Reconstructed(ledger, f).Some?
    ensures f.inputs.Inputs? && Total(Reconstructed(ledger, f).value) <= |f.inputs.keys| == f.total
  {
    var keys := f.inputs.keys;
    var outcomes := Outcomes(ledger, f.id, OperationsOf(ledger, f.id));
    OutcomesWithin(ledger, f.id, OperationsOf(ledger, f.id), keys);
    SummaryConserves(outcomes);
    SubsetSize(outcomes.Keys, set k | k in keys);
    KeySetSize(keys);
  }

  // ----- The counters, read off the operations -----

  function HowMany(ops: seq<Operation>, f: Operation -> bool): nat {
    |set i | 0 <= i < |ops| && f(ops[i])|
  }

  /** A valid answer whose example has this run's machine label or a human decision. */
  predicate FinishedWell(ledger: Ledger, run: string, op: Operation) {
    && !op.ignored && op.status == Success && op.schemaValid
    && op.key.Some? && op.key.value in ledger.states
    && (ledger.states[op.key.value] == "Auto-Labeled" ==> Label(op.key.value, run, op.id, true) in ledger.labels)
    && ledger.states[op.key.value] in {"Auto-Labeled", "Verified", "Omitted"}
  }

  /** The counters a canceled run should have: its operations of each kind, the ignored and the
      pending ones left out. */
  function Tallied(ledger: Ledger, run: string): Counts {
    var ops := OperationsOf(ledger, run);
    Counts(HowMany(ops, (op: Operation) => FinishedWell(ledger, run, op)),
           HowMany(ops, (op: Operation) =>
             !op.ignored && (op.status == SchemaInvalid || (op.status == Success && !op.schemaValid))),
           HowMany(ops, (op: Operation) => !op.ignored && op.status == Timeout),
           HowMany(ops, (op: Operation) => !op.ignored && op.status in {EndpointError, RateLimited}))
  }

  lemma HowManyStep(ops: seq<Operation>, f: Operation -> bool)
    requires ops != []
    ensures HowMany(ops, f) == HowMany(ops[..|ops| - 1], f) + (if f(ops[|ops| - 1]) then 1 else 0)
  {
    var n := |ops| - 1;
    var init := ops[..n];
    var a, b := set i | 0 <= i < n && f(init[i]), set i | 0 <= i < |ops| && f(ops[i]);
    assert forall i :: 0 <= i < n ==> init[i] == ops[i];
    if f(ops[n]) {
      assert b == a + {n};
    } else {
      assert b == a;
    }
  }

  lemma {:induction false} OutcomeHasOperation(ledger: Ledger, run: string, ops: seq<Operation>, key: string)
    requires forall i :: 0 <= i < |ops| ==> ops[i].key.Some?
    requires key in Outcomes(ledger, run, ops)
    ensures exists i :: 0 <= i < |ops| && ops[i].key == Some(key)
  {
    if key != ops[|ops| - 1].key.value {
      var init := ops[..|ops| - 1];
      OutcomeHasOperation(ledger, run, init, key);
      var i :| 0 <= i < |init| && init[i].key == Some(key);
      assert ops[i].key == Some(key);
    }
  }

  /** With one operation per item, a bucket holds as many items as there are operations that
      count for it. */
  lemma {:induction false} BucketSize(ledger: Ledger, run: string, ops: seq<Operation>, b: Bucket, f: Operation -> bool)
    requires OnePerKey(ops) && forall i :: 0 <= i < |ops| ==> ops[i].key.Some?
    requires forall i :: 0 <= i < |ops| ==>
               (f(ops[i]) <==> Counted(ledger, run, ops[i]) && BucketOf((ops[i].status, ops[i].schemaValid)) == b)
    ensures |KeysIn(Outcomes(ledger, run, ops), b)| == HowMany(ops, f)
  {
    hide Counted, BucketOf, KeysIn, HowMany;
    if ops == [] {
      NothingCounted(b, f);
    } else {
      var init, op := ops[..|ops| - 1], ops[|ops| - 1];
      BucketSize(ledger, run, init, b, f);
      HowManyStep(ops, f);
      if op.key.value in Outcomes(ledger, run, init) {
        OutcomeHasOperation(ledger, run, init, op.key.value);
      }
      BucketStep(Outcomes(ledger, run, init), op.key.value, (op.status, op.schemaValid), b);
    }
  }

  lemma NothingCounted(b: Bucket, f: Operation -> bool)
    ensures |KeysIn(map[], b)| == 0 == HowMany([], f)
  {}

  /** Reconstruction yields, for each kind, the number of operations of that kind. */
  lemma CountersAre(ledger: Ledger, f: Facts)
    requires Reconstructed(ledger, f).Some?
    ensures Reconstructed(ledger, f).value == Tallied(ledger, f.id)
  {
    var ops := OperationsOf(ledger, f.id);
    hide HowMany, KeysIn, Outcomes;
    BucketSize(ledger, f.id, ops, InSucceeded, (op: Operation) => FinishedWell(ledger, f.id, op));
    BucketSize(ledger, f.id, ops, InSchemaInvalid, (op: Operation) =>
      !op.ignored && (op.status == SchemaInvalid || (op.status == Success && !op.schemaValid)));
    BucketSize(ledger, f.id, ops, InTimeout, (op: Operation) => !op.ignored && op.status == Timeout);
    BucketSize(ledger, f.id, ops, InEndpointError,
      (op: Operation) => !op.ignored && op.status in {EndpointError, RateLimited});
  }

  // ----- What one start makes of one run -----

  const INTERRUPTED := "backend_restart_interrupted"
  const INVALID := "batch_recovery_state_invalid"
  const CANCELED_ON_RESTART := "canceled_on_restart"

  function Recovered(env: Env, ledger: Ledger, r: Run): Run {
    if !Pending(r.status) then r
    else if r.facts.kind.Evaluation? then
      r.(status := Failed, reason := INTERRUPTED, completedAt := Some(env.now))
    else if !r.facts.kind.Batch? then r
    else match Ensured(env, r)
      case None => r.(status := Failed, reason := INVALID, completedAt := Some(env.now))
      case Some(s) =>
        if r.status.Queued? || r.status.Running? then
          r.(snapshot := s, status := Queued, recovered := true)
        else if r.status.Paused? then r.(snapshot := s)
        else if !r.facts.cancelRequested then
          r.(snapshot := s, status := Failed, reason := INTERRUPTED, completedAt := Some(env.now))
        else match Reconstructed(ledger, r.facts)
          case None => r.(snapshot := s, status := Failed, reason := INVALID, completedAt := Some(env.now))
          case Some(c) =>
            r.(snapshot := s, status := Canceled, reason := CANCELED_ON_RESTART, counts := c,
               completedAt := Some(env.now))
  }

  /** The run goes on the list of batch runs to resume. */
  predicate Resumes(env: Env, r: Run) {
    r.facts.kind.Batch? && (r.status.Queued? || r.status.Running?) && Ensured(env, r).Some?
  }

  /** What can be wrong with the durable state of a canceled run. */
  datatype Defect =
    | InputsMissing | InputRepeated(i: nat, j: nat) | TotalWrong | NoConfiguration
    | ForeignOperation(i: nat) | SecondOperation(i: nat, j: nat) | UnknownStatus(i: nat)
    | ExampleMissing(i: nat) | SecondLabel(i: nat, j: nat)

  predicate Shows(ledger: Ledger, f: Facts, d: Defect) {
    var ops, labels := OperationsOf(ledger, f.id), ledger.labels;
    match d
    case InputsMissing => f.inputs.NoInputs?
    case InputRepeated(i, j) =>
      f.inputs.Inputs? && i < j < |f.inputs.keys| && f.inputs.keys[i] == f.inputs.keys[j]
    case TotalWrong => f.inputs.Inputs? && f.total != |f.inputs.keys|
    case NoConfiguration => f.id !in ledger.configurable
    case ForeignOperation(i) =>
      f.inputs.Inputs? && i < |ops| && (ops[i].key.None? || ops[i].key.value !in f.inputs.keys || !ops[i].belongs)
    case SecondOperation(i, j) => i < j < |ops| && ops[i].key == ops[j].key
    case UnknownStatus(i) => i < |ops| && ops[i].status.Odd?
    case ExampleMissing(i) => f.inputs.Inputs? && i < |f.inputs.keys| && f.inputs.keys[i] !in ledger.states
    case SecondLabel(i, j) =>
      f.inputs.Inputs? && i < j < |labels| && labels[i].key in f.inputs.keys && labels[i].key == labels[j].key
  }

  /** Counters are reconstructed unless one of these defects shows. */
  lemma ReconstructedIff(ledger: Ledger, f: Facts)
    ensures Reconstructed(ledger, f).None? <==> exists d :: Shows(ledger, f, d)
  {
    if Reconstructed(ledger, f).None? {
      var d := SomeDefect(ledger, f);
    }
  }

  lemma SomeDefect(ledger: Ledger, f: Facts) returns (d: Defect)
    requires Reconstructed(ledger, f).None?
    ensures Shows(ledger, f, d)
  {
    hide Outcomes, Summary;
    var ops, labels := OperationsOf(ledger, f.id), ledger.labels;
    if f.inputs.NoInputs? { return InputsMissing; }
    var keys := f.inputs.keys;
    if f.total != |keys| { return TotalWrong; }
    if f.id !in ledger.configurable { return NoConfiguration; }
    if i, j :| 0 <= i < j < |keys| && keys[i] == keys[j] { return InputRepeated(i, j); }
    if i :| 0 <= i < |ops| && (ops[i].key.None? || ops[i].key.value !in keys || !ops[i].belongs) {
      return ForeignOperation(i);
    }
    if i, j :| 0 <= i < j < |ops| && ops[i].key == ops[j].key { return SecondOperation(i, j); }
    if i :| 0 <= i < |ops| && ops[i].status.Odd? { return UnknownStatus(i); }
    if i :| 0 <= i < |keys| && keys[i] !in ledger.states { return ExampleMissing(i); }
    var i, j :| 0 <= i < j < |labels| && labels[i].key in keys && labels[i].key == labels[j].key;
    return SecondLabel(i, j);
  }

  /** The run that one start leaves, field by field. */
  lemma RecoveredFields(env: Env, ledger: Ledger, r: Run)
    ensures var s := Recovered(env, ledger, r);
            var ended := Pending(r.status) && !Pending(s.status);
            var ensured := Ensured(env, r);
            && s.facts == r.facts
            && s.recovered == (r.recovered || (r.facts.kind.Batch? && s.status.Queued?))
            && s.completedAt == (if ended then Some(env.now) else r.completedAt)
            && s.snapshot == (if Pending(r.status) && r.facts.kind.Batch? && ensured.Some? then ensured.value else r.snapshot)
            && s.counts == (if ended && s.status.Canceled? then Tallied(ledger, r.facts.id) else r.counts)
            && (ended && s.status.Canceled? ==> s.reason == CANCELED_ON_RESTART)
            && (ended && s.status.Failed? ==>
                  s.reason == if r.facts.kind.Evaluation? || (ensured.Some? && !r.facts.cancelRequested)
                              then INTERRUPTED else INVALID)
            && (!ended ==> s.reason == r.reason)
  {
    hide Ensured, Reconstructed, Tallied;
    if Reconstructed(ledger, r.facts).Some? { CountersAre(ledger, r.facts); }
  }

  /** And its status. */
  lemma RecoveredStatus(env: Env, ledger: Ledger, r: Run)
    requires Pending(r.status)
    ensures var s, ensured := Recovered(env, ledger, r), Ensured(env, r);
            && (r.facts.kind.Evaluation? || (r.facts.kind.Batch? && ensured.None?) ==> s.status.Failed?)
            && (r.facts.kind.Unknown? ==> s == r)
            && (r.facts.kind.Batch? && ensured.Some? ==>
                  && (r.status.Queued? || r.status.Running? ==> s.status.Queued?)
                  && (r.status.Paused? ==> s.status.Paused?)
                  && (r.status.Canceling? ==>
                        s.status == if r.facts.cancelRequested && Reconstructed(ledger, r.facts).Some?
                                    then Canceled else Failed))
            && (Resumes(env, r) <==> r.facts.kind.Batch? && s.status.Queued?)
  {
    hide Ensured, Reconstructed;
  }

  lemma LeftAlone(env: Env, ledger: Ledger, r: Run)
    requires !Pending(r.status)
    ensures Recovered(env, ledger, r) == r && !Resumes(env, r)
  {}

  /** Recovery leaves the run alone from now on, at whatever later start. */
  predicate Settled(r: Run) {
    Pending(r.status) && !r.facts.kind.Unknown? ==>
      && r.facts.kind.Batch?
      && (r.status.Paused? || (r.status.Queued? && r.recovered))
      && r.snapshot.Second? && LineageMatches(r.facts, r.snapshot)
  }

  lemma RecoveredIsSettled(env: Env, ledger: Ledger, r: Run)
    ensures Settled(Recovered(env, ledger, r))
  {
    hide Ensured, Reconstructed;
  }

  /** A run is left alone by every start exactly when it is settled. */
  lemma SettledIffUnchanged(ledger: Ledger, r: Run)
    ensures Settled(r) <==> forall env :: Recovered(env, ledger, r) == r
  {
    if !Settled(r) {
      var env := Env("", (a, b, c, d) => None, (a, b, c) => None);
      assert Recovered(env, ledger, r) != r;
    }
  }

  /** A paused batch run stays paused exactly when its snapshot can be had; a canceling one is
      never on the resume list and never pending again. */
  lemma PausedAndCanceling(env: Env, ledger: Ledger, r: Run)
    requires r.facts.kind.Batch?
    ensures r.status.Paused? ==>
              && !Resumes(env, r)
              && (Recovered(env, ledger, r).status.Paused? <==> Ensured(env, r).Some?)
              && (Ensured(env, r).None? ==> Recovered(env, ledger, r).status.Failed?)
    ensures r.status.Canceling? ==>
              && !Resumes(env, r) && !Pending(Recovered(env, ledger, r).status)
              && (Recovered(env, ledger, r).status.Canceled? <==>
                    && Ensured(env, r).Some? && r.facts.cancelRequested
                    && Reconstructed(ledger, r.facts).Some?)
  {
    hide Ensured, Reconstructed;
  }

  /** What the state of a run after any number of starts owes to its state before. */
  ghost predicate Succeeds(r: Run, s: Run) {
    && s.facts == r.facts
    && (!Pending(r.status) || r.facts.kind.Unknown? ==> s == r)
    && (r.facts.kind.Evaluation? ==> s == r || s.status.Failed?)
    && (r.facts.kind.Batch? ==>
          match r.status
          case Paused => s.status.Paused? || s.status.Failed?
          case Canceling => s == r || s.status.Canceled? || s.status.Failed?
          case Queued => s.status.Queued? || s.status.Failed?
          case Running => s == r || s.status.Queued? || s.status.Failed?
          case _ => true)
    && (s.status.Canceled? && !r.status.Canceled? ==>
          && r.status.Canceling? && s.facts.cancelRequested && s.facts.inputs.Inputs?
          && Total(s.counts) <= |s.facts.inputs.keys| == s.facts.total)
    && (Pending(s.status) ==> s.counts == r.counts && s.completedAt == r.completedAt && s.reason == r.reason)
  }

  lemma RecoveredSucceeds(env: Env, ledger: Ledger, r: Run)
    ensures Succeeds(r, Recovered(env, ledger, r))
  {
    hide Ensured, Reconstructed, LineageMatches;
    if Reconstructed(ledger, r.facts).Some? {
      CountersWithinInputs(ledger, r.facts);
    }
  }

  lemma SucceedsTransitively(r: Run, s: Run, t: Run)
    requires Succeeds(r, s) && Succeeds(s, t)
    ensures Succeeds(r, t)
  {}

  // ----- Reconciliation and counting, as the services do them -----

  method ReconcileBatchItems(ledger: Ledger, run: string, keys: seq<string>)
    returns (done: Option<map<string, (Invocation, bool)>>)
    ensures done.Some? <==> Coherent(ledger, run, keys)
    ensures done.Some? ==> done.value == Outcomes(ledger, run, OperationsOf(ledger, run))
  {
    var ops := OperationsOf(ledger, run);
    if !Distinct(keys) { return None; }
    var grouped := GroupOperations(ops, keys);
    if grouped.None? { return None; }
    for i := 0 to |keys|
      invariant forall k :: 0 <= k < i ==> keys[k] in ledger.states
    {
      if keys[i] !in ledger.states { return None; }
    }
    var unique := IndexLabels(ledger.labels, keys);
    if !unique { return None; }
    var found: map<string, (Invocation, bool)> := map[];
    for i := 0 to |ops|
      invariant StatusesKnown(ops[..i])
      invariant found == Outcomes(ledger, run, ops[..i])
    {
      assert ops[..i + 1][..i] == ops[..i];
      if ops[i].status.Odd? { return None; }
      if Counted(ledger, run, ops[i]) {
        found := found[ops[i].key.value := (ops[i].status, ops[i].schemaValid)];
      }
    }
    assert ops[..|ops|] == ops;
    return Some(found);
  }

  /** The operations by item, when each belongs to the run and no item has two. */
  method GroupOperations(ops: seq<Operation>, keys: seq<string>) returns (byKey: Option<map<string, Operation>>)
    ensures byKey.Some? <==> AllBelong(ops, keys) && OnePerKey(ops)
    ensures byKey.Some? ==> forall i :: 0 <= i < |ops| ==>
              ops[i].key.value in byKey.value && byKey.value[ops[i].key.value] == ops[i]
  {
    var rows: map<string, Operation> := map[];
    for i := 0 to |ops|
      invariant AllBelong(ops[..i], keys) && OnePerKey(ops[..i])
      invariant forall k :: k in rows <==> exists j :: 0 <= j < i && ops[j].key == Some(k)
      invariant forall j :: 0 <= j < i ==> ops[j].key.value in rows && rows[ops[j].key.value] == ops[j]
    {
      if ops[i].key.None? || ops[i].key.value !in keys || !ops[i].belongs { return None; }
      if ops[i].key.value in rows { return None; }
      rows := rows[ops[i].key.value := ops[i]];
    }
    assert ops[..|ops|] == ops;
    return Some(rows);
  }

  method IndexLabels(labels: seq<Label>, keys: seq<string>) returns (unique: bool)
    ensures unique <==> LabelsUnique(labels, keys)
  {
    var byKey: map<string, Label> := map[];
    for i := 0 to |labels|
      invariant LabelsUnique(labels[..i], keys)
      invariant forall k :: k in byKey <==> k in keys && exists j :: 0 <= j < i && labels[j].key == k
    {
      var found := labels[i];
      if found.key in keys {
        if found.key in byKey {
          ghost var j :| 0 <= j < i && labels[j].key == found.key;
          return false;
        }
        byKey := byKey[found.key := found];
      }
    }
    assert labels[..|labels|] == labels;
    return true;
  }

  method SummarizeBatchOutcomes(outcomes: map<string, (Invocation, bool)>) returns (c: Counts)
    ensures c == Summary(outcomes)
    ensures Total(c) == |outcomes|
  {
    var succeeded, schemaInvalid, timedOut, endpointError := 0, 0, 0, 0;
    var rest := outcomes.Keys;
    ghost var seen: map<string, (Invocation, bool)> := map[];
    while rest != {}
      invariant rest <= outcomes.Keys
      invariant seen == outcomes - rest
      invariant Counts(succeeded, schemaInvalid, timedOut, endpointError) == Summary(seen)
      decreases rest
    {
      var key :| key in rest;
      SummaryStep(seen, key, outcomes[key]);
      match BucketOf(outcomes[key]) {
        case InSucceeded => succeeded := succeeded + 1;
        case InSchemaInvalid => schemaInvalid := schemaInvalid + 1;
        case InTimeout => timedOut := timedOut + 1;
        case InEndpointError => endpointError := endpointError + 1;
      }
      rest := rest - {key};
      seen := seen[key := outcomes[key]];
    }
    assert seen == outcomes;
    SummaryConserves(outcomes);
    c := Counts(succeeded, schemaInvalid, timedOut, endpointError);
  }

  lemma SummaryStep(seen: map<string, (Invocation, bool)>, key: string, o: (Invocation, bool))
    requires key !in seen
    ensures var c, d := Summary(seen), Summary(seen[key := o]);
            match BucketOf(o)
            case InSucceeded => d == c.(succeeded := c.succeeded + 1)
            case InSchemaInvalid => d == c.(schemaInvalid := c.schemaInvalid + 1)
            case InTimeout => d == c.(timeout := c.timeout + 1)
            case InEndpointError => d == c.(endpointError := c.endpointError + 1)
  {
    var next := seen[key := o];
    BucketStep(seen, key, o, InSucceeded);
    BucketStep(seen, key, o, InSchemaInvalid);
    BucketStep(seen, key, o, InTimeout);
    BucketStep(seen, key, o, InEndpointError);
  }

  lemma BucketStep(seen: map<string, (Invocation, bool)>, key: string, o: (Invocation, bool), b: Bucket)
    requires key !in seen
    ensures |KeysIn(seen[key := o], b)| == |KeysIn(seen, b)| + (if BucketOf(o) == b then 1 else 0)
  {
    var extra: set<string> := if BucketOf(o) == b then {key} else {};
    assert KeysIn(seen[key := o], b) == KeysIn(seen, b) + extra;
    assert key !in KeysIn(seen, b);
  }

  // ----- Recovery on mutable records -----

  /** One run row as the session holds it. */
  class RunRecord {
    const facts: Facts
    var status: Status
    var statusReason: string
    var completedAt: Option<string>
    var recoveredFromRestart: bool
    var runtimeConfigSnapshot: Snapshot
    var counts: Counts

    constructor (row: Run)
      ensures Value() == row
    {
      facts, status, statusReason := row.facts, row.status, row.reason;
      completedAt, recoveredFromRestart := row.completedAt, row.recovered;
      runtimeConfigSnapshot, counts := row.snapshot, row.counts;
    }

    function Value(): Run
      reads this
    {
      Run(facts, status, statusReason, completedAt, recoveredFromRestart, runtimeConfigSnapshot, counts)
    }

    /** `ensure_runtime_config_snapshot` in its savepoint: a failure leaves the row alone. */
    method EnsureSnapshot(env: Env) returns (ok: bool)
      modifies `runtimeConfigSnapshot
      ensures ok <==> Ensured(env, old(Value())).Some?
      ensures runtimeConfigSnapshot ==
              if ok then Ensured(env, old(Value())).value else old(runtimeConfigSnapshot)
    {
      var ensured := Ensured(env, Value());
      ok := ensured.Some?;
      if ok { runtimeConfigSnapshot := ensured.value; }
    }

    /** `_reconstruct_canceled_batch_counters`. */
    method ReconstructCounters(ledger: Ledger) returns (c: Option<Counts>)
      ensures c == Reconstructed(ledger, facts)
    {
      if facts.inputs.NoInputs? { return None; }
      if !Distinct(facts.inputs.keys) || facts.total != |facts.inputs.keys| { return None; }
      if facts.id !in ledger.configurable { return None; }
      var outcomes := ReconcileBatchItems(ledger, facts.id, facts.inputs.keys);
      if outcomes.None? { return None; }
      var counts := SummarizeBatchOutcomes(outcomes.value);
      return Some(counts);
    }

    /** The body of the recovery loop for one run. */
    method Recover(env: Env, ledger: Ledger) returns (resume: bool)
      requires Pending(status)
      modifies this
      ensures Value() == Recovered(env, ledger, old(Value()))
      ensures resume <==> Resumes(env, old(Value()))
      ensures status.Canceled? ==> counts == Tallied(ledger, facts.id)
    {
      RecoveredFields(env, ledger, Value());
      hide Tallied;
      resume := false;
      if facts.kind.Evaluation? {
        status, statusReason, completedAt := Failed, INTERRUPTED, Some(env.now);
      } else if facts.kind.Batch? {
        var ok := EnsureSnapshot(env);
        if !ok {
          status, statusReason, completedAt := Failed, INVALID, Some(env.now);
          return;
        }
        if status.Queued? || status.Running? {
          status, recoveredFromRestart, resume := Queued, true, true;
        } else if status.Canceling? {
          if facts.cancelRequested {
            var c := ReconstructCounters(ledger);
            if c.None? {
              status, statusReason := Failed, INVALID;
            } else {
              status, statusReason, counts := Canceled, CANCELED_ON_RESTART, c.value;
            }
          } else {
            status, statusReason := Failed, INTERRUPTED;
          }
          completedAt := Some(env.now);
        }
      }
    }
  }

  // ----- Projects and starts -----

  datatype Project = Project(name: string, isDirectory: bool, hasDatabase: bool, archived: bool,
                             rows: seq<Run>, ledger: Ledger)

  /** What one start meets: its environment, which projects it can lock and open, which commits
      go through. */
  datatype Start = Start(env: Env, opens: string -> bool, commits: string -> bool)

  predicate Eligible(p: Project, start: Start) {
    p.isDirectory && p.hasDatabase && !p.archived && start.opens(p.name)
  }

  function RecoveredRows(env: Env, ledger: Ledger, rows: seq<Run>): (out: seq<Run>)
    ensures |out| == |rows|
    ensures forall i :: 0 <= i < |rows| ==> out[i] == Recovered(env, ledger, rows[i])
  {
    seq(|rows|, i requires 0 <= i < |rows| => Recovered(env, ledger, rows[i]))
  }

  function RecoveredProject(p: Project, start: Start): Project {
    if Eligible(p, start) then p.(rows := RecoveredRows(start.env, p.ledger, p.rows)) else p
  }

  function TargetsIn(name: string, env: Env, rows: seq<Run>): seq<(string, string)> {
    if rows == [] then [] else
    TargetsIn(name, env, rows[..|rows| - 1])
    + (if Resumes(env, rows[|rows| - 1]) then [(name, rows[|rows| - 1].facts.id)] else [])
  }

  function Targets(projects: seq<Project>, start: Start): seq<(string, string)> {
    if projects == [] then [] else
    var p := projects[|projects| - 1];
    Targets(projects[..|projects| - 1], start)
    + (if Eligible(p, start) then TargetsIn(p.name, start.env, p.rows) else [])
  }

  /** Something of the project is to be written back. */
  predicate NeedsCommit(p: Project, start: Start) {
    Eligible(p, start) && HasPending(p.rows)
  }

  predicate HasPending(rows: seq<Run>) {
    exists j :: 0 <= j < |rows| && Pending(rows[j].status)
  }

  lemma NothingPending()
    ensures !HasPending([])
  {}

  lemma OneMoreRow(rows: seq<Run>, r: Run)
    ensures HasPending(rows + [r]) <==> HasPending(rows) || Pending(r.status)
  {
    hide Pending;
    assert (rows + [r])[|rows|] == r;
    assert forall j :: 0 <= j < |rows| ==> (rows + [r])[j] == rows[j];
  }

  /** A project that a start may touch is one of the workspace's directories with a database that
      opens and no archive mark; any other stays as it is.  A run that it cancels gets the
      counters that its operations call for. */
  ghost predicate RightlyRecovered(p: Project, start: Start, q: Project) {
    && q == p.(rows := q.rows) && |q.rows| == |p.rows|
    && (p.archived || !p.isDirectory || !p.hasDatabase || !start.opens(p.name) ==> q == p)
    && (forall i :: 0 <= i < |p.rows| && p.rows[i].status.Canceling? && q.rows[i].status.Canceled? ==>
          q.rows[i].counts == Tallied(p.ledger, p.rows[i].facts.id))
  }

  lemma RightlyAll(before: seq<Project>, start: Start, after: seq<Project>)
    requires |after| == |before|
    requires forall i :: 0 <= i < |before| ==>
               after[i] == before[i] || after[i] == RecoveredProject(before[i], start)
    ensures forall i :: 0 <= i < |before| ==> RightlyRecovered(before[i], start, after[i])
  {
    hide RightlyRecovered;
    forall i | 0 <= i < |before| ensures RightlyRecovered(before[i], start, after[i]) {
      ProjectRightly(before[i], start, after[i]);
    }
  }

  lemma ProjectRightly(p: Project, start: Start, q: Project)
    requires q == p || q == RecoveredProject(p, start)
    ensures RightlyRecovered(p, start, q)
  {
    hide Recovered, Tallied;
    forall i | 0 <= i < |p.rows| && p.rows[i].status.Canceling? && q.rows[i].status.Canceled?
      ensures q.rows[i].counts == Tallied(p.ledger, p.rows[i].facts.id)
    {
      RecoveredFields(start.env, p.ledger, p.rows[i]);
    }
  }

  datatype StartResult = Recovery(targets: seq<(string, string)>) | CommitFailed(project: string)

  class Workspace {
    var projects: seq<Project>

    constructor (projects: seq<Project>)
      ensures this.projects == projects
    {
      this.projects := projects;
    }

    /** Load a pending row as a record, recover it, and write it back. */
    method RecoverRow(r: Run, env: Env, ledger: Ledger) returns (row: Run, resume: bool)
      requires Pending(r.status)
      ensures row == Recovered(env, ledger, r)
      ensures resume <==> Resumes(env, r)
    {
      hide Resumes, Recovered;
      var run := new RunRecord(r);
      resume := run.Recover(env, ledger);
      row := run.Value();
    }

    /** Recover the runs of one project in one session. */
    method RecoverProject(p: Project, env: Env) returns (rows: seq<Run>, targets: seq<(string, string)>, any: bool)
      ensures rows == RecoveredRows(env, p.ledger, p.rows)
      ensures targets == TargetsIn(p.name, env, p.rows)
      ensures any <==> HasPending(p.rows)
      ensures !any ==> rows == p.rows
    {
      hide Resumes, Recovered, Pending, HasPending;
      rows, targets, any := [], [], false;
      NothingPending();
      assert p.rows[..0] == [];
      for i := 0 to |p.rows|
        invariant |rows| == i
        invariant forall k :: 0 <= k < i ==> rows[k] == Recovered(env, p.ledger, p.rows[k])
        invariant targets == TargetsIn(p.name, env, p.rows[..i])
        invariant any <==> HasPending(p.rows[..i])
        invariant !any ==> rows == p.rows[..i]
      {
        assert p.rows[..i + 1][..i] == p.rows[..i];
        OneMoreRow(p.rows[..i], p.rows[i]);
        assert p.rows[..i + 1] == p.rows[..i] + [p.rows[i]];
        if Pending(p.rows[i].status) {
          any := true;
          var row, resume := RecoverRow(p.rows[i], env, p.ledger);
          if resume { targets := targets + [(p.name, p.rows[i].facts.id)]; }
          rows := rows + [row];
        } else {
          LeftAlone(env, p.ledger, p.rows[i]);
          rows := rows + [p.rows[i]];
        }
      }
      assert p.rows[..|p.rows|] == p.rows;
    }

    /** `_recover_interrupted_runs`: each eligible project in turn, each in its own commit.  A
        failed commit ends the start; the projects before it stay recovered. */
    method RecoverInterruptedRuns(start: Start) returns (r: StartResult)
      modifies this
      ensures |projects| == |old(projects)|
      ensures r.Recovery? ==>
                && (forall i :: 0 <= i < |projects| ==> projects[i] == RecoveredProject(old(projects)[i], start))
                && r.targets == Targets(old(projects), start)
      ensures r.CommitFailed? ==>
                exists k :: && 0 <= k < |projects| && r.project == projects[k].name && !start.commits(r.project)
                            && (forall i :: 0 <= i < k ==> projects[i] == RecoveredProject(old(projects)[i], start))
                            && (forall i :: k <= i < |projects| ==> projects[i] == old(projects)[i])
      ensures r.Recovery? <==> forall i :: 0 <= i < |projects| && NeedsCommit(old(projects)[i], start) ==>
                                start.commits(old(projects)[i].name)
      ensures forall i :: 0 <= i < |projects| ==> RightlyRecovered(old(projects)[i], start, projects[i])
    {
      hide RecoveredRows, Recovered, TargetsIn, RightlyRecovered, HasPending;
      var targets := [];
      for i := 0 to |projects|
        invariant |projects| == |old(projects)|
        invariant forall k :: 0 <= k < i ==> projects[k] == RecoveredProject(old(projects)[k], start)
        invariant forall k :: i <= k < |projects| ==> projects[k] == old(projects)[k]
        invariant targets == Targets(old(projects)[..i], start)
        invariant forall k :: 0 <= k < i && NeedsCommit(old(projects)[k], start) ==>
                    start.commits(old(projects)[k].name)
      {
        var p := projects[i];
        assert old(projects)[..i + 1][..i] == old(projects)[..i];
        if Eligible(p, start) {
          var rows, more, any := RecoverProject(p, start.env);
          targets := targets + more;
          if any {
            if !start.commits(p.name) {
              RightlyAll(old(projects), start, projects);
              return CommitFailed(p.name);
            }
            projects := projects[i := p.(rows := rows)];
          }
        }
      }
      assert old(projects)[..|projects|] == old(projects);
      RightlyAll(old(projects), start, projects);
      return Recovery(targets);
    }

    method StartOnce(start: Start) returns (r: StartResult)
      modifies this
      ensures Stepped(old(projects), start, r, projects)
    {
      r := RecoverInterruptedRuns(start);
    }

    /** Any number of starts, each with its own environment, projects it can open and commits
        that fail.  Every run only ever moves as `Succeeds` allows, and the rows that a
        completed start leaves in a project it could recover are settled and are the rows after
        every later start as well. */
    method StartRepeatedly(starts: seq<Start>) returns (results: seq<StartResult>, states: seq<seq<Project>>)
      modifies this
      ensures |results| == |states| == |starts|
      ensures projects == Latest(old(projects), states)
      ensures History(old(projects), starts, results, states)
    {
      results, states := [], [];
      assert History(old(projects), [], [], []);
      LatestOf(projects, [], projects);
      hide *;
      for n := 0 to |starts|
        invariant |results| == |states| == n
        invariant projects == Latest(old(projects), states)
        invariant History(old(projects), starts[..n], results, states)
      {
        var r := StartOnce(starts[n]);
        StartRecorded(old(projects), starts[..n], results, states, starts[n], r, projects);
        assert starts[..n] + [starts[n]] == starts[..n + 1];
        LatestOf(old(projects), states, projects);
        results, states := results + [r], states + [projects];
      }
      assert starts[..|starts|] == starts;
    }
  }

  /** The projects after the last of several starts. */
  function Latest(first: seq<Project>, states: seq<seq<Project>>): seq<Project> {
    if states == [] then first else states[|states| - 1]
  }

  lemma LatestOf(first: seq<Project>, states: seq<seq<Project>>, next: seq<Project>)
    ensures Latest(first, states + [next]) == next && Latest(first, []) == first
  {}

  /** One start leaves each project recovered, or alone if the start did not get that far. */
  ghost predicate Stepped(before: seq<Project>, start: Start, r: StartResult, after: seq<Project>) {
    && |after| == |before|
    && forall i :: 0 <= i < |before| ==>
         (after[i] == before[i] && r.CommitFailed?) || after[i] == RecoveredProject(before[i], start)
  }

  predicate Completed(first: Project, start: Start, r: StartResult) {
    r.Recovery? && Eligible(first, start)
  }

  /** The projects after each of several starts, beginning with `first`. */
  ghost predicate History(first: seq<Project>, starts: seq<Start>, results: seq<StartResult>, states: seq<seq<Project>>) {
    && |results| == |states| == |starts|
    && (forall k :: 0 <= k < |states| ==> |states[k]| == |first|)
    && (forall k, i :: 0 <= k < |states| && 0 <= i < |first| ==> Progressed(first[i], states[k][i]))
    && (forall k, i :: 0 <= k < |states| && 0 <= i < |first| && Completed(first[i], starts[k], results[k]) ==>
          AllSettled(states[k][i].rows))
    && (forall k, m, i :: 0 <= k <= m < |states| && 0 <= i < |first| && Completed(first[i], starts[k], results[k]) ==>
          states[m][i] == states[k][i])
  }

  lemma StartRecorded(first: seq<Project>, starts: seq<Start>, results: seq<StartResult>, states: seq<seq<Project>>,
                      start: Start, r: StartResult, next: seq<Project>)
    requires History(first, starts, results, states)
    requires Stepped(Latest(first, states), start, r, next)
    ensures History(first, starts + [start], results + [r], states + [next])
  {
    hide Progressed, AllSettled, Eligible, RecoveredProject;
    var last := Latest(first, states);
    forall i | 0 <= i < |first|
      ensures Progressed(first[i], next[i])
      ensures AllSettled(last[i].rows) ==> next[i] == last[i]
      ensures Completed(first[i], start, r) ==> AllSettled(next[i].rows)
    {
      if states == [] { NoProgress(first[i]); }
      OneStart(first[i], last[i], next[i], start);
    }
  }

  lemma NoProgress(p: Project)
    ensures Progressed(p, p)
  {}

  predicate AllSettled(rows: seq<Run>) {
    forall i :: 0 <= i < |rows| ==> Settled(rows[i])
  }

  /** The same project later: the same facts about it, each run moved on properly, and nothing
      at all once every run was settled. */
  ghost predicate Progressed(p: Project, q: Project) {
    && q == p.(rows := q.rows) && |q.rows| == |p.rows|
    && (forall i :: 0 <= i < |p.rows| ==> Succeeds(p.rows[i], q.rows[i]))
    && (AllSettled(p.rows) ==> q == p)
  }

  lemma {:induction false} OneStart(first: Project, p: Project, q: Project, start: Start)
    requires Progressed(first, p) && (q == p || q == RecoveredProject(p, start))
    ensures Progressed(first, q)
    ensures AllSettled(p.rows) ==> q == p
    ensures q == RecoveredProject(p, start) && Eligible(first, start) ==> AllSettled(q.rows)
  {
    hide Recovered, Settled, Succeeds;
    if q == RecoveredProject(p, start) && Eligible(p, start) {
      forall i | 0 <= i < |p.rows|
        ensures Settled(q.rows[i]) && Succeeds(first.rows[i], q.rows[i])
        ensures Settled(p.rows[i]) ==> q.rows[i] == p.rows[i]
      {
        RecoveredIsSettled(start.env, p.ledger, p.rows[i]);
        SettledIffUnchanged(p.ledger, p.rows[i]);
        RecoveredSucceeds(start.env, p.ledger, p.rows[i]);
        SucceedsTransitively(first.rows[i], p.rows[i], q.rows[i]);
      }
      if AllSettled(p.rows) { assert q.rows == p.rows; }
    }
  }

  // ----- The resume list -----

  lemma {:induction false} TargetsInAre(name: string, env: Env, rows: seq<Run>)
    ensures forall t :: t in TargetsIn(name, env, rows) <==>
              exists i :: 0 <= i < |rows| && Resumes(env, rows[i]) && t == (name, rows[i].facts.id)
  {
    hide Resumes;
    if rows != [] {
      var init := rows[..|rows| - 1];
      TargetsInAre(name, env, init);
      forall t | t in TargetsIn(name, env, rows)
        ensures exists i :: 0 <= i < |rows| && Resumes(env, rows[i]) && t == (name, rows[i].facts.id)
      {
        if t in TargetsIn(name, env, init) {
          var i :| 0 <= i < |init| && Resumes(env, init[i]) && t == (name, init[i].facts.id);
          assert init[i] == rows[i];
        }
      }
      forall i | 0 <= i < |rows| && Resumes(env, rows[i])
        ensures (name, rows[i].facts.id) in TargetsIn(name, env, rows)
      {
        if i < |init| { assert init[i] == rows[i]; }
      }
    }
  }

  /** Run ids are primary keys of their database, project names are directory names. */
  predicate Keyed(projects: seq<Project>) {
    && (forall i, j :: 0 <= i < j < |projects| ==> projects[i].name != projects[j].name)
    && (forall p, i, j :: 0 <= p < |projects| && 0 <= i < j < |projects[p].rows| ==>
          projects[p].rows[i].facts.id != projects[p].rows[j].facts.id)
  }

  predicate IdsDiffer(rows: seq<Run>) {
    forall i, j :: 0 <= i < j < |rows| ==> rows[i].facts.id != rows[j].facts.id
  }

  lemma {:induction false} TargetsInDistinct(name: string, env: Env, rows: seq<Run>)
    requires IdsDiffer(rows)
    ensures Distinct(TargetsIn(name, env, rows))
  {
    hide Resumes;
    if rows != [] {
      var init := rows[..|rows| - 1];
      assert forall i :: 0 <= i < |init| ==> init[i] == rows[i];
      TargetsInDistinct(name, env, init);
      TargetsInAre(name, env, init);
      var t := (name, rows[|rows| - 1].facts.id);
      assert t !in TargetsIn(name, env, init);
    }
  }

  /** The list names exactly the batch runs that were queued or running, with a usable
      snapshot, in a project this start could open and that is not archived. */
  lemma {:induction false} TargetsAre(projects: seq<Project>, start: Start)
    ensures forall t :: t in Targets(projects, start) <==>
              exists p, i :: && 0 <= p < |projects| && Eligible(projects[p], start)
                             && 0 <= i < |projects[p].rows| && Resumes(start.env, projects[p].rows[i])
                             && t == (projects[p].name, projects[p].rows[i].facts.id)
  {
    hide Resumes, Eligible;
    if projects != [] {
      var init := projects[..|projects| - 1];
      var last := projects[|projects| - 1];
      TargetsAre(init, start);
      TargetsInAre(last.name, start.env, last.rows);
      forall t | t in Targets(projects, start)
        ensures exists p, i :: && 0 <= p < |projects| && Eligible(projects[p], start)
                               && 0 <= i < |projects[p].rows| && Resumes(start.env, projects[p].rows[i])
                               && t == (projects[p].name, projects[p].rows[i].facts.id)
      {
        if t in Targets(init, start) {
          var p, i :| && 0 <= p < |init| && Eligible(init[p], start)
                      && 0 <= i < |init[p].rows| && Resumes(start.env, init[p].rows[i])
                      && t == (init[p].name, init[p].rows[i].facts.id);
          assert init[p] == projects[p];
        }
      }
      forall p, i | && 0 <= p < |projects| && Eligible(projects[p], start)
                    && 0 <= i < |projects[p].rows| && Resumes(start.env, projects[p].rows[i])
        ensures (projects[p].name, projects[p].rows[i].facts.id) in Targets(projects, start)
      {
        if p < |init| { assert init[p] == projects[p]; }
      }
    }
  }

  /** Whether a run is one that a start brings back to work: an active batch run, in a project that
      is not archived and can be opened, which recovery leaves queued. */
  predicate BroughtBack(p: Project, start: Start, r: Run) {
    && p.isDirectory && p.hasDatabase && !p.archived && start.opens(p.name)
    && r.facts.kind.Batch? && (r.status.Queued? || r.status.Running?)
    && Recovered(start.env, p.ledger, r).status.Queued?
  }

  lemma BroughtBackIff(p: Project, start: Start, r: Run)
    ensures BroughtBack(p, start, r) <==> Eligible(p, start) && Resumes(start.env, r)
  {
    if Pending(r.status) { RecoveredStatus(start.env, p.ledger, r); }
  }

  /** The resume list names exactly the runs that a start brings back. */
  lemma TargetsListed(projects: seq<Project>, start: Start)
    ensures forall t :: t in Targets(projects, start) <==>
              exists p, i :: && 0 <= p < |projects| && 0 <= i < |projects[p].rows|
                             && BroughtBack(projects[p], start, projects[p].rows[i])
                             && t == (projects[p].name, projects[p].rows[i].facts.id)
  {
    TargetsAre(projects, start);
    forall p, i | 0 <= p < |projects| && 0 <= i < |projects[p].rows|
      ensures BroughtBack(projects[p], start, projects[p].rows[i])
              <==> Eligible(projects[p], start) && Resumes(start.env, projects[p].rows[i])
    {
      BroughtBackIff(projects[p], start, projects[p].rows[i]);
    }
    hide BroughtBack, Eligible, Resumes, Targets;
  }

  lemma DistinctConcat(a: seq<(string, string)>, b: seq<(string, string)>)
    requires Distinct(a) && Distinct(b) && forall t :: t in a ==> t !in b
    ensures Distinct(a + b)
  {
    forall i, j | 0 <= i < j < |a + b| ensures (a + b)[i] != (a + b)[j] {
      if i < |a| <= j { assert a[i] in a && b[j - |a|] in b; }
    }
  }

  /** No run is resumed twice. */
  lemma {:induction false} TargetsDistinct(projects: seq<Project>, start: Start)
    requires Keyed(projects)
    ensures Distinct(Targets(projects, start))
  {
    hide Resumes, Eligible;
    if projects != [] {
      var init := projects[..|projects| - 1];
      var last := projects[|projects| - 1];
      assert forall i :: 0 <= i < |init| ==> init[i] == projects[i];
      TargetsDistinct(init, start);
      TargetsAre(init, start);
      TargetsInAre(last.name, start.env, last.rows);
      TargetsInDistinct(last.name, start.env, last.rows);
      var a, b := Targets(init, start), TargetsIn(last.name, start.env, last.rows);
      assert forall t :: t in a ==> t.0 != last.name;
      assert forall t :: t in b ==> t.0 == last.name;
      DistinctConcat(a, b);
      assert a + [] == a;
    }
  }
}
