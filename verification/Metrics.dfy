/** The per-device metric series: labelled gauges, counters and a histogram, seen
    one device at a time. */
module Metrics {
  import opened Wrappers

  datatype Stage = Connect | Auth | Fetch | Parse | Git

  /** backup_errors_total of one device, by stage. */
  datatype Tally = Tally(connect: nat, auth: nat, fetch: nat, parse: nat, git: nat)

  function Bump(t: Tally, stage: Stage): Tally {
    match stage
    case Connect => t.(connect := t.connect + 1)
    case Auth => t.(auth := t.auth + 1)
    case Fetch => t.(fetch := t.fetch + 1)
    case Parse => t.(parse := t.parse + 1)
    case Git => t.(git := t.git + 1)
  }

  function Sum(t: Tally): nat {
    t.connect + t.auth + t.fetch + t.parse + t.git
  }

  /** Which series backup_last_error has for one device. */
  datatype Marks = Marks(connect: bool, auth: bool, fetch: bool, parse: bool, git: bool)

  const NO_MARKS := Marks(false, false, false, false, false)

  function Only(stage: Stage): Marks {
    Marks(stage == Connect, stage == Auth, stage == Fetch, stage == Parse, stage == Git)
  }

  /** The gauges of the last attempt, the counters of all attempts and of all changes. */
  datatype Outcome = Outcome(success: Option<bool>, consecutive: Option<nat>)
  datatype Attempts = Attempts(observed: nat, succeeded: nat, failed: nat)
  datatype Changes = Changes(changed: nat, commits: nat)

  /** All series carrying one device's label.  A counter that does not exist reads zero. */
  datatype Series = Series(outcome: Outcome, lastErrors: Marks, attempts: Attempts, errors: Tally, changes: Changes)

  const NO_OUTCOME := Outcome(None, None)
  const BLANK := Series(NO_OUTCOME, NO_MARKS, Attempts(0, 0, 0), Tally(0, 0, 0, 0, 0), Changes(0, 0))

  function Attempted(a: Attempts, ok: bool): Attempts {
    if ok then Attempts(a.observed + 1, a.succeeded + 1, a.failed) else Attempts(a.observed + 1, a.succeeded, a.failed + 1)
  }

  function AfterSuccess(s: Series): Series {
    Series(Outcome(Some(true), Some(0)), NO_MARKS, Attempted(s.attempts, true), s.errors, s.changes)
  }

  function AfterFailure(s: Series, stage: Stage, consecutive: nat): Series {
    Series(Outcome(Some(false), Some(consecutive)), Only(stage), Attempted(s.attempts, false), Bump(s.errors, stage), s.changes)
  }

  function AfterChange(s: Series): Series {
    s.(changes := Changes(s.changes.changed + 1, s.changes.commits + 1))
  }

  /** The counters of one device add up. */
  predicate Balanced(s: Series) {
    && s.attempts.observed == s.attempts.succeeded + s.attempts.failed
    && s.changes.changed == s.changes.commits
  }

  /** The failures of one device are counted once, by stage. */
  predicate Tallied(s: Series) {
    s.attempts.failed == Sum(s.errors)
  }

  /** The gauges of one device tell the given failure count and stage: success is 1 iff
      there are no failures, and a last-error series exists iff there are some. */
  predicate Tells(s: Series, failures: nat, stage: Option<Stage>) {
    if s.attempts.observed == 0 then
      failures == 0 && s.outcome == NO_OUTCOME && s.lastErrors == NO_MARKS
    else
      && s.outcome == Outcome(Some(failures == 0), Some(failures))
      && s.lastErrors == (if failures > 0 && stage.Some? then Only(stage.value) else NO_MARKS)
      && (failures > 0 ==> stage.Some?)
  }

  lemma ObservationsBalance(s: Series, stage: Stage, n: nat)
    ensures Balanced(s) ==> Balanced(AfterSuccess(s)) && Balanced(AfterFailure(s, stage, n)) && Balanced(AfterChange(s))
    ensures Tallied(s) ==> Tallied(AfterSuccess(s)) && Tallied(AfterFailure(s, stage, n)) && Tallied(AfterChange(s))
    ensures Tells(AfterSuccess(s), 0, None)
    ensures Tells(AfterFailure(s, stage, n), n, Some(stage)) <==> n > 0
  {
  }

  type Ledger = map<string, Series>

  function Of(l: Ledger, device: string): Series {
    if device in l then l[device] else BLANK
  }

  function Get<K>(m: map<K, nat>, k: K): nat {
    if k in m then m[k] else 0
  }

  function Find<K, V>(m: map<K, V>, k: K): Option<V> {
    if k in m then Some(m[k]) else None
  }

  function DropDevice<K(==), V>(m: map<(string, K), V>, device: string): map<(string, K), V> {
    map k | k in m && k.0 != device :: m[k]
  }

  /** The collectors: for each, one map from label values to a value. */
  datatype Collectors = Collectors(
    backupSuccess: map<string, bool>, consecutiveFailures: map<string, nat>,
    backupLastAttempt: map<string, int>, backupLastSuccess: map<string, int>,
    backupDuration: map<string, nat>, backupTotal: map<(string, bool), nat>,
    backupErrors: map<(string, Stage), nat>, backupLastError: set<(string, Stage)>,
    configChanged: map<string, nat>, gitCommits: map<string, nat>)

  const NO_SERIES := Collectors(map[], map[], map[], map[], map[], map[], map[], {}, map[], map[])

  function View(c: Collectors, device: string): Series {
    Series(Outcome(Find(c.backupSuccess, device), Find(c.consecutiveFailures, device)),
      LastErrors(c.backupLastError, device),
      Attempts(Get(c.backupDuration, device), Get(c.backupTotal, (device, true)), Get(c.backupTotal, (device, false))),
      Errors(c.backupErrors, device),
      Changes(Get(c.configChanged, device), Get(c.gitCommits, device)))
  }

  function LastErrors(es: set<(string, Stage)>, device: string): Marks {
    Marks((device, Connect) in es, (device, Auth) in es, (device, Fetch) in es, (device, Parse) in es, (device, Git) in es)
  }

  function Errors(es: map<(string, Stage), nat>, device: string): Tally {
    Tally(Get(es, (device, Connect)), Get(es, (device, Auth)), Get(es, (device, Fetch)),
      Get(es, (device, Parse)), Get(es, (device, Git)))
  }

  function ClearLastErrors(es: set<(string, Stage)>, device: string): set<(string, Stage)> {
    set e | e in es && e.0 != device
  }

  lemma LastErrorsAfter(es: set<(string, Stage)>, device: string, stage: Stage, d: string)
    ensures var cleared := ClearLastErrors(es, device);
            && LastErrors(cleared, d) == (if d == device then NO_MARKS else LastErrors(es, d))
            && LastErrors(cleared + {(device, stage)}, d) == (if d == device then Only(stage) else LastErrors(es, d))
  {
  }

  lemma ErrorsAfter(es: map<(string, Stage), nat>, device: string, stage: Stage, d: string)
    ensures var more := es[(device, stage) := Get(es, (device, stage)) + 1];
            Errors(more, d) == if d == device then Bump(Errors(es, d), stage) else Errors(es, d)
    ensures Errors(DropDevice(es, device), d) == if d == device then Tally(0, 0, 0, 0, 0) else Errors(es, d)
  {
  }

  lemma AttemptsAfter(c: Collectors, device: string, ok: bool, d: string)
    ensures var more := c.(backupDuration := c.backupDuration[device := Get(c.backupDuration, device) + 1],
                           backupTotal := c.backupTotal[(device, ok) := Get(c.backupTotal, (device, ok)) + 1]);
            View(more, d).attempts == if d == device then Attempted(View(c, d).attempts, ok) else View(c, d).attempts
  {
  }

  function WithSuccess(c: Collectors, device: string, at: int): Collectors {
    c.(backupSuccess := c.backupSuccess[device := true],
       consecutiveFailures := c.consecutiveFailures[device := 0],
       backupLastSuccess := c.backupLastSuccess[device := at],
       backupDuration := c.backupDuration[device := Get(c.backupDuration, device) + 1],
       backupTotal := c.backupTotal[(device, true) := Get(c.backupTotal, (device, true)) + 1],
       backupLastError := ClearLastErrors(c.backupLastError, device))
  }

  function WithFailure(c: Collectors, device: string, stage: Stage, consecutive: nat): Collectors {
    c.(backupSuccess := c.backupSuccess[device := false],
       consecutiveFailures := c.consecutiveFailures[device := consecutive],
       backupDuration := c.backupDuration[device := Get(c.backupDuration, device) + 1],
       backupTotal := c.backupTotal[(device, false) := Get(c.backupTotal, (device, false)) + 1],
       backupErrors := c.backupErrors[(device, stage) := Get(c.backupErrors, (device, stage)) + 1],
       backupLastError := ClearLastErrors(c.backupLastError, device) + {(device, stage)})
  }

  function WithChange(c: Collectors, device: string): Collectors {
    c.(configChanged := c.configChanged[device := Get(c.configChanged, device) + 1],
       gitCommits := c.gitCommits[device := Get(c.gitCommits, device) + 1])
  }

  function WithoutDevice(c: Collectors, device: string): Collectors {
    Collectors(c.backupSuccess - {device}, c.consecutiveFailures - {device},
      c.backupLastAttempt - {device}, c.backupLastSuccess - {device},
      c.backupDuration - {device}, DropDevice(c.backupTotal, device),
      DropDevice(c.backupErrors, device), ClearLastErrors(c.backupLastError, device),
      c.configChanged - {device}, c.gitCommits - {device})
  }

  // Each operation touches the series of its device only, and there does what the
  // per-device functions say.

  lemma SuccessIsLocal(c: Collectors, device: string, at: int, d: string)
    ensures View(WithSuccess(c, device, at), d) == if d == device then AfterSuccess(View(c, d)) else View(c, d)
  {
    LastErrorsAfter(c.backupLastError, device, Connect, d);
  }

  lemma FailureIsLocal(c: Collectors, device: string, stage: Stage, consecutive: nat, d: string)
    ensures View(WithFailure(c, device, stage, consecutive), d) ==
              if d == device then AfterFailure(View(c, d), stage, consecutive) else View(c, d)
  {
    LastErrorsAfter(c.backupLastError, device, stage, d);
    ErrorsAfter(c.backupErrors, device, stage, d);
    AttemptsAfter(c, device, false, d);
  }

  lemma ChangeIsLocal(c: Collectors, device: string, d: string)
    ensures View(WithChange(c, device), d) == if d == device then AfterChange(View(c, d)) else View(c, d)
  {
  }

  /** Forgetting a device drops every series of it, of every collector. */
  lemma ForgetIsComplete(c: Collectors, device: string, d: string)
    ensures View(WithoutDevice(c, device), d) == if d == device then BLANK else View(c, d)
    ensures device !in WithoutDevice(c, device).backupLastAttempt && device !in WithoutDevice(c, device).backupLastSuccess
  {
    LastErrorsAfter(c.backupLastError, device, Connect, d);
  }

  /** The registered collectors, which these methods update in place. */
  class Metrics {
    var c: Collectors

    constructor ()
      ensures c == NO_SERIES
    {
      c := NO_SERIES;
    }

    method ObserveAttempt(device: string, at: int)
      modifies this
      ensures c == old(c).(backupLastAttempt := old(c).backupLastAttempt[device := at])
    {
      c := c.(backupLastAttempt := c.backupLastAttempt[device := at]);
    }

    method ObserveSuccess(device: string, at: int)
      modifies this
      ensures c == WithSuccess(old(c), device, at)
    {
      c := c.(backupSuccess := c.backupSuccess[device := true]);
      c := c.(backupLastSuccess := c.backupLastSuccess[device := at]);
      c := c.(backupDuration := c.backupDuration[device := Get(c.backupDuration, device) + 1]);
      c := c.(backupTotal := c.backupTotal[(device, true) := Get(c.backupTotal, (device, true)) + 1]);
      c := c.(consecutiveFailures := c.consecutiveFailures[device := 0]);
      c := c.(backupLastError := ClearLastErrors(c.backupLastError, device));
    }

    method ObserveFailure(device: string, stage: Stage, consecutive: nat)
      modifies this
      ensures c == WithFailure(old(c), device, stage, consecutive)
    {
      c := c.(backupSuccess := c.backupSuccess[device := false]);
      c := c.(backupDuration := c.backupDuration[device := Get(c.backupDuration, device) + 1]);
      c := c.(backupTotal := c.backupTotal[(device, false) := Get(c.backupTotal, (device, false)) + 1]);
      c := c.(backupErrors := c.backupErrors[(device, stage) := Get(c.backupErrors, (device, stage)) + 1]);
      c := c.(consecutiveFailures := c.consecutiveFailures[device := consecutive]);
      c := c.(backupLastError := ClearLastErrors(c.backupLastError, device));
      c := c.(backupLastError := c.backupLastError + {(device, stage)});
    }

    /** The counters a backup that made a commit adds to. */
    method ObserveChange(device: string)
      modifies this
      ensures c == WithChange(old(c), device)
    {
      c := c.(configChanged := c.configChanged[device := Get(c.configChanged, device) + 1]);
      c := c.(gitCommits := c.gitCommits[device := Get(c.gitCommits, device) + 1]);
    }

    method ForgetDevice(device: string)
      modifies this
      ensures c == WithoutDevice(old(c), device)
    {
      c := c.(backupSuccess := c.backupSuccess - {device}, backupLastAttempt := c.backupLastAttempt - {device});
      c := c.(backupLastSuccess := c.backupLastSuccess - {device}, backupDuration := c.backupDuration - {device});
      c := c.(backupTotal := DropDevice(c.backupTotal, device), backupErrors := DropDevice(c.backupErrors, device));
      c := c.(backupLastError := ClearLastErrors(c.backupLastError, device));
      c := c.(consecutiveFailures := c.consecutiveFailures - {device});
      c := c.(configChanged := c.configChanged - {device}, gitCommits := c.gitCommits - {device});
    }
  }
}
