/** The runner's device table and the blocks of code that hold its mutex.

    Each function below is one such block, applied to the table; the methods of the
    class do the same in place.  How the blocks of concurrent callers and workers
    interleave is the subject of Interleaving.
  */
module Runner {
  import opened Wrappers
  import opened Metrics
  import opened Store

  datatype Device = Device(name: string, enabled: bool, interval: int)

  datatype Config = Config(devices: seq<Device>, concurrency: nat, retryInterval: int, runOnStart: bool, jitter: int)

  datatype State = State(
    enabled: bool, interval: int, nextRun: Option<int>, failures: nat, lastStage: Option<Stage>, running: bool,
    lastAttempt: Option<int>, lastSuccess: Option<int>, lastChanged: Option<int>)

  /** The state table, by device name. */
  type Table = map<string, State>

  ghost predicate Distinct(ds: seq<Device>) {
    forall i, j :: 0 <= i < j < |ds| ==> ds[i].name != ds[j].name
  }

  ghost predicate Named(ds: seq<Device>, name: string) {
    exists i :: 0 <= i < |ds| && ds[i].name == name
  }

  /** What the configuration loader guarantees. */
  ghost predicate Loaded(cfg: Config) {
    Distinct(cfg.devices) && cfg.concurrency >= 1
  }

  // ---------- selecting devices ----------

  function Select(ds: seq<Device>, p: Device -> bool): seq<Device> {
    if ds == [] then [] else (if p(ds[0]) then [ds[0]] else []) + Select(ds[1..], p)
  }

  lemma {:induction false} SelectSnoc(ds: seq<Device>, d: Device, p: Device -> bool)
    ensures Select(ds + [d], p) == Select(ds, p) + (if p(d) then [d] else [])
  {
    if ds == [] {
      assert [d][1..] == [];
    } else {
      SelectSnoc(ds[1..], d, p);
      assert (ds + [d])[1..] == ds[1..] + [d];
    }
  }

  lemma {:induction false} SelectIs(ds: seq<Device>, p: Device -> bool)
    ensures forall d :: d in Select(ds, p) <==> d in ds && p(d)
  {
    if ds != [] {
      SelectIs(ds[1..], p);
      assert ds == [ds[0]] + ds[1..];
    }
  }

  lemma {:induction false} SelectDistinct(ds: seq<Device>, p: Device -> bool)
    requires Distinct(ds)
    ensures Distinct(Select(ds, p))
  {
    if ds != [] {
      var rest := Select(ds[1..], p);
      assert Distinct(ds[1..]);
      SelectDistinct(ds[1..], p);
      SelectIs(ds[1..], p);
      forall j | 0 <= j < |rest| ensures rest[j].name != ds[0].name {
        assert rest[j] in rest;
        var k :| 0 <= k < |ds[1..]| && ds[1..][k] == rest[j];
        assert ds[k + 1].name != ds[0].name;
      }
    }
  }

  predicate IsDue(t: Table, now: int, d: Device) {
    && d.enabled
    && d.name in t && !t[d.name].running
    && (t[d.name].nextRun.None? || t[d.name].nextRun.value <= now)
  }

  /** What a scan lists: exactly the enabled devices that are not running and whose next
      run has come, each once. */
  function Due(ds: seq<Device>, t: Table, now: int): seq<Device> {
    Select(ds, d => IsDue(t, now, d))
  }

  function Enabled(ds: seq<Device>): seq<Device> {
    Select(ds, (d: Device) => d.enabled)
  }

  /** A device is due if it is enabled, known, not running, and its next run has come. */
  lemma DueIff(ds: seq<Device>, t: Table, now: int, d: Device)
    ensures d in Due(ds, t, now) <==>
              && d in ds && d.enabled && d.name in t && !t[d.name].running
              && (t[d.name].nextRun.Some? ==> t[d.name].nextRun.value <= now)
    ensures d in Enabled(ds) <==> d in ds && d.enabled
  {
    SelectIs(ds, d => IsDue(t, now, d));
    SelectIs(ds, (d: Device) => d.enabled);
  }

  // ---------- the table ----------

  function FlagSet(t: Table, name: string, on: bool): Table {
    if name in t then t[name := t[name].(running := on)] else t
  }

  function AttemptNoted(t: Table, name: string, at: int): Table {
    if name in t then t[name := t[name].(lastAttempt := Some(at))] else t
  }

  function FailureNoted(t: Table, name: string, stage: Stage, next: int): Table {
    if name in t then
      t[name := t[name].(failures := t[name].failures + 1, lastStage := Some(stage), nextRun := Some(next))]
    else t
  }

  function SuccessNoted(t: Table, name: string, at: int, changed: bool, next: int): Table {
    if name in t then
      t[name := t[name].(lastSuccess := Some(at), lastStage := None, failures := 0, nextRun := Some(next),
                         lastChanged := if changed then Some(at) else t[name].lastChanged)]
    else t
  }

  function Failures(t: Table, name: string): nat {
    if name in t then t[name].failures else 0
  }

  /** retryDelay: the configured retry interval, or the device's own interval. */
  function RetryDelay(cfg: Config, d: Device): int {
    if cfg.retryInterval > 0 then cfg.retryInterval else d.interval
  }

  function NewState(cfg: Config, d: Device, draw: int, now: int): State {
    State(d.enabled, d.interval, Some(now + if cfg.runOnStart then draw else d.interval), 0, None, false, None, None, None)
  }

  function Entry(cfg: Config, d: Device, was: Table, draw: int, now: int): State {
    (if d.name in was then was[d.name] else NewState(cfg, d, draw, now)).(enabled := d.enabled, interval := d.interval)
  }

  /** The table Reload builds; `draws` are the random start delays. */
  function Reloaded(cfg: Config, ds: seq<Device>, was: Table, draws: seq<int>, now: int): Table
    requires |draws| == |ds|
  {
    if ds == [] then map[]
    else
      var k := |ds| - 1;
      Reloaded(cfg, ds[..k], was, draws[..k], now)[ds[k].name := Entry(cfg, ds[k], was, draws[k], now)]
  }

  lemma ReloadedSnoc(cfg: Config, ds: seq<Device>, i: nat, was: Table, draws: seq<int>, draw: int, now: int)
    requires i == |draws| < |ds|
    ensures Reloaded(cfg, ds[..i + 1], was, draws + [draw], now)
         == Reloaded(cfg, ds[..i], was, draws, now)[ds[i].name := Entry(cfg, ds[i], was, draw, now)]
  {
    assert ds[..i + 1][..i] == ds[..i] && (draws + [draw])[..i] == draws;
  }

  /** The states of surviving devices are kept, the others start afresh. */
  lemma {:induction false} ReloadedIs(cfg: Config, ds: seq<Device>, was: Table, draws: seq<int>, now: int)
    requires |draws| == |ds| && Distinct(ds)
    ensures var t := Reloaded(cfg, ds, was, draws, now);
            && (forall n :: n in t <==> Named(ds, n))
            && forall i :: 0 <= i < |ds| ==> ds[i].name in t && t[ds[i].name] == Entry(cfg, ds[i], was, draws[i], now)
  {
    if ds != [] {
      var k := |ds| - 1;
      var t, t' := Reloaded(cfg, ds[..k], was, draws[..k], now), Reloaded(cfg, ds, was, draws, now);
      ReloadedIs(cfg, ds[..k], was, draws[..k], now);
      forall n ensures n in t' <==> Named(ds, n) { NamedSnoc(ds, n); }
      forall i | 0 <= i < |ds| ensures ds[i].name in t' && t'[ds[i].name] == Entry(cfg, ds[i], was, draws[i], now) {
        if i < k {
          assert ds[i].name != ds[k].name;
          assert ds[..k][i] == ds[i] && draws[..k][i] == draws[i];
        }
      }
    }
  }

  /** A newcomer has no failures and is not running.  Its first run comes one interval
      later, or, where runs start at once, somewhere in the jitter window from now on. */
  lemma NewcomerIs(cfg: Config, was: Table, draws: seq<int>, now: int, i: nat)
    requires |draws| == |cfg.devices| && Distinct(cfg.devices) && Drawn(cfg, draws)
    requires i < |cfg.devices| && cfg.devices[i].name !in was
    ensures var d, t := cfg.devices[i], Reloaded(cfg, cfg.devices, was, draws, now);
            && d.name in t && t[d.name].failures == 0 && t[d.name].lastStage == None && !t[d.name].running
            && t[d.name].enabled == d.enabled && t[d.name].interval == d.interval
            && t[d.name].lastAttempt == t[d.name].lastSuccess == t[d.name].lastChanged == None
            && t[d.name].nextRun.Some?
            && (!cfg.runOnStart ==> t[d.name].nextRun.value == now + d.interval)
            && (cfg.runOnStart && cfg.jitter <= 0 ==> t[d.name].nextRun.value == now)
            && (cfg.runOnStart && cfg.jitter > 0 ==> now <= t[d.name].nextRun.value < now + cfg.jitter)
  {
    ReloadedIs(cfg, cfg.devices, was, draws, now);
    assert InWindow(cfg, draws[i]);
  }

  /** A survivor keeps everything but what the new configuration says of it. */
  lemma SurvivorIs(cfg: Config, was: Table, draws: seq<int>, now: int, i: nat)
    requires |draws| == |cfg.devices| && Distinct(cfg.devices)
    requires i < |cfg.devices| && cfg.devices[i].name in was
    ensures var d, t := cfg.devices[i], Reloaded(cfg, cfg.devices, was, draws, now);
            d.name in t && t[d.name] == was[d.name].(enabled := d.enabled, interval := d.interval)
  {
    ReloadedIs(cfg, cfg.devices, was, draws, now);
  }

  lemma NamedSnoc(ds: seq<Device>, n: string)
    requires ds != []
    ensures Named(ds, n) <==> Named(ds[..|ds| - 1], n) || n == ds[|ds| - 1].name
  {
    var k := |ds| - 1;
    if Named(ds[..k], n) {
      var i :| 0 <= i < k && ds[..k][i].name == n;
      assert ds[i].name == n;
    }
    if Named(ds, n) && n != ds[k].name {
      var i :| 0 <= i < |ds| && ds[i].name == n;
      assert ds[..k][i].name == n;
    }
  }

  /** Where startDelay may fall. */
  predicate InWindow(cfg: Config, draw: int) {
    if cfg.jitter <= 0 then draw == 0 else 0 <= draw < cfg.jitter
  }

  predicate Drawn(cfg: Config, draws: seq<int>) {
    forall i :: 0 <= i < |draws| ==> InWindow(cfg, draws[i])
  }

  // ---------- the summary of a run ----------

  datatype Result = Result(device: string, ok: bool, changed: bool, stage: Option<Stage>)

  datatype Summary = Summary(total: nat, succeeded: nat, failed: nat, changed: nat, devices: seq<Result>)

  function Count(rs: seq<Result>, p: Result -> bool): nat {
    if rs == [] then 0 else Count(rs[..|rs| - 1], p) + if p(rs[|rs| - 1]) then 1 else 0
  }

  const OK := (r: Result) => r.ok
  const NOT_OK := (r: Result) => !r.ok
  const CHANGED := (r: Result) => r.changed

  /** String order by code points. */
  predicate Before(a: string, b: string) {
    if b == "" then false
    else if a == "" then true
    else a[0] < b[0] || (a[0] == b[0] && Before(a[1..], b[1..]))
  }

  ghost predicate Sorted(rs: seq<Result>) {
    forall i, j :: 0 <= i < j < |rs| ==> !Before(rs[j].device, rs[i].device)
  }

  predicate AtMost(a: string, b: string) {
    !Before(b, a)
  }

  lemma {:induction false} AtMostTransitive(a: string, b: string, c: string)
    requires AtMost(a, b) && AtMost(b, c)
    ensures AtMost(a, c)
  {
    if a != "" && b != "" && c != "" && a[0] == b[0] == c[0] { AtMostTransitive(a[1..], b[1..], c[1..]); }
  }

  lemma {:induction false} AtMostTotal(a: string, b: string)
    ensures AtMost(a, b) || AtMost(b, a)
  {
    if a != "" && b != "" { AtMostTotal(a[1..], b[1..]); }
  }

  /** The order of strings: by the first character that differs, a prefix first. */
  lemma {:induction false} BeforeIff(a: string, b: string)
    ensures Before(a, b) <==> exists k :: 0 <= k <= |a| && Splits(a, b, k)
  {
    if a != "" && b != "" && a[0] == b[0] {
      BeforeIff(a[1..], b[1..]);
      if k :| 0 <= k <= |a[1..]| && Splits(a[1..], b[1..], k) {
        assert a[..k + 1] == [a[0]] + a[1..][..k] && b[..k + 1] == [b[0]] + b[1..][..k];
        assert Splits(a, b, k + 1);
      }
      if k :| 0 <= k <= |a| && Splits(a, b, k) {
        SplitTail(a, b, k);
        assert Splits(a[1..], b[1..], k - 1);
      }
    } else {
      if k :| 0 <= k <= |a| && Splits(a, b, k) { SplitsLater(a, b, k); }
      if Before(a, b) { assert Splits(a, b, 0); }
    }
  }

  /** The strings agree up to `k`, and there the first ends or has the smaller character. */
  predicate Splits(a: string, b: string, k: nat) {
    k <= |a| && k < |b| && a[..k] == b[..k] && (k == |a| || a[k] < b[k])
  }

  lemma SplitsLater(a: string, b: string, k: nat)
    requires Splits(a, b, k)
    ensures k == 0 || (a != "" && b != "" && a[0] == b[0])
  {
    if k > 0 { assert a[..k][0] == b[..k][0]; }
  }

  lemma SplitTail(a: string, b: string, k: nat)
    requires a != "" && b != "" && a[0] == b[0] && Splits(a, b, k)
    ensures k > 0 && Splits(a[1..], b[1..], k - 1)
  {
    assert a[1..][..k - 1] == a[..k][1..] && b[1..][..k - 1] == b[..k][1..];
  }

  function Insert(r: Result, rs: seq<Result>): seq<Result> {
    if rs == [] || AtMost(r.device, rs[0].device) then [r] + rs else [rs[0]] + Insert(r, rs[1..])
  }

  /** sort.Slice by device name. */
  function SortByDevice(rs: seq<Result>): seq<Result> {
    if rs == [] then [] else Insert(rs[|rs| - 1], SortByDevice(rs[..|rs| - 1]))
  }

  lemma BelowSorted(r: Result, rs: seq<Result>)
    requires rs != [] && Sorted(rs) && AtMost(r.device, rs[0].device)
    ensures forall x :: x in rs ==> AtMost(r.device, x.device)
  {
    forall x | x in rs ensures AtMost(r.device, x.device) {
      var j :| 0 <= j < |rs| && rs[j] == x;
      if j > 0 { AtMostTransitive(r.device, rs[0].device, rs[j].device); }
    }
  }

  lemma {:induction false} InsertIs(r: Result, rs: seq<Result>)
    ensures multiset(Insert(r, rs)) == multiset{r} + multiset(rs)
  {
    if rs != [] && !AtMost(r.device, rs[0].device) {
      InsertIs(r, rs[1..]);
      assert rs == [rs[0]] + rs[1..];
    }
  }

  lemma {:induction false} InsertedFrom(r: Result, rs: seq<Result>, x: Result)
    requires x in Insert(r, rs)
    ensures x == r || x in rs
  {
    if rs != [] && !AtMost(r.device, rs[0].device) {
      if x != rs[0] { InsertedFrom(r, rs[1..], x); }
    }
  }

  lemma SortedTail(rs: seq<Result>)
    requires rs != [] && Sorted(rs)
    ensures Sorted(rs[1..]) && forall x :: x in rs[1..] ==> AtMost(rs[0].device, x.device)
  {
    forall x | x in rs[1..] ensures AtMost(rs[0].device, x.device) {
      var j :| 0 <= j < |rs[1..]| && rs[1..][j] == x;
      assert rs[j + 1] == x;
    }
  }

  lemma {:induction false} InsertSorts(r: Result, rs: seq<Result>)
    requires Sorted(rs)
    ensures Sorted(Insert(r, rs))
  {
    if rs == [] {
    } else if AtMost(r.device, rs[0].device) {
      BelowSorted(r, rs);
      ConsSorted(r, rs);
    } else {
      SortedTail(rs);
      InsertSorts(r, rs[1..]);
      AtMostTotal(r.device, rs[0].device);
      forall x | x in Insert(r, rs[1..]) ensures AtMost(rs[0].device, x.device) { InsertedFrom(r, rs[1..], x); }
      ConsSorted(rs[0], Insert(r, rs[1..]));
    }
  }

  lemma ConsSorted(first: Result, rs: seq<Result>)
    requires Sorted(rs) && forall x :: x in rs ==> AtMost(first.device, x.device)
    ensures Sorted([first] + rs)
  {
    var all := [first] + rs;
    forall i, j | 0 <= i < j < |all| ensures AtMost(all[i].device, all[j].device) {
      assert all[j] == rs[j - 1];
      assert i > 0 ==> all[i] == rs[i - 1];
    }
  }

  lemma {:induction false} SortIs(rs: seq<Result>)
    ensures Sorted(SortByDevice(rs)) && multiset(SortByDevice(rs)) == multiset(rs)
  {
    if rs != [] {
      var init, last := rs[..|rs| - 1], rs[|rs| - 1];
      SortIs(init);
      InsertIs(last, SortByDevice(init));
      InsertSorts(last, SortByDevice(init));
      assert multiset(init + [last]) == multiset(init) + multiset{last};
      assert rs == init + [last];
    }
  }

  function Summed(rs: seq<Result>): Summary {
    Summary(|rs|, Count(rs, OK), Count(rs, NOT_OK), Count(rs, CHANGED), SortByDevice(rs))
  }

  /** Every result is counted once, and the reported list is a sorted permutation. */
  lemma {:induction false} CountsAddUp(rs: seq<Result>)
    ensures Count(rs, OK) + Count(rs, NOT_OK) == |rs|
    ensures (forall r :: r in rs && r.changed ==> r.ok) ==> Count(rs, CHANGED) <= Count(rs, OK)
  {
    if rs != [] {
      CountsAddUp(rs[..|rs| - 1]);
      assert rs[|rs| - 1] in rs;
      assert forall r :: r in rs[..|rs| - 1] ==> r in rs;
    }
  }

  lemma {:induction false} CountIs(rs: seq<Result>, p: Result -> bool)
    ensures Count(rs, p) == |Where(rs, p)|
  {
    if rs == [] {
      assert Where(rs, p) == {};
    } else {
      CountIs(rs[..|rs| - 1], p);
      WhereLast(rs, p);
    }
  }

  function Where(rs: seq<Result>, p: Result -> bool): set<int> {
    set i | 0 <= i < |rs| && p(rs[i])
  }

  lemma WhereLast(rs: seq<Result>, p: Result -> bool)
    requires rs != []
    ensures |Where(rs, p)| == |Where(rs[..|rs| - 1], p)| + if p(rs[|rs| - 1]) then 1 else 0
  {
    var k := |rs| - 1;
    assert Where(rs, p) == if p(rs[k]) then Where(rs[..k], p) + {k} else Where(rs[..k], p);
  }

  /** The summary counts the results that are a success, a failure, and a change. */
  lemma SummaryCounts(rs: seq<Result>)
    ensures Summed(rs).total == |rs|
    ensures Summed(rs).succeeded == |set i | 0 <= i < |rs| && rs[i].ok|
    ensures Summed(rs).failed == |set i | 0 <= i < |rs| && !rs[i].ok|
    ensures Summed(rs).changed == |set i | 0 <= i < |rs| && rs[i].changed|
  {
    CountIs(rs, OK);
    CountIs(rs, NOT_OK);
    CountIs(rs, CHANGED);
    assert Where(rs, OK) == set i | 0 <= i < |rs| && rs[i].ok;
    assert Where(rs, NOT_OK) == set i | 0 <= i < |rs| && !rs[i].ok;
    assert Where(rs, CHANGED) == set i | 0 <= i < |rs| && rs[i].changed;
  }

  method Summarise(results: seq<Result>) returns (sum: Summary)
    ensures sum == Summed(results)
  {
    var succeeded, failed, changed := 0, 0, 0;
    for i := 0 to |results|
      invariant succeeded == Count(results[..i], OK)
      invariant failed == Count(results[..i], NOT_OK)
      invariant changed == Count(results[..i], CHANGED)
    {
      assert results[..i + 1][..i] == results[..i];
      if results[i].ok { succeeded := succeeded + 1; } else { failed := failed + 1; }
      if results[i].changed { changed := changed + 1; }
    }
    assert results[..|results|] == results;
    sum := Summary(|results|, succeeded, failed, changed, SortByDevice(results));
  }

  // ---------- the runner ----------

  /** The series of the removed devices are gone, all others untouched. */
  ghost predicate Forgot(c: Collectors, c': Collectors, gone: set<string>) {
    forall d :: View(c', d) == if d in gone then BLANK else View(c, d)
  }

  lemma ForgetOneMore(c: Collectors, c': Collectors, gone: set<string>, name: string)
    requires Forgot(c, c', gone)
    ensures Forgot(c, WithoutDevice(c', name), gone + {name})
  {
    forall d ensures View(WithoutDevice(c', name), d) == if d in gone + {name} then BLANK else View(c, d) {
      ForgetIsComplete(c', name, d);
    }
  }

  /** What one backup does to the table and to the collectors when nothing else runs
      in between. */
  function BackedUp(t: Table, cfg: Config, d: Device, start: int, now: int, res: Result): Table {
    FlagSet(Noted(AttemptNoted(FlagSet(t, d.name, true), d.name, start), cfg, d, now, res), d.name, false)
  }

  function Noted(t: Table, cfg: Config, d: Device, now: int, res: Result): Table {
    match res.stage
    case None => SuccessNoted(t, d.name, now, res.changed, now + d.interval)
    case Some(stage) => FailureNoted(t, d.name, stage, now + RetryDelay(cfg, d))
  }

  lemma NotedAs(t: Table, cfg: Config, d: Device, now: int, res: Result)
    ensures Noted(t, cfg, d, now, res) ==
              if res.stage.Some? then FailureNoted(t, d.name, res.stage.value, now + RetryDelay(cfg, d))
              else SuccessNoted(t, d.name, now, res.changed, now + d.interval)
  {
  }

  function Observed(c: Collectors, d: Device, now: int, res: Result, failures: nat): Collectors {
    match res.stage
    case None => WithSuccess(if res.changed then WithChange(c, d.name) else c, d.name, now)
    case Some(stage) => WithFailure(c, d.name, stage, failures)
  }

  function Started(c: Collectors, device: string, start: int): Collectors {
    c.(backupLastAttempt := c.backupLastAttempt[device := start])
  }

  /** The gauges of a device agree with its state. */
  predicate InStep(s: Series, st: State) {
    Balanced(s) && Tallied(s) && Tells(s, st.failures, st.lastStage)
  }

  /** A backup keeps the gauges in step with the table, for its device and the others:
      see BackedUpAt for what it does to the table. */
  lemma BackupKeepsStep(c: Collectors, t: Table, t': Table, d: Device, start: int, now: int, res: Result, n: string)
    requires d.name in t && n in t && d.name in t' && n in t'
    requires InStep(View(c, n), t[n])
    requires if n == d.name then StateAfter(t[n], t'[n], res) else t'[n] == t[n]
    ensures InStep(View(Observed(Started(c, d.name, start), d, now, res, Failures(t', d.name)), n), t'[n])
  {
    ObservedKeepsStep(c, d, start, now, res, Failures(t', d.name), n, t[n], t'[n]);
  }

  lemma ObservedKeepsStep(c: Collectors, d: Device, start: int, now: int, res: Result, failures: nat, n: string, st: State, st': State)
    requires InStep(View(c, n), st)
    requires if n == d.name then StateAfter(st, st', res) && (res.stage.Some? ==> st'.failures == failures) else st' == st
    ensures InStep(View(Observed(Started(c, d.name, start), d, now, res, failures), n), st')
  {
    BackupSeries(c, d, start, now, res, failures, n);
    if n == d.name { SeriesKeepsStep(View(c, n), st, st', res, failures); }
  }

  lemma BackupSeries(c: Collectors, d: Device, start: int, now: int, res: Result, failures: nat, n: string)
    ensures var s, s' := View(c, n), View(Observed(Started(c, d.name, start), d, now, res, failures), n);
            s' == if n == d.name then SeriesAfter(s, failures, res) else s
  {
    StartedAt(c, d.name, start, n);
    ObservedAt(Started(c, d.name, start), d, now, res, failures, n);
  }

  predicate StateAfter(st: State, st': State, res: Result) {
    st'.lastStage == res.stage && st'.failures == if res.stage.None? then 0 else st.failures + 1
  }

  lemma SeriesKeepsStep(s: Series, st: State, st': State, res: Result, failures: nat)
    requires InStep(s, st) && StateAfter(st, st', res)
    requires res.stage.Some? ==> st'.failures == failures
    ensures InStep(SeriesAfter(s, failures, res), st')
  {
  }

  function SeriesAfter(s: Series, failures: nat, res: Result): Series {
    if res.stage.Some? then AfterFailure(s, res.stage.value, failures)
    else AfterSuccess(if res.changed then AfterChange(s) else s)
  }

  lemma StartedAt(c: Collectors, device: string, start: int, n: string)
    ensures View(Started(c, device, start), n) == View(c, n)
  {
  }

  lemma BackedUpAt(t: Table, cfg: Config, d: Device, start: int, now: int, res: Result, n: string)
    requires d.name in t && n in t
    ensures var t' := BackedUp(t, cfg, d, start, now, res);
            n in t' && if n == d.name then StateAfter(t[n], t'[n], res) else t'[n] == t[n]
  {
  }

  /** The whole entry of the device after one backup. */
  lemma EntryIs(t: Table, cfg: Config, d: Device, start: int, now: int, res: Result)
    requires d.name in t
    ensures var st, st' := t[d.name], BackedUp(t, cfg, d, start, now, res)[d.name];
            && st'.enabled == st.enabled && st'.interval == st.interval && !st'.running
            && st'.lastAttempt == Some(start)
            && st'.lastSuccess == (if res.stage.None? then Some(now) else st.lastSuccess)
            && st'.lastChanged == (if res.stage.None? && res.changed then Some(now) else st.lastChanged)
            && (res.stage.None? || cfg.retryInterval <= 0 ==> st'.nextRun == Some(now + d.interval))
            && (res.stage.Some? && cfg.retryInterval > 0 ==> st'.nextRun == Some(now + cfg.retryInterval))
  {
    NotedAs(AttemptNoted(FlagSet(t, d.name, true), d.name, start), cfg, d, now, res);
  }

  /** The time gauges of a device are those of its entry. */
  predicate TimesAgree(c: Collectors, st: State, n: string) {
    Find(c.backupLastAttempt, n) == st.lastAttempt && Find(c.backupLastSuccess, n) == st.lastSuccess
  }

  /** A backup keeps them so, for its device and for every other. */
  lemma BackupKeepsTimes(c: Collectors, t: Table, cfg: Config, d: Device, start: int, now: int, res: Result, failures: nat, n: string)
    requires d.name in t && n in t && TimesAgree(c, t[n], n)
    ensures n in BackedUp(t, cfg, d, start, now, res)
    ensures TimesAgree(Observed(Started(c, d.name, start), d, now, res, failures), BackedUp(t, cfg, d, start, now, res)[n], n)
  {
    BackedUpAt(t, cfg, d, start, now, res, n);
    TimesObserved(c, d, start, now, res, failures);
    if n == d.name { EntryIs(t, cfg, d, start, now, res); }
  }

  lemma TimesObserved(c: Collectors, d: Device, start: int, now: int, res: Result, failures: nat)
    ensures var c' := Observed(Started(c, d.name, start), d, now, res, failures);
            && c'.backupLastAttempt == c.backupLastAttempt[d.name := start]
            && c'.backupLastSuccess == if res.stage.None? then c.backupLastSuccess[d.name := now] else c.backupLastSuccess
  {
  }

  lemma ObservedAt(c: Collectors, d: Device, now: int, res: Result, failures: nat, n: string)
    ensures var s, s' := View(c, n), View(Observed(c, d, now, res, failures), n);
            s' == if n == d.name then SeriesAfter(s, failures, res) else s
  {
    match res.stage {
      case None =>
        ChangeIsLocal(c, d.name, n);
        SuccessIsLocal(if res.changed then WithChange(c, d.name) else c, d.name, now, n);
      case Some(stage) =>
        FailureIsLocal(c, d.name, stage, failures, n);
    }
  }

  /** What a fetch and a commit leave in the repository. */
  ghost predicate StoreAfter(l: Local, l': Local, d: Device, fetched: Fetched, now: int, res: Result) {
    match fetched
    case FetchFailed(stage) => res.stage == Some(stage) && l' == l
    case FetchedFiles(files, message) =>
      if res.ok then l' == Committed(l, Request(d.name, files, message, now)) && res.changed == !Agrees(HeadTree(l), files)
      else res.stage == Some(Git) && Interrupted(l, l', files)
  }

  /** The change counters of the device count the commits its backups add to the branch. */
  lemma CommitsAreCounted(c: Collectors, d: Device, start: int, now: int, res: Result, failures: nat,
                          l: Local, l': Local, fetched: Fetched)
    requires StoreAfter(l, l', d, fetched, now, res) && (res.ok <==> res.stage.None?)
    ensures var s, s' := View(c, d.name), View(Observed(Started(c, d.name, start), d, now, res, failures), d.name);
            && s'.changes.commits - s.changes.commits == |HeadHistory(l')| - |HeadHistory(l)|
            && s'.changes.changed - s.changes.changed == |HeadHistory(l')| - |HeadHistory(l)|
            && s'.attempts.succeeded - s.attempts.succeeded == (if res.ok then 1 else 0)
            && s'.attempts.failed - s.attempts.failed == (if res.ok then 0 else 1)
  {
    BackupSeries(c, d, start, now, res, failures, d.name);
    HistoryAfter(l, l', d, fetched, now, res);
  }

  lemma HistoryAfter(l: Local, l': Local, d: Device, fetched: Fetched, now: int, res: Result)
    requires StoreAfter(l, l', d, fetched, now, res) && (res.ok <==> res.stage.None?)
    ensures |HeadHistory(l')| == |HeadHistory(l)| + if res.ok && res.changed then 1 else 0
  {
    if fetched.FetchedFiles? && res.ok {
      CommitStores(l, Request(d.name, fetched.files, fetched.message, now));
    } else if fetched.FetchedFiles? {
      StoppedHistory(l, l', fetched.files);
    }
  }

  lemma StoppedHistory(l: Local, l': Local, files: Tree)
    requires Interrupted(l, l', files)
    ensures HeadHistory(l') == HeadHistory(l)
  {
  }

  datatype Fetched = FetchFailed(stage: Stage) | FetchedFiles(files: Tree, message: string)

  class Runner {
    var cfg: Config
    var states: Table
    const store: GitStore
    const metrics: Metrics

    constructor (cfg: Config, now: int, store: GitStore, metrics: Metrics)
      modifies metrics
      ensures this.cfg == cfg && this.store == store && this.metrics == metrics
      ensures exists draws: seq<int> ::
                |draws| == |cfg.devices| && Drawn(cfg, draws) && states == Reloaded(cfg, cfg.devices, map[], draws, now)
    {
      this.cfg, this.states := cfg, map[];
      this.store, this.metrics := store, metrics;
      new;
      var draws := Reload(cfg, now);
    }

    /** startDelay: somewhere in the jitter window. */
    method StartDelay(cfg: Config) returns (draw: int)
      ensures InWindow(cfg, draw)
    {
      if cfg.jitter <= 0 { return 0; }
      draw :| 0 <= draw < cfg.jitter;
    }

    method Reload(newCfg: Config, now: int) returns (draws: seq<int>)
      modifies this, metrics
      ensures cfg == newCfg
      ensures |draws| == |newCfg.devices| && states == Reloaded(newCfg, newCfg.devices, old(states), draws, now)
      ensures Drawn(newCfg, draws)
      ensures Forgot(old(metrics.c), metrics.c, old(states).Keys - states.Keys)
    {
      var table;
      table, draws := BuildTable(newCfg, now);
      ForgetRemoved(table.Keys);
      cfg, states := newCfg, table;
    }

    method BuildTable(newCfg: Config, now: int) returns (table: Table, draws: seq<int>)
      ensures |draws| == |newCfg.devices| && table == Reloaded(newCfg, newCfg.devices, states, draws, now)
      ensures Drawn(newCfg, draws)
    {
      var ds := newCfg.devices;
      table, draws := map[], [];
      for i := 0 to |ds|
        invariant |draws| == i && Drawn(newCfg, draws)
        invariant table == Reloaded(newCfg, ds[..i], states, draws, now)
      {
        var d := ds[i];
        var draw := StartDelay(newCfg);
        var st := if d.name in states then states[d.name] else NewState(newCfg, d, draw, now);
        ReloadedSnoc(newCfg, ds, i, states, draws, draw, now);
        draws := draws + [draw];
        table := table[d.name := st.(enabled := d.enabled, interval := d.interval)];
      }
      assert ds[..|ds|] == ds;
    }

    method ForgetRemoved(kept: set<string>)
      modifies metrics
      ensures Forgot(old(metrics.c), metrics.c, states.Keys - kept)
    {
      var todo := states.Keys - kept;
      ghost var gone: set<string> := {};
      while todo != {}
        invariant todo <= states.Keys - kept && gone == (states.Keys - kept) - todo
        invariant Forgot(old(metrics.c), metrics.c, gone)
      {
        var name :| name in todo;
        ForgetOneMore(old(metrics.c), metrics.c, gone, name);
        metrics.ForgetDevice(name);
        OneLess(states.Keys - kept, todo, name);
        todo, gone := todo - {name}, gone + {name};
      }
    }

    /** Lists exactly the due devices, in inventory order. */
    method DueDevices(now: int) returns (due: seq<Device>)
      ensures due == Due(cfg.devices, states, now)
    {
      due := [];
      for i := 0 to |cfg.devices|
        invariant due == Due(cfg.devices[..i], states, now)
      {
        var d, t := cfg.devices[i], states;
        SelectSnoc(cfg.devices[..i], d, d => IsDue(t, now, d));
        assert cfg.devices[..i + 1] == cfg.devices[..i] + [d];
        if !d.enabled { continue; }
        if d.name !in states || states[d.name].running { continue; }
        if states[d.name].nextRun.None? || states[d.name].nextRun.value <= now {
          due := due + [d];
        }
      }
      assert cfg.devices[..|cfg.devices|] == cfg.devices;
    }

    method EnabledDevices() returns (out: seq<Device>)
      ensures out == Enabled(cfg.devices)
    {
      out := [];
      for i := 0 to |cfg.devices|
        invariant out == Enabled(cfg.devices[..i])
      {
        var d := cfg.devices[i];
        SelectSnoc(cfg.devices[..i], d, (d: Device) => d.enabled);
        assert cfg.devices[..i + 1] == cfg.devices[..i] + [d];
        if d.enabled { out := out + [d]; }
      }
      assert cfg.devices[..|cfg.devices|] == cfg.devices;
    }

    method FindDevice(name: string) returns (found: Option<Device>)
      ensures found.None? <==> !Named(cfg.devices, name)
      ensures found.Some? ==> found.value in cfg.devices && found.value.name == name
    {
      for i := 0 to |cfg.devices|
        invariant forall k :: 0 <= k < i ==> cfg.devices[k].name != name
      {
        if cfg.devices[i].name == name { return Some(cfg.devices[i]); }
      }
      return None;
    }

    method Update(name: string, fn: State -> State)
      modifies this`states
      ensures states == if name in old(states) then old(states)[name := fn(old(states)[name])] else old(states)
    {
      if name in states {
        states := states[name := fn(states[name])];
      }
    }

    method SetRunning(name: string, running: bool)
      modifies this`states
      ensures states == FlagSet(old(states), name, running)
    {
      Update(name, (s: State) => s.(running := running));
    }

    method RetryDelayOf(d: Device) returns (delay: int)
      ensures delay == RetryDelay(cfg, d)
      ensures cfg.retryInterval > 0 ==> delay == cfg.retryInterval
      ensures cfg.retryInterval <= 0 ==> delay == d.interval
    {
      if cfg.retryInterval > 0 { return cfg.retryInterval; }
      return d.interval;
    }

    method FailingCount() returns (n: nat)
      ensures n == |set d | d in states && states[d].failures > 0|
    {
      var todo := states.Keys;
      ghost var failing: set<string> := {};
      n := 0;
      while todo != {}
        invariant todo <= states.Keys
        invariant failing == set d | d in states && states[d].failures > 0 && d !in todo
        invariant n == |failing|
      {
        var d :| d in todo;
        if states[d].failures > 0 {
          n := n + 1;
          failing := failing + {d};
        }
        todo := todo - {d};
      }
      assert failing == set d | d in states && states[d].failures > 0;
    }

    /** The failing branches of backup. */
    method Fail(d: Device, stage: Stage, now: int)
      modifies this`states, metrics
      ensures states == FailureNoted(old(states), d.name, stage, now + RetryDelay(cfg, d))
      ensures metrics.c == WithFailure(old(metrics.c), d.name, stage, Failures(states, d.name))
      ensures d.name in old(states) ==>
                && states[d.name].failures == old(states)[d.name].failures + 1
                && (cfg.retryInterval > 0 ==> states[d.name].nextRun == Some(now + cfg.retryInterval))
                && (cfg.retryInterval <= 0 ==> states[d.name].nextRun == Some(now + d.interval))
    {
      var delay := RetryDelayOf(d);
      var next := now + delay;
      Update(d.name, (s: State) => s.(failures := s.failures + 1, lastStage := Some(stage), nextRun := Some(next)));
      var failures := Failures(states, d.name);
      metrics.ObserveFailure(d.name, stage, failures);
    }

    /** The success branch of backup. */
    method Succeed(d: Device, changed: bool, now: int)
      modifies this`states, metrics
      ensures states == SuccessNoted(old(states), d.name, now, changed, now + d.interval)
      ensures metrics.c == WithSuccess(if changed then WithChange(old(metrics.c), d.name) else old(metrics.c), d.name, now)
    {
      if changed { metrics.ObserveChange(d.name); }
      metrics.ObserveSuccess(d.name, now);
      Update(d.name, (s: State) => s.(lastSuccess := Some(now), lastStage := None, failures := 0,
                                      lastChanged := if changed then Some(now) else s.lastChanged,
                                      nextRun := Some(now + d.interval)));
    }

    /** One backup, start to end, when nothing else touches the runner in between; `now`
        is the clock reading after the fetch and the commit. */
    method Backup(d: Device, start: int, fetched: Fetched, now: int) returns (res: Result)
      modifies this`states, store, metrics
      ensures states == BackedUp(old(states), cfg, d, start, now, res)
      ensures metrics.c == Observed(Started(old(metrics.c), d.name, start), d, now, res, Failures(states, d.name))
      ensures res.device == d.name && (res.ok <==> res.stage.None?) && (res.changed ==> res.ok)
      ensures StoreAfter(old(store.local), store.local, d, fetched, now, res)
    {
      SetRunning(d.name, true);
      metrics.ObserveAttempt(d.name, start);
      Update(d.name, (s: State) => s.(lastAttempt := Some(start)));
      res := Attempt(d, fetched, now);
      SetRunning(d.name, false);
    }

    method Attempt(d: Device, fetched: Fetched, now: int) returns (res: Result)
      modifies this`states, store, metrics
      ensures states == Noted(old(states), cfg, d, now, res)
      ensures metrics.c == Observed(old(metrics.c), d, now, res, Failures(states, d.name))
      ensures res.device == d.name && (res.ok <==> res.stage.None?) && (res.changed ==> res.ok)
      ensures StoreAfter(old(store.local), store.local, d, fetched, now, res)
    {
      res := CommitFetched(d, fetched, now);
      Record(d, now, res);
    }

    /** The outcome, made known in state and series. */
    method Record(d: Device, now: int, res: Result)
      modifies this`states, metrics
      ensures states == Noted(old(states), cfg, d, now, res)
      ensures metrics.c == Observed(old(metrics.c), d, now, res, Failures(states, d.name))
    {
      NotedAs(states, cfg, d, now, res);
      if res.stage.Some? {
        Fail(d, res.stage.value, now);
      } else {
        Succeed(d, res.changed, now);
      }
    }

    method CommitFetched(d: Device, fetched: Fetched, now: int) returns (res: Result)
      modifies store
      ensures res.device == d.name && (res.ok <==> res.stage.None?) && (res.changed ==> res.ok)
      ensures StoreAfter(old(store.local), store.local, d, fetched, now, res)
    {
      if fetched.FetchFailed? { return Result(d.name, false, false, Some(fetched.stage)); }
      var commit := store.Commit(Request(d.name, fetched.files, fetched.message, now));
      match commit {
        case Failed => res := Result(d.name, false, false, Some(Git));
        case Done(changed, _) => res := Result(d.name, true, changed, None);
      }
    }
  }
}
