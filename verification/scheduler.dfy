/** The auto-scan decision taken on each pass of `auto_scan_worker`, and the
    interval clamp applied when the setting is saved and when it is read. */
module Scheduler {
  import opened Wrappers
  import Scan

  const MinInterval: int := 2
  const MaxInterval: int := 180

  /** `max(2, min(v, 180))`. */
  function ClampInterval(v: int): (r: int)
    ensures MinInterval <= r <= MaxInterval
    ensures MinInterval <= v <= MaxInterval ==> r == v
    ensures v < MinInterval ==> r == MinInterval
    ensures v > MaxInterval ==> r == MaxInterval
  {
    var low := if v <= MaxInterval then v else MaxInterval;
    if MinInterval >= low then MinInterval else low
  }

  /** The settings a pass reads: the `auto_scan` text and the
      `interval_minutes` text as `int()` parsed it (`None` when it raised,
      which makes the pass do nothing; a missing or empty text reads as
      10). */
  datatype Settings = Settings(autoScan: string, interval: Option<int>)

  /** The pass starts a scan when auto-scan is on and either no auto-scan
      has happened yet or the clamped interval, in minutes, has elapsed
      since the last one. */
  predicate ShouldAutoScan(settings: Settings, lastAutoScanAt: real, now: real) {
    && settings.autoScan == "1"
    && settings.interval.Some?
    && (lastAutoScanAt == 0.0
        || now - lastAutoScanAt >= (ClampInterval(settings.interval.value) * 60) as real)
  }

  /** Once the pass would fire, it keeps firing as time goes on. */
  lemma ShouldAutoScanMonotone(settings: Settings, last: real, now: real, later: real)
    requires now <= later
    requires ShouldAutoScan(settings, last, now)
    ensures ShouldAutoScan(settings, last, later)
  {
  }

  /** The clamp bounds the wait: with auto-scan on, a pass three hours after
      the last auto-scan always fires, and one within two minutes of a
      recorded auto-scan never does. */
  lemma AutoScanWindow(settings: Settings, last: real, now: real)
    requires settings.autoScan == "1" && settings.interval.Some?
    ensures now - last >= 10800.0 ==> ShouldAutoScan(settings, last, now)
    ensures last != 0.0 && now - last < 120.0 ==> !ShouldAutoScan(settings, last, now)
  {
  }

  /** The effect of one pass: the state afterwards and the result of the
      scan it started, if it started one. */
  datatype TickResult = TickResult(state: Scan.ScanState, scan: Option<Scan.ScanResult>)

  /** One pass of the worker: the decision, then the scan if it fires. */
  function Tick(s: Scan.ScanState, settings: Settings, env: Scan.ScanEnv): (r: TickResult)
    ensures r.scan.Some? <==> ShouldAutoScan(settings, s.lastAutoScanAt, env.nowSecs)
    ensures r.scan.None? ==> r.state == s
    ensures r.scan.Some? ==>
      r == TickResult(Scan.ScanNow(s, env).state, Some(Scan.ScanNow(s, env).result))
  {
    if ShouldAutoScan(settings, s.lastAutoScanAt, env.nowSecs) then
      var o := Scan.ScanNow(s, env);
      TickResult(o.state, Some(o.result))
    else TickResult(s, None)
  }

  /** A pass that fires on an idle state runs one whole scan: one audit
      row, successful exactly when the scan completed, and the auto-scan
      time moved to now exactly on success. */
  lemma TickFiredPass(s: Scan.ScanState, settings: Settings, env: Scan.ScanEnv)
    requires !s.locked && ShouldAutoScan(settings, s.lastAutoScanAt, env.nowSecs)
    ensures var r := Tick(s, settings, env);
      && r.scan.Some? && r.scan.value != Scan.Busy
      && |r.state.audit| == |s.audit| + 1 && r.state.audit[..|s.audit|] == s.audit
      && (r.state.audit[|s.audit|].success <==> r.scan.value.Completed?)
      && (r.scan.value.Completed? ==> r.state.lastAutoScanAt == env.nowSecs)
      && (!r.scan.value.Completed? ==> r.state.lastAutoScanAt == s.lastAutoScanAt)
  {
  }

  /** A pass whose scan completed is not followed by another auto-scan
      within two minutes, whatever the settings. */
  lemma NoRefireAfterSuccess(s: Scan.ScanState, settings: Settings, env: Scan.ScanEnv,
                             settings2: Settings, env2: Scan.ScanEnv)
    requires Tick(s, settings, env).scan.Some? && Tick(s, settings, env).scan.value.Completed?
    requires env.nowSecs != 0.0
    requires env.nowSecs <= env2.nowSecs < env.nowSecs + 120.0
    ensures Tick(Tick(s, settings, env).state, settings2, env2).scan.None?
  {
    Scan.TimestampsOnlyOnSuccess(s, env);
  }

  /** A pass that finds a scan already running leaves everything as it
      was. */
  lemma TickWhileScanning(s: Scan.ScanState, settings: Settings, env: Scan.ScanEnv)
    requires s.locked
    ensures Tick(s, settings, env).state == s
  {
    if ShouldAutoScan(settings, s.lastAutoScanAt, env.nowSecs) {
      Scan.BusyChangesNothing(s, env);
    }
  }
}
