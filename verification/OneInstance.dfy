/** At most one live instance per job, over the whole cloud and over whole runs with any number of
    restarts, and the condition on the job's logs that it takes. */
module OneInstance {
  import opened Bytes
  import opened Market
  import opened Verdicts
  import opened Infra
  import opened JobManager

  const DEFAULT_REGION := "ap-south-1"

  ghost predicate AtMostOne(c: Cloud) {
    forall i, j :: i in c && j in c && LiveState(c[i].state) && LiveState(c[j].state) ==> i == j
  }

  ghost predicate NothingLive(c: Cloud) {
    forall i :: i in c ==> !LiveState(c[i].state)
  }

  /** At most one live instance, and that in `home`. */
  ghost predicate OnlyIn(c: Cloud, home: string) {
    AtMostOneLive(c, home) && forall r: string :: r != home ==> NoneLive(c, r)
  }

  lemma OnlyInMeansAtMostOne(c: Cloud, home: string)
    requires OnlyIn(c, home)
    ensures AtMostOne(c)
    ensures NoneLive(c, home) ==> NothingLive(c)
  {
    forall i | i in c && LiveState(c[i].state) ensures Live(c, home, i) {
      assert Live(c, c[i].region, i);
      assert c[i].region != home ==> NoneLive(c, c[i].region);
    }
  }

  // ---- The logs ------------------------------------------------------------------------------------

  /** The region a job is in once a log has revived it. */
  function RegionAsked(t: Terms, log: Log): string {
    match log
    case Opened(_, Some(v), _, _, _) => if v.region.Some? then v.region.value else t.region
    case _ => t.region
  }

  /** If the log revives the job, then in `home`. */
  predicate RevivesIn(home: string, t: Terms, env: Env, log: Option<Log>) {
    log.Some? && Revives(t, env, log.value) ==> RegionAsked(t, log.value) == home
  }

  /** One region over all the logs that revive the job, whatever the others name. */
  predicate RevivedIn(home: string, env: Env, ws: seq<World>, es: seq<Event>)
    requires |ws| == |es| + 1
  {
    forall i :: 0 <= i < |es| && ws[i].exit.None? ==>
      RevivesIn(home, ws[i].job.terms, env, Received(ws[i], es[i]))
  }

  /** A job that is to run is to run in `home`. */
  predicate AtHome(w: World, home: string) {
    w.exit.None? && w.job.infraState ==> w.job.terms.region == home
  }

  lemma RegionAfter(t: Terms, env: Env, log: Log)
    ensures var g := Judge(t, env, Some(log));
      if log.Opened? then
        g.code != -2 ==> Usable(env, log.metadata) && g.terms.region == RegionAsked(t, log)
      else g.terms.region == t.region == RegionAsked(t, log)
  {
    hide OpenMetadata;
    hide Bandwidth;
    hide FindMinRate;
    hide OwnerAllowed;
    hide UpdateAllowed;
    if log.Opened? && log.metadata.Some? {
      var u := t.(balance := log.balance, rate := log.rate, originalRate := log.rate,
                  lastSettled := Seconds(log.timestamp));
      OpenMetadataExactly(u, env, log.metadata.value);
    }
  }

  /** A JobOpened revives, kills or ends the manager. */
  lemma OpenedDecides(t: Terms, env: Env, log: Log)
    requires log.Opened?
    ensures Revives(t, env, log) || Kills(t, env, log) || GivesUp(t, env, log)
  {
  }

  lemma LogKeepsHome(j: Job, env: Env, now: nat, log: Log, home: string)
    requires (j.infraState ==> j.terms.region == home) && RevivesIn(home, j.terms, env, Some(log))
    ensures var (k, code) := ProcessLog(j, env, now, Some(log));
      code != -2 && k.infraState ==> k.terms.region == home
  {
    RegionAfter(j.terms, env, log);
    JudgeExactly(j.terms, env, log);
    ProcessLogIs(j, env, now, log);
    hide Judge;
    hide ProcessLog;
    if log.Opened? {
      OpenedDecides(j.terms, env, log);
    }
    hide Revives;
    hide Kills;
    hide GivesUp;
  }

  lemma CallsKeepTerms(j: Job, calls: seq<Call>, now: nat)
    ensures ChangeInfra(j, calls, now).Some? ==> Core(ChangeInfra(j, calls, now).value.0) == Core(j)
    ensures HeartbeatCheck(j, calls, now).Some? ==> HeartbeatCheck(j, calls, now).value.terms == j.terms
  {
  }

  lemma StepKeepsHome(env: Env, w: World, e: Event, w': World, home: string)
    requires Step(env, w, e, w') && Intent(w) && AtHome(w, home)
    requires RevivesIn(home, w.job.terms, env, Received(w, e))
    ensures AtHome(w', home)
  {
    StepKeepsIntent(env, w, e, w');
    EndOfStream(w.job.terms, env);
    assert ProcessLog(w.job, env, Fired(w, e).at.value, None).1 == -1;
    if Fired(w, e).branch == OnLog && e.log.Some? {
      LogKeepsHome(w.job, env, Fired(w, e).at.value, e.log.value, home);
    }
    CallsKeepTerms(w.job, e.calls, e.end);
    hide ProcessLog;
    hide ChangeInfra;
    hide HeartbeatCheck;
    hide Fire;
    hide Intent;
  }

  lemma EndOfStream(t: Terms, env: Env)
    ensures Judge(t, env, None) == Judgement(t, Keep, -1)
  {
  }

  /** Every launch is into the job's region. */
  lemma LaunchesAreHome(env: Env, w: World, e: Event, w': World, home: string, k: nat)
    requires Step(env, w, e, w') && AtHome(w, home) && k < |e.calls|
    ensures e.calls[k].SpinUp? ==> e.calls[k].region == home
  {
    StartingBranches(env, w, e, w', k);
    if e.calls[k].SpinUp? && e.calls[k].region != home {
      ChangeElsewhere(w.job, e.calls, e.calls[k].region);
    }
  }

  lemma StepKeepsOnlyIn(env: Env, w: World, e: Event, w': World, home: string)
    requires Step(env, w, e, w') && AtHome(w, home) && OnlyIn(w.cloud, home)
    ensures OnlyIn(w'.cloud, home)
    ensures w'.exit == Some(0) && w.job.terms.region == home ==> NothingLive(w'.cloud)
  {
    StepKeepsAtMostOne(env, w, e, w', home);
    forall r: string | r != home ensures NoneLive(w'.cloud, r) {
      DriftKeepsAtMostOne(w.cloud, e.clouds[0], r);
      forall i | 0 <= i < |e.calls| && e.calls[i].SpinUp? ensures e.calls[i].region != r {
        LaunchesAreHome(env, w, e, w', home, i);
      }
      CallsKeep(e.calls, e.clouds, r, |e.calls|);
    }
    OnlyInMeansAtMostOne(w'.cloud, home);
  }

  /** At most one live instance of the job anywhere, in every world of every run whose reviving logs are
      of one region, restarts and failing calls included; and a manager that returns 0 for a job still
      in that region leaves nothing live at all. */
  lemma {:induction false} AtMostOneInstanceOfJob(env: Env, ws: seq<World>, es: seq<Event>, home: string, n: nat)
    requires Run(env, ws, es) && Intent(ws[0]) && AtHome(ws[0], home) && n < |ws|
    requires RevivedIn(home, env, ws, es) && OnlyIn(ws[0].cloud, home)
    ensures OnlyIn(ws[n].cloud, home) && AtMostOne(ws[n].cloud)
    ensures AtHome(ws[n], home)
    ensures n > 0 && ws[n].exit == Some(0) && ws[n - 1].job.terms.region == home ==> NothingLive(ws[n].cloud)
  {
    hide Step;
    hide OnlyIn;
    hide NothingLive;
    hide RevivesIn;
    hide Intent;
    if n > 0 {
      AtMostOneInstanceOfJob(env, ws, es, home, n - 1);
      RunKeepsIntent(env, ws, es, n - 1);
      var w, e, w' := ws[n - 1], es[n - 1], ws[n];
      if w.exit.None? {
        assert Step(env, w, e, w');
        StepKeepsHome(env, w, e, w', home);
        StepKeepsOnlyIn(env, w, e, w', home);
      } else {
        RestartKeepsOnlyIn(env, w, e, w', home);
      }
    }
    OnlyInMeansAtMostOne(ws[n].cloud, home);
  }

  lemma RestartKeepsOnlyIn(env: Env, w: World, e: Event, w': World, home: string)
    requires (Step(env, w, e, w') || Restart(w, w')) && w.exit.Some? && OnlyIn(w.cloud, home)
    ensures OnlyIn(w'.cloud, home) && w'.exit.None? && w'.job == NewJob(w'.now)
  {
    forall r: string ensures AtMostOneLive(w.cloud, r) ==> AtMostOneLive(w'.cloud, r)
      ensures NoneLive(w.cloud, r) ==> NoneLive(w'.cloud, r)
    {
      DriftKeepsAtMostOne(w.cloud, w'.cloud, r);
    }
  }

  // ---- Where a job is ------------------------------------------------------------------------------

  predicate TakesOpened(w: World, e: Event) {
    Received(w, e).Some? && Received(w, e).value.Opened?
  }

  /** Whether the manager at `n` has taken a JobOpened since it started. */
  predicate HasOpened(ws: seq<World>, es: seq<Event>, n: nat)
    requires |ws| == |es| + 1 && n < |ws|
  {
    n > 0 && ws[n - 1].exit.None?
    && (HasOpened(ws, es, n - 1) || TakesOpened(ws[n - 1], es[n - 1]))
  }

  /** Every JobOpened names `home`. */
  predicate OpenedIn(home: string, ws: seq<World>, es: seq<Event>)
    requires |ws| == |es| + 1
  {
    forall i :: 0 <= i < |es| && ws[i].exit.None? && TakesOpened(ws[i], es[i]) ==>
      RegionAsked(ws[i].job.terms, Received(ws[i], es[i]).value) == home
  }

  /** If every JobOpened names one region, then a job of which one was taken is there. */
  lemma {:induction false} OpenedIsHome(env: Env, ws: seq<World>, es: seq<Event>, home: string, n: nat)
    requires Run(env, ws, es) && OpenedIn(home, ws, es) && n < |ws|
    ensures HasOpened(ws, es, n) && ws[n].exit.None? ==> ws[n].job.terms.region == home
  {
    hide Step;
    hide TakesOpened;
    hide RegionAsked;
    if n > 0 {
      OpenedIsHome(env, ws, es, home, n - 1);
      var w, e, w' := ws[n - 1], es[n - 1], ws[n];
      if w.exit.None? && w'.exit.None? {
        assert Step(env, w, e, w') by { OnlyEndedRestart(w, w'); }
        RegionMoves(env, w, e, w');
      }
    }
  }

  lemma RegionMoves(env: Env, w: World, e: Event, w': World)
    requires Step(env, w, e, w') && w'.exit.None?
    ensures w'.job.terms.region
         == if TakesOpened(w, e) then RegionAsked(w.job.terms, Received(w, e).value) else w.job.terms.region
  {
    EndOfStream(w.job.terms, env);
    CallsKeepTerms(w.job, e.calls, e.end);
    if Received(w, e).Some? {
      RegionAfter(w.job.terms, env, e.log.value);
      ProcessLogIs(w.job, env, Fired(w, e).at.value, e.log.value);
      hide ProcessLog;
    }
    hide RegionAsked;
    hide ChangeInfra;
    hide HeartbeatCheck;
    hide Fire;
    hide Judge;
  }

  // ---- Two regions -----------------------------------------------------------------------------------

  /** Two of the logs revive the job, in different regions. */
  predicate RevivedApart(env: Env, now: nat, logs: seq<Log>, i: nat, k: nat) {
    && i < k < |logs|
    && RevivesAt(NewJob(now), env, now, logs, i) && RevivesAt(NewJob(now), env, now, logs, k)
    && RegionAsked(TermsAt(NewJob(now), env, now, logs, i), logs[i])
       != RegionAsked(TermsAt(NewJob(now), env, now, logs, k), logs[k])
  }

  /** Every log that revives the job leaves it paid for longer than two delayed launches take. */
  predicate Lasting(env: Env, now: nat, logs: seq<Log>) {
    forall i :: 0 <= i < |logs| && RevivesAt(NewJob(now), env, now, logs, i) ==>
      InsolvencyDuration(TermsAt(NewJob(now), env, now, logs, i + 1), now) > 2 * env.launchDelay * SEC
  }

  function Start(now: nat): World { World(NewJob(now), map[], now, None) }

  /** A run from nothing in which every manager gets the job's logs, as far as it lives. */
  ghost predicate RunOf(env: Env, now: nat, logs: seq<Log>, ws: seq<World>, es: seq<Event>) {
    && |ws| == |es| + 1 && Run(env, ws, es) && ws[0] == Start(now)
    && forall n :: 0 <= n <= |es| ==> LogsTaken(ws, es, n) <= logs
  }

  ghost predicate CanDouble(env: Env, now: nat, logs: seq<Log>) {
    exists ws: seq<World>, es: seq<Event> ::
      |ws| == |es| + 1 && RunOf(env, now, logs, ws, es) && !AtMostOne(ws[|es|].cloud)
  }

  /** Exactly when a job can come to have two live instances: when two of its logs revive it in
      different regions. For jobs that stay paid for long enough to be launched after each. */
  lemma TwoInstancesIffTwoRegions(env: Env, now: nat, logs: seq<Log>)
    requires Lasting(env, now, logs)
    ensures CanDouble(env, now, logs) <==> exists i, k :: RevivedApart(env, now, logs, i, k)
  {
    hide RevivedApart;
    hide RunOf;
    hide Lasting;
    hide AtMostOne;
    if exists i, k :: RevivedApart(env, now, logs, i, k) {
      var i, k :| RevivedApart(env, now, logs, i, k);
      var ws, es := Doubled(env, now, logs, i, k);
    }
    if CanDouble(env, now, logs) {
      var ws: seq<World>, es: seq<Event> :|
        |ws| == |es| + 1 && RunOf(env, now, logs, ws, es) && !AtMostOne(ws[|es|].cloud);
      var i, k := DoubledNeedsTwo(env, now, logs, ws, es);
    }
  }

  // ---- Two instances need two regions ----

  /** Terms that differ at most in the time of the last settlement, which a new manager sets to its
      own start. */
  predicate Alike(t: Terms, u: Terms) {
    t == u.(lastSettled := t.lastSettled)
  }

  lemma AlikeDecide(t: Terms, u: Terms, env: Env, log: Log)
    requires Alike(t, u)
    ensures Revives(t, env, log) == Revives(u, env, log) && GivesUp(t, env, log) == GivesUp(u, env, log)
    ensures RegionAsked(t, log) == RegionAsked(u, log)
    ensures Alike(Judge(t, env, Some(log)).terms, Judge(u, env, Some(log)).terms)
    ensures Judge(t, env, Some(log)).code == Judge(u, env, Some(log)).code
  {
    hide OwnerAllowed;
    hide OpenMetadata;
    hide FindMinRate;
    hide Bandwidth;
  }

  lemma {:induction false} ReplaysAlike(j: Job, k: Job, env: Env, t: nat, u: nat, logs: seq<Log>)
    requires Alike(j.terms, k.terms)
    ensures Alike(Replay(j, env, t, logs).0.terms, Replay(k, env, u, logs).0.terms)
    ensures Replay(j, env, t, logs).1 == -2 <==> Replay(k, env, u, logs).1 == -2
    decreases |logs|
  {
    hide Alike;
    hide ProcessLog;
    hide Judge;
    if logs != [] {
      var n := |logs| - 1;
      ReplaysAlike(j, k, env, t, u, logs[..n]);
      var a, b := Replay(j, env, t, logs[..n]).0, Replay(k, env, u, logs[..n]).0;
      AlikeDecide(a.terms, b.terms, env, logs[n]);
      ProcessLogIs(a, env, t, logs[n]);
      ProcessLogIs(b, env, u, logs[n]);
    }
  }

  /** A log that a manager takes and that revives its job is one of the job's that does so. */
  lemma TakenIsOne(env: Env, now: nat, logs: seq<Log>, ws: seq<World>, es: seq<Event>, p: nat) returns (i: nat)
    requires RunOf(env, now, logs, ws, es) && p < |es| && ws[p].exit.None?
    requires Received(ws[p], es[p]).Some? && Revives(ws[p].job.terms, env, Received(ws[p], es[p]).value)
    ensures i < |logs| && RevivesAt(NewJob(now), env, now, logs, i)
    ensures RegionAsked(TermsAt(NewJob(now), env, now, logs, i), logs[i])
         == RegionAsked(ws[p].job.terms, Received(ws[p], es[p]).value)
  {
    hide Run;
    hide Received;
    var taken, log := LogsTaken(ws, es, p), Received(ws[p], es[p]).value;
    i := |taken|;
    assert LogsTaken(ws, es, p + 1) == taken + [log];
    assert taken + [log] <= logs;
    assert logs[i] == log && logs[..i] == taken;
    hide LogsTaken;
    RunIsReplay(env, ws, es, p, now);
    var start := StartedAt(ws, p);
    hide StartedAt;
    ReplaysAlike(NewJob(start), NewJob(now), env, now, now, taken);
    hide Replay;
    ReplayReaches(NewJob(now), env, now, taken);
    PrefixesAgree(NewJob(now), env, now, logs, i);
    AlikeDecide(ws[p].job.terms, TermsAt(NewJob(now), env, now, logs, i), env, log);
  }

  lemma DoubledNeedsTwo(env: Env, now: nat, logs: seq<Log>, ws: seq<World>, es: seq<Event>)
    returns (i: nat, k: nat)
    requires RunOf(env, now, logs, ws, es) && !AtMostOne(ws[|es|].cloud)
    ensures RevivedApart(env, now, logs, i, k)
  {
    hide Run;
    hide LogsTaken;
    hide Revives;
    hide Received;
    hide RegionAsked;
    hide AtMostOne;
    var home := "";
    if p :| 0 <= p < |es| && ws[p].exit.None? && Received(ws[p], es[p]).Some?
            && Revives(ws[p].job.terms, env, Received(ws[p], es[p]).value) {
      home := RegionAsked(ws[p].job.terms, Received(ws[p], es[p]).value);
      i := TakenIsOne(env, now, logs, ws, es, p);
    }
    if RevivedIn(home, env, ws, es) {
      NothingYet(home, now);
      AtMostOneInstanceOfJob(env, ws, es, home, |es|);
    }
    var q :| 0 <= q < |es| && ws[q].exit.None? && !RevivesIn(home, ws[q].job.terms, env, Received(ws[q], es[q]));
    k := TakenIsOne(env, now, logs, ws, es, q);
    if k < i {
      i, k := k, i;
    }
  }

  lemma NothingYet(home: string, now: nat)
    ensures OnlyIn(Start(now).cloud, home) && Intent(Start(now)) && AtHome(Start(now), home)
  {
  }

  // ---- Two regions are enough ----

  /** A run from nothing in which one manager takes exactly these logs and goes on. */
  ghost predicate Taking(env: Env, now: nat, ws: seq<World>, es: seq<Event>, logs: seq<Log>) {
    && |ws| == |es| + 1 && Run(env, ws, es) && ws[0] == Start(now)
    && (forall n :: 0 <= n < |ws| ==> ws[n].exit.None?)
    && LogsTaken(ws, es, |es|) == logs
  }

  lemma {:induction false} TakenBefore(ws: seq<World>, es: seq<Event>, e: Event, w': World, n: nat)
    requires |ws| == |es| + 1 && n <= |es|
    ensures LogsTaken(ws + [w'], es + [e], n) == LogsTaken(ws, es, n)
  {
    hide Received;
    if n > 0 {
      TakenBefore(ws, es, e, w', n - 1);
    }
  }

  lemma Extend(env: Env, now: nat, ws: seq<World>, es: seq<Event>, logs: seq<Log>, e: Event, w': World)
    requires Taking(env, now, ws, es, logs) && Step(env, ws[|es|], e, w') && w'.exit.None?
    ensures Taking(env, now, ws + [w'], es + [e],
                   logs + if Received(ws[|es|], e).Some? then [Received(ws[|es|], e).value] else [])
  {
    hide Step;
    hide Received;
    TakenBefore(ws, es, e, w', |es|);
    var ws', es' := ws + [w'], es + [e];
    forall i | 0 <= i < |es'| ensures Step(env, ws'[i], es'[i], ws'[i + 1]) || Restart(ws'[i], ws'[i + 1]) {
      if i < |es| {
        assert ws'[i] == ws[i] && ws'[i + 1] == ws[i + 1] && es'[i] == es[i];
      }
    }
  }

  lemma {:induction false} TakenGrow(ws: seq<World>, es: seq<Event>, m: nat, n: nat)
    requires |ws| == |es| + 1 && m <= n <= |es| && forall i :: 0 <= i < |ws| ==> ws[i].exit.None?
    ensures LogsTaken(ws, es, m) <= LogsTaken(ws, es, n)
  {
    hide Received;
    if m < n {
      TakenGrow(ws, es, m, n - 1);
    }
  }

  lemma {:induction false} OneManager(ws: seq<World>, n: nat)
    requires n < |ws| && forall i :: 0 <= i < |ws| ==> ws[i].exit.None?
    ensures StartedAt(ws, n) == ws[0].now
  {
    if n > 0 {
      OneManager(ws, n - 1);
    }
  }

  lemma LastTerms(env: Env, now: nat, ws: seq<World>, es: seq<Event>, logs: seq<Log>, n: nat)
    requires n <= |logs| && Taking(env, now, ws, es, logs[..n])
    ensures ws[|es|].job.terms == TermsAt(NewJob(now), env, now, logs, n)
  {
    OneManager(ws, |es|);
    RunIsReplay(env, ws, es, |es|, now);
  }

  /** From `w` to `w'` logs were taken at once, with `log` the last, on terms `t`. */
  predicate Takes(env: Env, w: World, w': World, t: Terms, log: Log) {
    && w' == w.(job := w'.job) && w'.job.instanceId == w.job.instanceId
    && (Revives(t, env, log) ==>
          && w'.job.infraState && w'.job.infraChangeScheduled
          && w'.job.infraChangeTime == w.now + env.launchDelay * SEC)
  }

  /** Logs `n` to `m` are taken at once. */
  lemma {:induction false} TakeMore(
    env: Env, now: nat, ws: seq<World>, es: seq<Event>, logs: seq<Log>, n: nat, m: nat)
    returns (ws': seq<World>, es': seq<Event>)
    requires |ws| == |es| + 1 && n < m <= |logs|
    requires Taking(env, now, ws, es, logs[..n]) && Reached(NewJob(now), env, now, logs, m)
    ensures |ws'| == |es'| + 1
    ensures Takes(env, ws[|es|], ws'[|es'|], TermsAt(NewJob(now), env, now, logs, m - 1), logs[m - 1])
    ensures Taking(env, now, ws', es', logs[..m])
    decreases m - n
  {
    hide Replay;
    hide Revives;
    hide GivesUp;
    hide Taking;
    if n + 1 < m {
      ws', es' := TakeMore(env, now, ws, es, logs, n, m - 1);
    } else {
      ws', es' := ws, es;
    }
    assert !GivesUp(TermsAt(NewJob(now), env, now, logs, m - 1), env, logs[m - 1]);
    assert ws'[|es'|].exit.None? && |ws'| == |es'| + 1 by { LastIsLive(env, now, ws', es', logs[..m - 1]); }
    LastTerms(env, now, ws', es', logs, m - 1);
    var e, w' := TakeOne(env, ws'[|es'|], logs[m - 1]);
    Extend(env, now, ws', es', logs[..m - 1], e, w');
    assert logs[..m - 1] + [logs[m - 1]] == logs[..m];
    ws', es' := ws' + [w'], es' + [e];
  }

  lemma LastIsLive(env: Env, now: nat, ws: seq<World>, es: seq<Event>, logs: seq<Log>)
    requires Taking(env, now, ws, es, logs)
    ensures |ws| == |es| + 1 && ws[|es|].exit.None?
  {
  }

  lemma TakeOne(env: Env, w: World, log: Log) returns (e: Event, w': World)
    requires w.exit.None? && !GivesUp(w.job.terms, env, log)
    ensures Step(env, w, e, w') && Received(w, e) == Some(log)
    ensures w'.exit.None? && Takes(env, w, w', w.job.terms, log)
  {
    JudgeExactly(w.job.terms, env, log);
    e := Event(Some(w.now), Some(log), [], [w.cloud], w.now);
    w' := w.(job := ProcessLog(w.job, env, w.now, Some(log)).0);
    assert Fired(w, e) == Timer(OnLog, Some(w.now));
    hide Judge;
    hide Fired;
    hide Revives;
    hide GivesUp;
  }

  /** Time left later on is no shorter than what is left of it now. */
  lemma LastsOn(t: Terms, now: nat, later: nat, until: nat)
    requires now <= later <= until < now + InsolvencyDuration(t, now)
    ensures until < later + InsolvencyDuration(t, later)
  {
    hide PaidSeconds;
  }

  /** The launch that is due at the job's time happens, after as many heartbeats, none of which gets an
      answer, as come before it. */
  lemma {:induction false} LaunchDue(
    env: Env, now: nat, ws: seq<World>, es: seq<Event>, logs: seq<Log>, id: Id)
    returns (ws': seq<World>, es': seq<Event>)
    requires Taking(env, now, ws, es, logs)
    requires var w := ws[|es|];
      && w.job.infraState && w.job.infraChangeScheduled
      && w.now <= w.job.infraChangeTime < w.now + InsolvencyDuration(w.job.terms, w.now)
      && NoneLive(w.cloud, w.job.terms.region) && id !in w.cloud
    ensures Taking(env, now, ws', es', logs)
    ensures ws'[|es'|] == Launched(ws[|es|], id)
    decreases ws[|es|].job.infraChangeTime - ws[|es|].now
  {
    hide NoneLive;
    hide InsolvencyDuration;
    hide Received;
    LastIsLive(env, now, ws, es, logs);
    hide Taking;
    var w := ws[|es|];
    if w.job.instanceId != "" && w.now + 5 * SEC <= w.job.infraChangeTime {
      var e, w1 := Beating(env, w);
      Extend(env, now, ws, es, logs, e, w1);
      assert logs + [] == logs;
      LastsOn(w.job.terms, w.now, w1.now, w.job.infraChangeTime);
      LastIsLive(env, now, ws + [w1], es + [e], logs);
      ws', es' := LaunchDue(env, now, ws + [w1], es + [e], logs, id);
    } else {
      var e, w1 := Launching(env, w, id);
      Extend(env, now, ws, es, logs, e, w1);
      assert logs + [] == logs;
      ws', es' := ws + [w1], es + [e];
      LastIsLive(env, now, ws', es', logs);
    }
  }

  lemma Beating(env: Env, w: World) returns (e: Event, w': World)
    requires w.exit.None? && w.job.infraState && w.job.instanceId != ""
    requires w.now + 5 * SEC <= w.job.infraChangeTime < w.now + InsolvencyDuration(w.job.terms, w.now)
    ensures Step(env, w, e, w') && Received(w, e).None?
    ensures w' == w.(now := w.now + 5 * SEC)
  {
    hide InsolvencyDuration;
    var check := CheckInstance(w.job.instanceId, w.job.terms.region, None);
    e := Event(None, None, [check], [w.cloud, w.cloud], w.now + 5 * SEC);
    w' := w.(now := w.now + 5 * SEC);
    assert Effect(w.cloud, check, w.cloud);
  }

  /** The world after the launch that was due. */
  function Launched(w: World, id: Id): World {
    World(w.job.(instanceId := id, infraChangeScheduled := false),
          w.cloud[id := Instance(w.job.terms.region, "running")], w.job.infraChangeTime, None)
  }

  lemma Launching(env: Env, w: World, id: Id) returns (e: Event, w': World)
    requires w.exit.None? && w.job.infraState && w.job.infraChangeScheduled
    requires w.now <= w.job.infraChangeTime < w.now + InsolvencyDuration(w.job.terms, w.now)
    requires w.job.instanceId == "" || w.job.infraChangeTime < w.now + 5 * SEC
    requires NoneLive(w.cloud, w.job.terms.region) && id !in w.cloud
    ensures Step(env, w, e, w') && Received(w, e).None?
    ensures w' == Launched(w, id)
  {
    hide InsolvencyDuration;
    var t := w.job.terms;
    var c := w.cloud[id := Instance(t.region, "running")];
    var j := w.job.(instanceId := id);
    var get := GetInstance(t.region, Some((false, "", "")));
    var up := SpinUp(t.instanceType, t.family, t.region, t.reqMem, t.reqVcpus, t.bandwidth, Some(id));
    var calls := [get, up, RunEnclaveFor(j, true)];
    e := Event(None, None, calls, [w.cloud, w.cloud, c, c], w.job.infraChangeTime);
    w' := Launched(w, id);
    assert c - {id} == w.cloud;
    assert Effect(w.cloud, get, w.cloud) && Effect(w.cloud, up, c) && Effect(c, calls[2], c);
    assert calls[1..] == [up, calls[2]];
    assert Fired(w, e) == Timer(OnInfra, Some(w.job.infraChangeTime));
  }

  lemma RevivedRegion(env: Env, now: nat, logs: seq<Log>, i: nat)
    requires i < |logs| && RevivesAt(NewJob(now), env, now, logs, i)
    ensures Reached(NewJob(now), env, now, logs, i + 1)
    ensures TermsAt(NewJob(now), env, now, logs, i + 1).region
         == RegionAsked(TermsAt(NewJob(now), env, now, logs, i), logs[i])
  {
    hide ProcessLog;
    var k := Replay(NewJob(now), env, now, logs[..i]).0;
    RevivingGoesOn(k.terms, env, logs[i]);
    hide Revives;
    hide GivesUp;
    PrefixesAgree(NewJob(now), env, now, logs, i);
    ReplayReaches(NewJob(now), env, now, logs[..i]);
    assert logs[..i + 1][..i] == logs[..i];
    ProcessLogIs(k, env, now, logs[i]);
    JudgeExactly(k.terms, env, logs[i]);
    RegionAfter(k.terms, env, logs[i]);
    hide Judge;
    hide RegionAsked;
  }

  lemma RevivingGoesOn(t: Terms, env: Env, log: Log)
    requires Revives(t, env, log)
    ensures !GivesUp(t, env, log)
  {
  }

  /** The logs up to a reviving one, and the launch it asks for. */
  lemma ReviveAndLaunch(
    env: Env, now: nat, logs: seq<Log>, ws: seq<World>, es: seq<Event>, n: nat, i: nat, id: Id)
    returns (ws': seq<World>, es': seq<Event>)
    requires n <= i < |logs| && Taking(env, now, ws, es, logs[..n])
    requires Lasting(env, now, logs) && RevivesAt(NewJob(now), env, now, logs, i)
    requires var w := ws[|es|];
      && now <= w.now <= now + env.launchDelay * SEC
      && NoneLive(w.cloud, RegionAsked(TermsAt(NewJob(now), env, now, logs, i), logs[i])) && id !in w.cloud
    ensures Taking(env, now, ws', es', logs[..i + 1])
    ensures ws'[|es'|].now == ws[|es|].now + env.launchDelay * SEC
    ensures ws'[|es'|].cloud
         == ws[|es|].cloud[id := Instance(RegionAsked(TermsAt(NewJob(now), env, now, logs, i), logs[i]), "running")]
  {
    hide Taking;
    hide TermsAt;
    hide RegionAsked;
    hide NoneLive;
    RevivedRegion(env, now, logs, i);
    var t := TermsAt(NewJob(now), env, now, logs, i + 1);
    assert Revives(TermsAt(NewJob(now), env, now, logs, i), env, logs[i]);
    assert InsolvencyDuration(t, now) > 2 * env.launchDelay * SEC;
    hide Reached;
    hide Revives;
    hide Lasting;
    hide InsolvencyDuration;
    LastIsLive(env, now, ws, es, logs[..n]);
    ws', es' := TakeMore(env, now, ws, es, logs, n, i + 1);
    LastIsLive(env, now, ws', es', logs[..i + 1]);
    LastTerms(env, now, ws', es', logs, i + 1);
    var w, due := ws'[|es'|], ws[|es|].now + env.launchDelay * SEC;
    assert w.job.infraChangeTime == due <= now + 2 * env.launchDelay * SEC;
    LastsOn(t, now, w.now, due);
    ws', es' := LaunchDue(env, now, ws', es', logs[..i + 1], id);
  }

  /** The first launch and then, once the job has been moved, the second. */
  lemma Doubled(env: Env, now: nat, logs: seq<Log>, i: nat, k: nat)
    returns (ws: seq<World>, es: seq<Event>)
    requires RevivedApart(env, now, logs, i, k) && Lasting(env, now, logs)
    ensures |ws| == |es| + 1 && RunOf(env, now, logs, ws, es) && !AtMostOne(ws[|es|].cloud)
  {
    hide RevivesAt;
    hide Lasting;
    hide Replay;
    hide RegionAsked;
    ws, es := [Start(now)], [];
    assert Taking(env, now, ws, es, logs[..0]);
    hide Taking;
    ws, es := ReviveAndLaunch(env, now, logs, ws, es, 0, i, "x");
    LastIsLive(env, now, ws, es, logs[..i + 1]);
    ws, es := ReviveAndLaunch(env, now, logs, ws, es, i + 1, k, "y");
    LastIsLive(env, now, ws, es, logs[..k + 1]);
    var c := ws[|es|].cloud;
    assert LiveState(c["x"].state) && LiveState(c["y"].state);
    TakingIsRunOf(env, now, ws, es, logs, k + 1);
  }

  lemma TakingIsRunOf(env: Env, now: nat, ws: seq<World>, es: seq<Event>, logs: seq<Log>, n: nat)
    requires n <= |logs| && Taking(env, now, ws, es, logs[..n])
    ensures RunOf(env, now, logs, ws, es)
  {
    hide Run;
    forall m | 0 <= m <= |es| ensures LogsTaken(ws, es, m) <= logs {
      TakenGrow(ws, es, m, |es|);
    }
  }

  // ---- A run of this kind -----------------------------------------------------------------------

  /** The shortest such run: opened and launched in one region, opened and launched in another. */
  lemma TwoRegionsTwoInstances() returns (env: Env, ws: seq<World>, es: seq<Event>)
    ensures Run(env, ws, es) && ws[0] == Start(0)
    ensures forall i :: 0 <= i < |es| && Received(ws[i], es[i]).Some? ==> Received(ws[i], es[i]).value.Opened?
    ensures !AtMostOne(ws[|es|].cloud)
  {
    hide Step;
    hide Fired;
    hide Received;
    env := TwoRegions();
    var w0 := Start(0);
    var e0, w1 := Opening(w0, "a");
    var e1, w2 := Launching(env, w1, "x");
    var e2, w3 := Opening(w2, "b");
    var e3, w4 := Launching(env, w3, "y");
    ws, es := [w0, w1, w2, w3, w4], [e0, e1, e2, e3];
    assert w4.cloud["x"] == Instance("a", "running") && w4.cloud["y"] == Instance("b", "running");
  }

  function TwoRegions(): Env {
    Env(0, ["a", "b"], [RegionalRates("a", [RateCard("i", 1)]), RegionalRates("b", [RateCard("i", 1)])], [], [], [])
  }

  /** The logs of that run, and that they are of the kind. */
  function OpenIn(region: string): Log {
    Opened("o", Some(Metadata(Some("i"), Some(region), Some(1), Some(1), Some("u"), None, None)), 1, 1000, 0)
  }

  lemma OpeningsAreApart()
    ensures RevivedApart(TwoRegions(), 0, [OpenIn("a"), OpenIn("b")], 0, 1)
    ensures Lasting(TwoRegions(), 0, [OpenIn("a"), OpenIn("b")])
  {
    var env, j := TwoRegions(), NewJob(0);
    var a, b := OpenIn("a"), OpenIn("b");
    var logs := [a, b];
    assert logs[..0] == [] && logs[..1] == [a] && logs[..2] == logs;
    assert Replay(j, env, 0, [a]) == ProcessLog(j, env, 0, Some(a)) by { assert [a][..0] == []; }
    var k := ProcessLog(j, env, 0, Some(a)).0;
    OpeningRevives(j, "a");
    OpeningRevives(k, "b");
    assert Replay(j, env, 0, logs) == ProcessLog(k, env, 0, Some(b));
    hide Revives;
    hide ProcessLog;
    hide InsolvencyDuration;
    hide GivesUp;
  }

  lemma OpeningRevives(j: Job, region: string)
    requires region in ["a", "b"]
    ensures Revives(j.terms, TwoRegions(), OpenIn(region)) && !GivesUp(j.terms, TwoRegions(), OpenIn(region))
    ensures ProcessLog(j, TwoRegions(), 0, Some(OpenIn(region))).1 == 0
    ensures InsolvencyDuration(ProcessLog(j, TwoRegions(), 0, Some(OpenIn(region))).0.terms, 0) > 0
  {
    PricesInBoth(region);
    assert PaidSeconds(1000, 1) == 1000 * RATE_SCALE;
  }

  lemma Opening(w: World, region: string) returns (e: Event, w': World)
    requires w.exit.None? && w.now == 0 && region in ["a", "b"]
    ensures Step(TwoRegions(), w, e, w') && Received(w, e).Some? && Received(w, e).value.Opened?
    ensures w' == w.(job := w'.job) && w'.job.terms.region == region && w'.job.instanceId == w.job.instanceId
    ensures w'.job.infraState && w'.job.infraChangeScheduled && w'.job.infraChangeTime == 0
    ensures InsolvencyDuration(w'.job.terms, 0) > 0
  {
    var log := OpenIn(region);
    e := Event(Some(0), Some(log), [], [w.cloud], 0);
    w' := w.(job := ProcessLog(w.job, TwoRegions(), 0, Some(log)).0);
    assert FindMinRate(TwoRegions().rates, region, "i") == Some(1) by { PricesInBoth(region); }
    assert Fired(w, e) == Timer(OnLog, Some(0));
    assert PaidSeconds(1000, 1) == 1000 * RATE_SCALE;
  }

  lemma PricesInBoth(region: string)
    requires region in ["a", "b"]
    ensures FindMinRate(TwoRegions().rates, region, "i") == Some(1)
  {
    var rates := TwoRegions().rates;
    assert rates[1..][0] == rates[1];
  }
}
