/** The event loop of a job manager, as a relation between worlds, and what holds over whole
    runs of it: restarts, failing cloud calls and any arrival of logs included. */
module JobManager {
  import opened Bytes
  import opened Market
  import opened Infra
  import Solvency
  import opened Verdicts

  // ---- what the handlers call, given the replies ----

  function RunEnclaveFor(j: Job, ok: bool): Call {
    var t := j.terms;
    RunEnclave(j.instanceId, t.family, t.region, t.eifUrl, t.reqVcpus, t.reqMem, t.bandwidth, t.debug, ok)
  }

  /** The rest of a launch: spin up and run the enclave, whose failure is left to the heartbeat. */
  function Launch(j: Job, calls: seq<Call>): Option<(Job, bool)> {
    if calls == [] || !calls[0].SpinUp? then None else
    var launched, t := calls[0].launched, j.terms;
    if calls[0] != SpinUp(t.instanceType, t.family, t.region, t.reqMem, t.reqVcpus, t.bandwidth, launched) then None
    else if launched.None? then (if |calls| == 1 then Some((j, false)) else None)
    else
      var k := j.(instanceId := launched.value);
      if |calls| == 2 && calls[1].RunEnclave? && calls[1] == RunEnclaveFor(k, calls[1].ok) then Some((k, true))
      else None
  }

  /** `change_infra_impl`: the new state and success, if `calls` are the calls it makes. */
  function ChangeInfraImpl(j: Job, calls: seq<Call>): Option<(Job, bool)> {
    if calls == [] || !calls[0].GetInstance? || calls[0].region != j.terms.region then None else
    match calls[0].found
    case None => if |calls| == 1 then Some((j, false)) else None
    case Some((exist, id, state)) =>
      if j.infraState then
        // the job is to run
        if exist && (state == "pending" || state == "running") then
          var k := j.(instanceId := id);
          if !k.eifUpdate then (if |calls| == 1 then Some((k, true)) else None)
          else if |calls| == 2 && calls[1].UpdateImage?
                  && calls[1] == UpdateImage(id, k.terms.region, k.terms.eifUrl, k.terms.reqVcpus, k.terms.reqMem,
                                             calls[1].ok)
          then (if calls[1].ok then Some((k.(eifUpdate := false), true)) else Some((k, false)))
          else None
        else if exist && (state == "stopping" || state == "stopped") then
          // a live instance that does not work makes room first
          if |calls| < 2 || !calls[1].SpinDown? || calls[1] != SpinDown(id, j.terms.region, calls[1].ok) then None
          else if !calls[1].ok then (if |calls| == 2 then Some((j, false)) else None)
          else Launch(j, calls[2..])
        else Launch(j, calls[1..])
      else
        // the job is to stop
        if !exist || state == "shutting-down" || state == "terminated" then
          (if |calls| == 1 then Some((j, true)) else None)
        else if |calls| == 2 && calls[1].SpinDown? && calls[1] == SpinDown(id, j.terms.region, calls[1].ok)
        then Some((j, calls[1].ok))
        else None
  }

  /** `change_infra`, finished at time `now`: on failure retried after two seconds. */
  function ChangeInfra(j: Job, calls: seq<Call>, now: nat): Option<(Job, bool)> {
    match ChangeInfraImpl(j, calls)
    case None => None
    case Some((k, true)) => Some((k.(infraChangeScheduled := false), true))
    case Some((k, false)) => Some((k.(infraChangeTime := now + 2 * SEC), false))
  }

  /** `heartbeat_check`, finished at time `now`. */
  function HeartbeatCheck(j: Job, calls: seq<Call>, now: nat): Option<Job> {
    if calls == [] || !calls[0].CheckInstance?
       || calls[0] != CheckInstance(j.instanceId, j.terms.region, calls[0].running)
    then None
    else match calls[0].running
      case None => if |calls| == 1 then Some(j) else None
      case Some(false) =>
        if |calls| != 1 then None
        else if j.terms.rate >= j.terms.minRate then Some(ScheduleLaunch(j, now, 0)) else Some(j)
      case Some(true) =>
        if |calls| < 2 || !calls[1].CheckEnclave?
           || calls[1] != CheckEnclave(j.instanceId, j.terms.region, calls[1].running)
        then None
        else if calls[1].running == Some(false) then
          if |calls| == 3 && calls[2].RunEnclave? && calls[2] == RunEnclaveFor(j, calls[2].ok) then Some(j) else None
        else if |calls| == 2 then Some(j) else None
  }

  // ---- the biased select ----

  datatype Branch = OnLog | OnHeartbeat | OnInsolvency | OnInfra

  datatype Timer = Timer(branch: Branch, at: Option<nat>)

  function Sooner(a: Timer, b: Timer): Timer {
    if b.at.None? then a else if a.at.None? || b.at.value < a.at.value then b else a
  }

  /** The branch that fires, and when, from an iteration that starts at `now` with the next log
      ready at `logAt`; on ties the branch listed first wins. */
  function Fire(j: Job, now: nat, logAt: Option<nat>): Timer {
    var heartbeat := Timer(OnHeartbeat, if j.instanceId != "" then Some(now + 5 * SEC) else None);
    var insolvency := Timer(OnInsolvency,
                            if !j.infraChangeScheduled || j.infraState
                            then Some(now + InsolvencyDuration(j.terms, now)) else None);
    var infra := Timer(OnInfra,
                       if j.infraChangeScheduled then Some(now + SaturatingSub(j.infraChangeTime, now)) else None);
    Sooner(Sooner(Sooner(Timer(OnLog, logAt), heartbeat), insolvency), infra)
  }

  // ---- runs ----

  datatype World = World(job: Job, cloud: Cloud, now: nat, exit: Option<int>)

  /** One iteration: when the next log is ready and what it is (None at the end of the stream),
      the calls made, the clouds around them, and when the handler was done. */
  datatype Event = Event(logAt: Option<nat>, log: Option<Log>, calls: seq<Call>, clouds: seq<Cloud>, end: nat)

  function Fired(w: World, e: Event): Timer { Fire(w.job, w.now, e.logAt) }

  ghost predicate Step(env: Env, w: World, e: Event, w': World) {
    var t := Fired(w, e);
    && w.exit.None?
    && (e.logAt.Some? ==> e.logAt.value >= w.now)
    && t.at.Some? && e.end >= t.at.value && w'.now == e.end
    && Traced(e.calls, e.clouds) && Drifts(w.cloud, e.clouds[0]) && w'.cloud == e.clouds[|e.calls|]
    && match t.branch
       case OnLog =>
         var (k, res) := ProcessLog(w.job, env, t.at.value, e.log);
         && e.calls == [] && e.end == t.at.value
         && w'.job == k && w'.exit == (if res == -2 || res == -1 then Some(res) else None)
       case OnHeartbeat => HeartbeatCheck(w.job, e.calls, e.end) == Some(w'.job) && w'.exit.None?
       case OnInsolvency =>
         && e.calls == [] && e.end == t.at.value
         && w'.job == ScheduleTermination(w.job, t.at.value) && w'.exit.None?
       case OnInfra =>
         var r := ChangeInfra(w.job, e.calls, e.end);
         && r.Some? && w'.job == r.value.0
         && w'.exit == (if r.value.1 && !w'.job.infraState then Some(0) else None)
  }

  /** `job_manager` starts over, with fresh state, after the stream of logs ended. */
  ghost predicate Restart(w: World, w': World) {
    && w.exit == Some(-1)
    && w'.exit.None? && w'.now >= w.now && w'.job == NewJob(w'.now)
    && Drifts(w.cloud, w'.cloud)
  }

  ghost predicate Run(env: Env, ws: seq<World>, es: seq<Event>) {
    && |ws| == |es| + 1
    && forall i :: 0 <= i < |es| ==> Step(env, ws[i], es[i], ws[i + 1]) || Restart(ws[i], ws[i + 1])
  }

  // ---- at most one live instance ----

  /** Calls without a launch into the region keep the cloud at most one there. */
  lemma {:induction false} CallsKeep(calls: seq<Call>, clouds: seq<Cloud>, region: string, n: nat)
    requires Traced(calls, clouds) && n <= |calls|
    requires forall i :: 0 <= i < n ==> calls[i].SpinUp? ==> calls[i].region != region
    ensures AtMostOneLive(clouds[0], region) ==> AtMostOneLive(clouds[n], region)
    ensures NoneLive(clouds[0], region) ==> NoneLive(clouds[n], region)
  {
    if n > 0 {
      CallsKeep(calls, clouds, region, n - 1);
      CallKeepsAtMostOne(clouds[n - 1], calls[n - 1], clouds[n], region);
    }
  }

  /** The launch happens at `at`, into a region that was found or made empty. */
  lemma LaunchKeeps(j: Job, calls: seq<Call>, clouds: seq<Cloud>, at: nat)
    requires Traced(calls, clouds) && at < |calls| && Launch(j, calls[at..]).Some?
    requires NoneLive(clouds[at], j.terms.region)
    ensures AtMostOneLive(clouds[|calls|], j.terms.region)
  {
    var rest := calls[at..];
    assert rest[0] == calls[at] && |rest| == |calls| - at;
    assert Effect(clouds[at], calls[at], clouds[at + 1]);
    LaunchIntoEmpty(clouds[at], calls[at], clouds[at + 1]);
    if |rest| == 2 {
      assert rest[1] == calls[at + 1];
      assert Effect(clouds[at + 1], calls[at + 1], clouds[at + 2]);
      CallKeepsAtMostOne(clouds[at + 1], calls[at + 1], clouds[at + 2], j.terms.region);
    }
  }

  /** A change of infrastructure keeps at most one live instance in the job's region, and a
      successful one in terminate mode leaves none. */
  lemma ChangeKeeps(j: Job, calls: seq<Call>, clouds: seq<Cloud>)
    requires ChangeInfraImpl(j, calls).Some? && Traced(calls, clouds)
    requires AtMostOneLive(clouds[0], j.terms.region)
    ensures AtMostOneLive(clouds[|calls|], j.terms.region)
    ensures ChangeInfraImpl(j, calls).value.1 && !j.infraState ==> NoneLive(clouds[|calls|], j.terms.region)
  {
    var c0, c1 := clouds[0], clouds[1];
    assert Effect(c0, calls[0], c1);
    CallKeepsAtMostOne(c0, calls[0], c1, j.terms.region);
    if calls[0].found.Some? {
      var (exist, id, state) := calls[0].found.value;
      if |calls| >= 2 && calls[1].SpinDown? {
        var c2 := clouds[2];
        assert Effect(c1, calls[1], c2);
        CallKeepsAtMostOne(c1, calls[1], c2, j.terms.region);
        if calls[1].ok {
          FoundIsTheOne(c0, calls[0], c1);
          TerminateTheOne(c1, calls[1], c2);
          if j.infraState {
            LaunchKeeps(j, calls, clouds, 2);
          }
        }
      } else if j.infraState && !(exist && LiveState(state)) {
        assert NoneLive(c1, j.terms.region);
        LaunchKeeps(j, calls, clouds, 1);
      } else if |calls| == 2 {
        assert Effect(c1, calls[1], clouds[2]);
        CallKeepsAtMostOne(c1, calls[1], clouds[2], j.terms.region);
      }
    }
  }

  lemma FoundIsTheOne(c: Cloud, call: Call, d: Cloud)
    requires call.GetInstance? && call.found.Some? && Effect(c, call, d)
    ensures NoneLive(d, call.region) || Live(d, call.region, call.found.value.1)
  {
  }

  /** No other change of infrastructure launches into the region. */
  lemma ChangeElsewhere(j: Job, calls: seq<Call>, region: string)
    requires ChangeInfraImpl(j, calls).Some? && region != j.terms.region
    ensures forall i :: 0 <= i < |calls| ==> calls[i].SpinUp? ==> calls[i].region != region
  {
    forall i | 0 <= i < |calls| && calls[i].SpinUp? ensures calls[i].region == j.terms.region {
      if |calls| >= 2 && calls[1].SpinDown? {
        assert i >= 2 ==> calls[i] == calls[2..][i - 2];
      } else {
        assert i >= 1 ==> calls[i] == calls[1..][i - 1];
      }
    }
  }

  lemma HeartbeatLaunchesNothing(j: Job, calls: seq<Call>, now: nat)
    requires HeartbeatCheck(j, calls, now).Some?
    ensures forall i :: 0 <= i < |calls| ==> !calls[i].SpinUp?
  {
  }

  lemma StepKeepsAtMostOne(env: Env, w: World, e: Event, w': World, region: string)
    requires Step(env, w, e, w') && AtMostOneLive(w.cloud, region)
    ensures AtMostOneLive(w'.cloud, region)
    ensures w'.exit == Some(0) && region == w.job.terms.region ==> NoneLive(w'.cloud, region)
  {
    DriftKeepsAtMostOne(w.cloud, e.clouds[0], region);
    match Fired(w, e).branch
    case OnInfra =>
      if region == w.job.terms.region {
        ChangeKeeps(w.job, e.calls, e.clouds);
      } else {
        ChangeElsewhere(w.job, e.calls, region);
        CallsKeep(e.calls, e.clouds, region, |e.calls|);
      }
    case OnHeartbeat =>
      HeartbeatLaunchesNothing(w.job, e.calls, e.end);
      CallsKeep(e.calls, e.clouds, region, |e.calls|);
    case OnLog =>
      assert w'.exit != Some(0);
    case OnInsolvency =>
  }

  /** Over every run with any number of restarts there is at most one live instance in each
      region; and a manager that returns 0 leaves none in the job's region. */
  lemma {:induction false} AtMostOneInstance(env: Env, ws: seq<World>, es: seq<Event>, n: nat, region: string)
    requires Run(env, ws, es) && n < |ws|
    requires AtMostOneLive(ws[0].cloud, region)
    ensures AtMostOneLive(ws[n].cloud, region)
    ensures n > 0 && ws[n].exit == Some(0) && ws[n - 1].job.terms.region == region ==> NoneLive(ws[n].cloud, region)
  {
    if n > 0 {
      AtMostOneInstance(env, ws, es, n - 1, region);
      var w, w' := ws[n - 1], ws[n];
      if Restart(w, w') {
        DriftKeepsAtMostOne(w.cloud, w'.cloud, region);
      } else {
        assert Step(env, w, es[n - 1], w');
        StepKeepsAtMostOne(env, w, es[n - 1], w', region);
      }
    }
  }

  /** A manager that gives up on a log makes no call on the way out, even when it has just
      scheduled the termination: what was live stays as it is. */
  lemma ErrorExitsLeaveTheCloud(env: Env, w: World, e: Event, w': World)
    requires Step(env, w, e, w') && w'.exit.Some? && w'.exit != Some(0)
    ensures e.calls == [] && w'.cloud == e.clouds[0] && Drifts(w.cloud, w'.cloud)
    ensures w'.exit == Some(-2) && e.log.Some? && e.log.value.MetadataUpdated? ==>
              w'.job.infraChangeScheduled && !w'.job.infraState
  {
  }

  // ---- solvency ----

  /** When the infrastructure branch fires in launch mode the job is solvent with five minutes
      to spare, by the code's own clock and by exact arithmetic. */
  lemma NeverLaunchesInsolvent(w: World, logAt: Option<nat>)
    requires Fire(w.job, w.now, logAt).branch == OnInfra && w.job.infraState
    ensures w.job.terms.rate > 0
    ensures
      var at := Fire(w.job, w.now, logAt).at.value;
      && at + 300 * SEC < w.job.terms.lastSettled + PaidSeconds(w.job.terms.balance, w.job.terms.rate) * SEC
      && 300 < PaidSeconds(w.job.terms.balance, w.job.terms.rate)
  {
  }

  /** The same for the heartbeat, up to the deadline itself: only a job that is to run has one, and
      then the insolvency timer is set. */
  lemma HeartbeatIsNotLate(w: World, logAt: Option<nat>)
    requires Intent(w) && w.exit.None? && Fire(w.job, w.now, logAt).branch == OnHeartbeat
    ensures w.job.infraState && w.job.terms.rate > 0
    ensures
      var at := Fire(w.job, w.now, logAt).at.value;
      && at + 300 * SEC <= w.job.terms.lastSettled + PaidSeconds(w.job.terms.balance, w.job.terms.rate) * SEC
      && 300 < PaidSeconds(w.job.terms.balance, w.job.terms.rate)
  {
  }

  /** By exact arithmetic, the balance pays at the job's rate for all the time from the last
      settlement to `at` and five minutes more. */
  predicate PaidFor(t: Terms, at: nat) {
    && t.rate > 0
    && (Quotient(SaturatingSub(at, t.lastSettled), SEC) + 300) * t.rate <= t.balance * RATE_SCALE
  }

  /** Nothing is launched, started or updated unless it is paid for, whatever wrapped or saturated
      in the code's own computation. */
  lemma StartsArePaidFor(env: Env, w: World, e: Event, w': World, k: nat)
    requires Step(env, w, e, w') && Intent(w) && k < |e.calls|
    ensures Starts(e.calls[k]) ==> w.job.infraState && PaidFor(w.job.terms, Fired(w, e).at.value)
  {
    StartingBranches(env, w, e, w', k);
    if Starts(e.calls[k]) {
      var t, at := w.job.terms, Fired(w, e).at.value;
      if Fired(w, e).branch == OnInfra {
        NeverLaunchesInsolvent(w, e.logAt);
      } else {
        HeartbeatIsNotLate(w, e.logAt);
      }
      hide Fire;
      hide Step;
      hide Intent;
      Solvency.QuotientSpec(SaturatingSub(at, t.lastSettled), SEC);
      Solvency.SolventMeansPaid(t, Quotient(SaturatingSub(at, t.lastSettled), SEC) + 300);
    }
  }

  /** Only the infrastructure branch in launch mode and the heartbeat start anything, and only the
      former launches. */
  lemma StartingBranches(env: Env, w: World, e: Event, w': World, k: nat)
    requires Step(env, w, e, w') && k < |e.calls|
    ensures Starts(e.calls[k]) && Fired(w, e).branch == OnInfra ==> w.job.infraState
    ensures Starts(e.calls[k]) ==>
              Fired(w, e).branch == OnInfra || (Fired(w, e).branch == OnHeartbeat && !e.calls[k].SpinUp?)
  {
    hide Fire;
    hide ProcessLog;
    if Fired(w, e).branch == OnHeartbeat {
      HeartbeatLaunchesNothing(w.job, e.calls, e.end);
    }
  }

  lemma {:induction false} RunKeepsIntent(env: Env, ws: seq<World>, es: seq<Event>, n: nat)
    requires Run(env, ws, es) && Intent(ws[0]) && n < |ws|
    ensures Intent(ws[n])
  {
    if n > 0 {
      RunKeepsIntent(env, ws, es, n - 1);
      if Step(env, ws[n - 1], es[n - 1], ws[n]) {
        StepKeepsIntent(env, ws[n - 1], es[n - 1], ws[n]);
      }
    }
  }

  /** So every start of every run is paid for, over any restarts. */
  lemma RunStartsArePaidFor(env: Env, ws: seq<World>, es: seq<Event>, i: nat, k: nat)
    requires Run(env, ws, es) && ws[0].job == NewJob(ws[0].now)
    requires i < |es| && Step(env, ws[i], es[i], ws[i + 1]) && k < |es[i].calls|
    ensures Starts(es[i].calls[k]) ==>
              ws[i].job.infraState && PaidFor(ws[i].job.terms, Fired(ws[i], es[i]).at.value)
  {
    RunKeepsIntent(env, ws, es, i);
    StartsArePaidFor(env, ws[i], es[i], ws[i + 1], k);
  }

  /** The insolvency branch fires no earlier than the deadline, and a job past its deadline is
      killed at once unless a log is waiting. */
  lemma KillsInsolventOnTime(w: World, logAt: Option<nat>)
    requires w.now >= w.job.terms.lastSettled
    ensures
      var t := Fire(w.job, w.now, logAt);
      t.branch == OnInsolvency && w.job.terms.rate > 0 ==>
        t.at.value + 300 * SEC >= w.job.terms.lastSettled + PaidSeconds(w.job.terms.balance, w.job.terms.rate) * SEC
    ensures
      (!w.job.infraChangeScheduled || w.job.infraState) && logAt != Some(w.now)
      && (w.job.terms.rate > 0 ==>
            w.now + 300 * SEC >= w.job.terms.lastSettled + PaidSeconds(w.job.terms.balance, w.job.terms.rate) * SEC)
      && (logAt.Some? ==> logAt.value >= w.now)
      ==> Fire(w.job, w.now, logAt) == Timer(OnInsolvency, Some(w.now))
  {
  }

  // ---- killing ----

  /** Termination is scheduled and due before any heartbeat of this iteration. */
  predicate Killed(j: Job, now: nat) {
    j.infraChangeScheduled && !j.infraState && j.infraChangeTime <= now + 2 * SEC
  }

  /** The log that `e` delivered, if the log branch took one. */
  function Received(w: World, e: Event): Option<Log> {
    if Fired(w, e).branch == OnLog then e.log else None
  }

  /** Only a reviving log turns the intent from termination to launch. */
  lemma RevivesExactly(j: Job, env: Env, now: nat, log: Log)
    requires !j.infraState
    ensures ProcessLog(j, env, now, Some(log)).0.infraState <==> Revives(j.terms, env, log)
  {
    hide Judge;
    JudgeExactly(j.terms, env, log);
  }

  /** The log that `e` delivers, if any, does not revive the job. */
  predicate RevivesNot(env: Env, w: World, e: Event) {
    Received(w, e).Some? ==> !Revives(w.job.terms, env, Received(w, e).value)
  }

  /** A killed job stays killed, or its manager ends, and nothing is started. */
  lemma KilledStep(env: Env, w: World, e: Event, w': World)
    requires Step(env, w, e, w') && Killed(w.job, w.now)
    requires RevivesNot(env, w, e)
    ensures w'.exit.Some? || Killed(w'.job, w'.now)
    ensures forall i :: 0 <= i < |e.calls| ==> !Starts(e.calls[i])
    ensures Fired(w, e).branch == OnLog || Fired(w, e).branch == OnInfra
  {
    var t := Fired(w, e);
    assert Judge(w.job.terms, env, None).code == -1;
    hide Judge;
    hide Revives;
    if t.branch == OnLog && e.log.Some? {
      RevivesExactly(w.job, env, t.at.value, e.log.value);
    }
  }

  lemma StepKeepsKilled(env: Env, w: World, e: Event, w': World)
    requires Step(env, w, e, w') && Intent(w) && !w.job.infraState && RevivesNot(env, w, e)
    ensures !w'.job.infraState
    ensures forall k :: 0 <= k < |e.calls| ==> !Starts(e.calls[k])
  {
    StepKeepsIntent(env, w, e, w');
    if Received(w, e).Some? {
      RevivesExactly(w.job, env, Fired(w, e).at.value, e.log.value);
    }
    if Fired(w, e).branch == OnInfra {
      ChangeInfraKeepsCore(w.job, e.calls, e.end);
    }
    forall k | 0 <= k < |e.calls| ensures !Starts(e.calls[k]) {
      StartingBranches(env, w, e, w', k);
    }
    assert Judge(w.job.terms, env, None).verdict == Keep;
    hide Judge;
    hide ChangeInfra;
    hide HeartbeatCheck;
    hide Revives;
    hide Fire;
  }

  /** Killing sticks: in every run, from where the job is not to run, nothing is started on the cloud
      until a log revives it, whatever times out or fails and however often the manager starts over. */
  lemma {:induction false} KillingSticks(env: Env, ws: seq<World>, es: seq<Event>, m: nat, n: nat)
    requires Run(env, ws, es) && Intent(ws[0]) && m <= n < |ws|
    requires !ws[m].job.infraState
    requires forall i :: m <= i < n && ws[i].exit.None? ==> RevivesNot(env, ws[i], es[i])
    ensures !ws[n].job.infraState
    ensures forall i, k :: m <= i < n && ws[i].exit.None? && 0 <= k < |es[i].calls| ==> !Starts(es[i].calls[k])
    ensures Killed(ws[m].job, ws[m].now) && (forall i :: m <= i < n ==> ws[i].exit.None?) ==>
              ws[n].exit.Some? || Killed(ws[n].job, ws[n].now)
  {
    hide Step;
    hide Intent;
    hide RevivesNot;
    hide Killed;
    if m < n {
      KillingSticks(env, ws, es, m, n - 1);
      RunKeepsIntent(env, ws, es, n - 1);
      var w, e, w' := ws[n - 1], es[n - 1], ws[n];
      if w.exit.None? {
        assert Step(env, w, e, w') by { OnlyEndedRestart(w, w'); }
        StepKeepsKilled(env, w, e, w');
        if Killed(w.job, w.now) {
          KilledStep(env, w, e, w');
        }
      } else {
        EndedTakesNoStep(env, w, e, w');
      }
    }
  }

  lemma OnlyEndedRestart(w: World, w': World)
    ensures Restart(w, w') ==> w.exit.Some?
  {
  }

  lemma EndedTakesNoStep(env: Env, w: World, e: Event, w': World)
    requires w.exit.Some? && (Step(env, w, e, w') || Restart(w, w'))
    ensures Restart(w, w') && w'.job == NewJob(w'.now) && w'.exit.None?
  {
  }

  // ---- a run and a replay of its logs ----

  /** The part of the state that logs decide, without timers and what the cloud answered. */
  function Core(j: Job): (Terms, bool) { (j.terms, j.infraState) }

  /** What a log does to the core depends neither on the timers nor on the time. */
  lemma ProcessLogCore(j: Job, k: Job, env: Env, t: nat, u: nat, log: Option<Log>)
    requires Core(j) == Core(k)
    ensures Core(ProcessLog(j, env, t, log).0) == Core(ProcessLog(k, env, u, log).0)
    ensures ProcessLog(j, env, t, log).1 == ProcessLog(k, env, u, log).1
  {
    hide Judge;
  }

  lemma {:induction false} ReplayIgnoresTime(j: Job, k: Job, env: Env, t: nat, u: nat, logs: seq<Log>)
    requires Core(j) == Core(k)
    ensures Core(Replay(j, env, t, logs).0) == Core(Replay(k, env, u, logs).0)
    ensures Replay(j, env, t, logs).1 == Replay(k, env, u, logs).1
    decreases |logs|
  {
    if logs != [] {
      var n := |logs| - 1;
      ReplayIgnoresTime(j, k, env, t, u, logs[..n]);
      ProcessLogCore(Replay(j, env, t, logs[..n]).0, Replay(k, env, u, logs[..n]).0, env, t, u, Some(logs[n]));
    }
  }

  /** The logs that the manager at `n` has taken since it started. */
  function LogsTaken(ws: seq<World>, es: seq<Event>, n: nat): seq<Log>
    requires n <= |es| && |ws| == |es| + 1
  {
    if n == 0 || ws[n - 1].exit.Some? then []
    else
      var r := Received(ws[n - 1], es[n - 1]);
      LogsTaken(ws, es, n - 1) + (if r.Some? then [r.value] else [])
  }

  /** When that manager started. */
  function StartedAt(ws: seq<World>, n: nat): nat
    requires n < |ws|
  {
    if n == 0 || ws[n - 1].exit.Some? then ws[n].now else StartedAt(ws, n - 1)
  }

  /** Insolvency has not fired since. */
  predicate SolventSince(ws: seq<World>, es: seq<Event>, n: nat)
    requires n <= |es| && |ws| == |es| + 1
  {
    n == 0 || ws[n - 1].exit.Some?
    || (SolventSince(ws, es, n - 1) && Fired(ws[n - 1], es[n - 1]).branch != OnInsolvency)
  }

  /** While launching is not intended, the job is killed or nothing has happened yet. */
  predicate Intent(w: World) {
    w.exit.None? && !w.job.infraState ==>
      Killed(w.job, w.now) || (!w.job.infraChangeScheduled && w.job.instanceId == "")
  }

  lemma StepKeepsIntent(env: Env, w: World, e: Event, w': World)
    requires Step(env, w, e, w') && Intent(w)
    ensures Intent(w')
    ensures Fired(w, e).branch == OnHeartbeat ==> w.job.infraState
  {
    hide Judge;
  }

  /** In every run, with any number of restarts, a manager's terms are those of replaying, in one go
      and at any time, the logs it has taken, whatever timed out and whatever the cloud answered; it
      launches only what the replay would, and exactly that while insolvency has not fired. */
  lemma {:induction false} RunIsReplay(env: Env, ws: seq<World>, es: seq<Event>, n: nat, t: nat)
    requires Run(env, ws, es) && n <= |es|
    requires ws[0].job == NewJob(ws[0].now) && ws[0].exit.None?
    ensures
      var r := Replay(NewJob(StartedAt(ws, n)), env, t, LogsTaken(ws, es, n));
      && ws[n].job.terms == r.0.terms && (r.1 == -2 <==> ws[n].exit == Some(-2))
      && (ws[n].job.infraState ==> r.0.infraState)
      && (SolventSince(ws, es, n) ==> ws[n].job.infraState == r.0.infraState)
  {
    hide Step;
    hide Fired;
    hide Received;
    hide ProcessLog;
    if n > 0 {
      RunIsReplay(env, ws, es, n - 1, t);
      RunKeepsIntent(env, ws, es, n - 1);
      hide Intent;
      var w, e, w' := ws[n - 1], es[n - 1], ws[n];
      if w.exit.Some? {
        EndedTakesNoStep(env, w, e, w');
      } else {
        assert Step(env, w, e, w') by { OnlyEndedRestart(w, w'); }
        StepsLikeReplay(env, w, e, w', LogsTaken(ws, es, n - 1), StartedAt(ws, n - 1), t);
      }
    }
  }

  /** One iteration against one more log of the replay, if it took one. */
  lemma StepsLikeReplay(env: Env, w: World, e: Event, w': World, before: seq<Log>, start: nat, t: nat)
    requires Step(env, w, e, w') && Intent(w)
    requires var r := Replay(NewJob(start), env, t, before);
      w.job.terms == r.0.terms && r.1 != -2 && (w.job.infraState ==> r.0.infraState)
    ensures
      var r := Replay(NewJob(start), env, t, before);
      var s := Replay(NewJob(start), env, t, before + if Received(w, e).Some? then [Received(w, e).value] else []);
      && w'.job.terms == s.0.terms && (s.1 == -2 <==> w'.exit == Some(-2))
      && (w'.job.infraState ==> s.0.infraState)
      && (w.job.infraState == r.0.infraState && Fired(w, e).branch != OnInsolvency ==>
            w'.job.infraState == s.0.infraState)
  {
    StepKeepsIntent(env, w, e, w');
    hide Intent;
    if Received(w, e).Some? {
      var k, log := Replay(NewJob(start), env, t, before).0, e.log.value;
      assert (before + [log])[..|before|] == before;
      hide Replay;
      ProcessLogIs(k, env, t, log);
      ProcessLogIs(w.job, env, Fired(w, e).at.value, log);
      hide Judge;
      hide ProcessLog;
    } else {
      assert before + [] == before;
      hide Replay;
      if Fired(w, e).branch == OnInsolvency {
        hide ProcessLog;
      } else {
        QuietStepKeepsCore(env, w, e, w');
        hide Step;
      }
    }
  }

  lemma QuietStepKeepsCore(env: Env, w: World, e: Event, w': World)
    requires Step(env, w, e, w') && Received(w, e).None? && Fired(w, e).branch != OnInsolvency
    requires Fired(w, e).branch == OnHeartbeat ==> w.job.infraState
    ensures Core(w'.job) == Core(w.job) && w'.exit != Some(-2)
  {
    hide ChangeInfra;
    hide Fire;
    hide Traced;
    if Fired(w, e).branch.OnInfra? {
      ChangeInfraKeepsCore(w.job, e.calls, e.end);
    }
  }

  lemma ChangeInfraKeepsCore(j: Job, calls: seq<Call>, now: nat)
    requires ChangeInfra(j, calls, now).Some?
    ensures Core(ChangeInfra(j, calls, now).value.0) == Core(j)
  {
  }

  /** The comment above `process_log` promises that a job is killed fully if any event would
      kill it, whatever follows, also when events are processed all at once. That fails for an
      accepted JobMetadataUpdated: this job is opened below its minimum rate, so a manager that
      is connected ends it, but one that replays both logs launches it. By
      `Verdicts.KilledForGoodUnlessRevived` this and an accepted JobOpened are the only ways. */
  lemma MetadataRevivesKilledJob(now: nat)
    ensures
      var env := Env(3, ["r"], [RegionalRates("r", [RateCard("i", 2)])], [], [], []);
      var v := Metadata(Some("i"), Some("r"), Some(1), Some(1), Some("old"), None, None);
      var openLog := Opened("o", Some(v), 1, 1000, 0);
      var updated := MetadataUpdated(Some(v.(url := Some("new"))));
      var first := Replay(NewJob(now), env, now, [openLog]).0;
      var both := Replay(NewJob(now), env, now, [openLog, updated]);
      && Killed(first, now)
      && Kills(NewJob(now).terms, env, openLog) && Revives(first.terms, env, updated)
      && both.1 == 0 && both.0.infraState && both.0.infraChangeScheduled && both.0.terms.rate < both.0.terms.minRate
  {
    var env := Env(3, ["r"], [RegionalRates("r", [RateCard("i", 2)])], [], [], []);
    var v := Metadata(Some("i"), Some("r"), Some(1), Some(1), Some("old"), None, None);
    var openLog := Opened("o", Some(v), 1, 1000, 0);
    var updated := MetadataUpdated(Some(v.(url := Some("new"))));
    assert FindMinRate(env.rates, "r", "i") == Some(2);
    var j := NewJob(now);
    assert [openLog, updated][..1] == [openLog];
    assert Replay(j, env, now, [openLog][..0]) == (j, 0);
    assert Replay(j, env, now, [openLog]) == ProcessLog(j, env, now, Some(openLog));
  }
}
