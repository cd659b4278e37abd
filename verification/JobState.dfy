/** The job manager as it runs: a state updated in place by logs, timers and cloud replies, and
    the loop around it. Each method is tied to the functions and the step relation that the
    whole-run theorems are about. */
module JobState {
  import opened Bytes
  import opened Market
  import opened Infra
  import JobManager
  import ManagerExits
  import OneInstance

  /** The cloud behind an `InfraProvider`, with the clock. Any call may fail and takes any time;
      `calls` and `clouds` record what happened since `Begin`, `made` all calls ever. */
  class Provider {
    var cloud: Cloud
    var now: nat
    ghost var calls: seq<Call>
    ghost var made: seq<Call>
    ghost var earlier: seq<Call>
    ghost var clouds: seq<Cloud>
    ghost var first: Cloud

    ghost predicate Valid() reads this {
      && Traced(calls, clouds) && clouds[|calls|] == cloud && clouds[0] == first
      && made == earlier + calls
    }

    constructor (now: nat)
      ensures Valid() && cloud == map[] && this.now == now
    {
      this.now := now;
      cloud, calls, made, earlier, clouds, first := map[], [], [], [], [map[]], map[];
    }

    /** Sleep until `at`; meanwhile instances may stop on their own. */
    method Begin(at: nat)
      requires now <= at
      modifies this`cloud, this`now, this`calls, this`earlier, this`clouds, this`first
      ensures Valid() && calls == [] && now == at && Drifts(old(cloud), first)
      ensures earlier == old(made)
    {
      now := at;
      if * {
        cloud := map i | i in cloud :: cloud[i].(state := "terminated");
      }
      calls, earlier, clouds, first := [], made, [cloud], cloud;
    }

    method Wait()
      modifies this`now
      ensures now >= old(now)
    {
      var d: nat :| d >= 0;
      now := now + d;
    }

    ghost method Record(call: Call)
      requires Traced(calls, clouds) && clouds[0] == first && made == earlier + calls
      requires Effect(clouds[|calls|], call, cloud)
      modifies this`calls, this`made, this`clouds
      ensures Valid() && calls == old(calls) + [call] && clouds == old(clouds) + [cloud]
    {
      calls, made, clouds := calls + [call], made + [call], clouds + [cloud];
    }

    method GetJobInstance(region: string) returns (r: Option<(bool, Id, string)>)
      requires Valid()
      modifies this`cloud, this`now, this`calls, this`made, this`clouds
      ensures Valid() && calls == old(calls) + [GetInstance(region, r)] && now >= old(now)
    {
      Wait();
      if * {
        r := None;
      } else if exists i :: i in cloud && Live(cloud, region, i) {
        var i :| i in cloud && Live(cloud, region, i);
        r := Some((true, i, cloud[i].state));
      } else {
        r := Some((false, "", ""));
      }
      Record(GetInstance(region, r));
    }

    method SpinUp(t: Terms) returns (r: Option<Id>)
      requires Valid()
      modifies this`cloud, this`now, this`calls, this`made, this`clouds
      ensures Valid() && now >= old(now)
      ensures calls == old(calls)
                       + [Call.SpinUp(t.instanceType, t.family, t.region, t.reqMem, t.reqVcpus, t.bandwidth, r)]
    {
      Wait();
      r := None;
      var id: Id := *;
      if id !in cloud {
        ghost var before := cloud;
        cloud := cloud[id := Instance(t.region, "pending")];
        assert cloud - {id} == before;
        // the launch may be reported as failed all the same
        if * {
          r := Some(id);
        }
      }
      Record(Call.SpinUp(t.instanceType, t.family, t.region, t.reqMem, t.reqVcpus, t.bandwidth, r));
    }

    method SpinDown(id: Id, region: string) returns (ok: bool)
      requires Valid()
      modifies this`cloud, this`now, this`calls, this`made, this`clouds
      ensures Valid() && calls == old(calls) + [Call.SpinDown(id, region, ok)] && now >= old(now)
    {
      Wait();
      ok := *;
      if ok && id in cloud {
        cloud := cloud[id := cloud[id].(state := "terminated")];
      }
      Record(Call.SpinDown(id, region, ok));
    }

    method RunEnclave(id: Id, t: Terms) returns (ok: bool)
      requires Valid()
      modifies this`cloud, this`now, this`calls, this`made, this`clouds
      ensures Valid() && now >= old(now)
      ensures calls == old(calls) + [Call.RunEnclave(id, t.family, t.region, t.eifUrl, t.reqVcpus, t.reqMem,
                                                     t.bandwidth, t.debug, ok)]
    {
      Wait();
      ok := *;
      Record(Call.RunEnclave(id, t.family, t.region, t.eifUrl, t.reqVcpus, t.reqMem, t.bandwidth, t.debug, ok));
    }

    method UpdateEnclaveImage(id: Id, t: Terms) returns (ok: bool)
      requires Valid()
      modifies this`cloud, this`now, this`calls, this`made, this`clouds
      ensures Valid() && now >= old(now)
      ensures calls == old(calls) + [UpdateImage(id, t.region, t.eifUrl, t.reqVcpus, t.reqMem, ok)]
    {
      Wait();
      ok := *;
      Record(UpdateImage(id, t.region, t.eifUrl, t.reqVcpus, t.reqMem, ok));
    }

    method CheckInstanceRunning(id: Id, region: string) returns (r: Option<bool>)
      requires Valid()
      modifies this`cloud, this`now, this`calls, this`made, this`clouds
      ensures Valid() && calls == old(calls) + [CheckInstance(id, region, r)] && now >= old(now)
    {
      Wait();
      var running: bool := *;
      r := if running then Some(true) else if id in cloud then Some(false) else None;
      Record(CheckInstance(id, region, r));
    }

    method CheckEnclaveRunning(id: Id, region: string) returns (r: Option<bool>)
      requires Valid()
      modifies this`cloud, this`now, this`calls, this`made, this`clouds
      ensures Valid() && calls == old(calls) + [CheckEnclave(id, region, r)] && now >= old(now)
    {
      Wait();
      var running: bool := *;
      r := if running then Some(true) else if id in cloud then Some(false) else None;
      Record(CheckEnclave(id, region, r));
    }
  }

  /** The stream of the job's logs: what it has offered, and when. */
  class Logs {
    ghost var offered: seq<Offer>

    constructor ()
      ensures offered == []
    {
      offered := [];
    }

    /** When the next log is ready, if it comes at all, and what it is. */
    method Next(now: nat) returns (at: Option<nat>, log: Option<Log>)
      modifies this
      ensures at.Some? ==> at.value >= now
      ensures offered == old(offered) + [Offer(at, log)]
    {
      var d: nat :| d >= 0;
      log := *;
      if * {
        at := Some(now + d);
      } else {
        at := None;
      }
      offered := offered + [Offer(at, log)];
    }
  }

  datatype Offer = Offer(at: Option<nat>, log: Option<Log>)

  class JobState {
    const env: Env
    var terms: Terms
    var instanceId: string
    // the intent: run or stop
    var infraState: bool
    // when the intent is next acted on
    var infraChangeTime: nat
    // and whether it is at all
    var infraChangeScheduled: bool
    // a running instance only needs the new image
    var eifUpdate: bool

    function View(): Job reads this {
      Job(terms, instanceId, infraState, infraChangeTime, infraChangeScheduled, eifUpdate)
    }

    constructor (env: Env, now: nat)
      ensures View() == NewJob(now) && this.env == env
    {
      this.env := env;
      terms := Terms(360, now, 1, 1, "salmon", MOD256 - 1, 0, "", "c6a.xlarge", "ap-south-1", 2, 4096, false);
      instanceId, infraState, infraChangeTime, infraChangeScheduled, eifUpdate := "", false, now, false, false;
    }

    method ScheduleLaunch(now: nat, delay: nat)
      modifies this`infraChangeScheduled, this`infraChangeTime, this`infraState
      ensures View() == Market.ScheduleLaunch(old(View()), now, delay)
    {
      infraChangeScheduled := true;
      infraChangeTime := now + delay * SEC;
      infraState := true;
    }

    method ScheduleTermination(now: nat)
      modifies this`infraChangeScheduled, this`infraChangeTime, this`infraState
      ensures View() == Market.ScheduleTermination(old(View()), now)
    {
      infraChangeScheduled := true;
      infraChangeTime := now;
      infraState := false;
    }

    method HeartbeatCheck(infra: Provider)
      requires infra.Valid() && infra.calls == []
      modifies this, infra`cloud, infra`now, infra`calls, infra`made, infra`clouds
      ensures infra.Valid() && infra.now >= old(infra.now)
      ensures JobManager.HeartbeatCheck(old(View()), infra.calls, infra.now) == Some(View())
    {
      hide Traced;
      var isRunning := infra.CheckInstanceRunning(instanceId, terms.region);
      match isRunning {
        case None =>
        case Some(true) =>
          var enclave := infra.CheckEnclaveRunning(instanceId, terms.region);
          if enclave == Some(false) {
            var _ := infra.RunEnclave(instanceId, terms);
          }
        case Some(false) =>
          if terms.rate >= terms.minRate {
            ScheduleLaunch(infra.now, 0);
          }
      }
    }

    method ChangeInfra(infra: Provider) returns (ok: bool)
      requires infra.Valid() && infra.calls == []
      modifies this, infra`cloud, infra`now, infra`calls, infra`made, infra`clouds
      ensures infra.Valid() && infra.now >= old(infra.now)
      ensures JobManager.ChangeInfra(old(View()), infra.calls, infra.now) == Some((View(), ok))
    {
      ok := ChangeInfraImpl(infra);
      if ok {
        infraChangeScheduled := false;
      } else {
        infraChangeTime := infra.now + 2 * SEC;
      }
    }

    method ChangeInfraImpl(infra: Provider) returns (ok: bool)
      requires infra.Valid() && infra.calls == []
      modifies this`instanceId, this`eifUpdate, infra`cloud, infra`now, infra`calls, infra`made, infra`clouds
      ensures infra.Valid() && infra.now >= old(infra.now)
      ensures JobManager.ChangeInfraImpl(old(View()), infra.calls) == Some((View(), ok))
    {
      hide Traced;
      var res := infra.GetJobInstance(terms.region);
      if res.None? {
        return false;
      }
      var (exist, instance, state) := res.value;

      if infraState {
        if exist {
          if state == "pending" || state == "running" {
            instanceId := instance;
            if eifUpdate {
              ok := infra.UpdateEnclaveImage(instanceId, terms);
              if !ok {
                return false;
              }
              eifUpdate := false;
            }
            return true;
          }
          if state == "stopping" || state == "stopped" {
            // the region must be empty before the launch below
            ok := infra.SpinDown(instance, terms.region);
            if !ok {
              return false;
            }
          }
        }
        // here the region is known to have no live instance
        ok := LaunchNew(infra);
      } else {
        if !exist || state == "shutting-down" || state == "terminated" {
          return true;
        }
        ok := infra.SpinDown(instance, terms.region);
      }
    }

    /** Launch a new instance and try to run the enclave, ignoring errors of the latter. */
    method LaunchNew(infra: Provider) returns (ok: bool)
      requires infra.Valid()
      modifies this`instanceId, infra`cloud, infra`now, infra`calls, infra`made, infra`clouds
      ensures infra.Valid() && infra.now >= old(infra.now)
      ensures |old(infra.calls)| <= |infra.calls| && infra.calls[..|old(infra.calls)|] == old(infra.calls)
      ensures JobManager.Launch(old(View()), infra.calls[|old(infra.calls)|..]) == Some((View(), ok))
    {
      hide Traced;
      ghost var before := infra.calls;
      var launched := infra.SpinUp(terms);
      if launched.None? {
        assert infra.calls[|before|..] == [infra.calls[|before|]];
        return false;
      }
      instanceId := launched.value;
      var _ := infra.RunEnclave(instanceId, terms);
      assert infra.calls[|before|..] == [infra.calls[|before|], infra.calls[|before| + 1]];
      ok := true;
    }

    /** The minimum rate of the job's machine in its region, looked up by two nested loops. */
    method LookUpMinRate() returns (r: Option<U256>)
      ensures r == FindMinRate(env.rates, terms.region, terms.instanceType)
    {
      for i := 0 to |env.rates|
        invariant FindMinRate(env.rates, terms.region, terms.instanceType)
               == FindMinRate(env.rates[i..], terms.region, terms.instanceType)
      {
        var entry := env.rates[i];
        assert env.rates[i..][0] == entry && env.rates[i..][1..] == env.rates[i + 1..];
        if entry.region == terms.region {
          var cards := entry.rateCards;
          for k := 0 to |cards|
            invariant CardRate(cards, terms.instanceType) == CardRate(cards[k..], terms.instanceType)
          {
            assert cards[k..][0] == cards[k] && cards[k..][1..] == cards[k + 1..];
            if cards[k].instance == terms.instanceType {
              return Some(cards[k].minRate);
            }
          }
          return None;
        }
      }
      r := None;
    }

    method SetBandwidth()
      requires terms.rate >= terms.minRate
      modifies this`terms
      ensures terms == old(terms).(bandwidth := Bandwidth(old(terms), env.gbRates))
    {
      for i := 0 to |env.gbRates|
        invariant terms == old(terms)
        invariant FindGBRate(env.gbRates, terms.region) == FindGBRate(env.gbRates[i..], terms.region)
      {
        var card := env.gbRates[i];
        assert env.gbRates[i..][0] == card && env.gbRates[i..][1..] == env.gbRates[i + 1..];
        if card.regionCode == terms.region {
          var paid := Min((terms.rate - terms.minRate) * 0x80_0000, MOD256 - 1);
          terms := terms.(bandwidth := Min(Quotient(paid, card.rate), U64_MAX));
          return;
        }
      }
    }

    method ProcessOpened(log: Log, now: nat) returns (res: int)
      requires log.Opened?
      modifies this
      ensures (View(), res) == Market.ProcessLog(old(View()), env, now, Some(log))
    {
      hide Bandwidth;
      hide FindMinRate;
      // these stay even if the rest is refused
      terms := terms.(balance := log.balance, rate := log.rate, originalRate := log.rate,
                      lastSettled := Seconds(log.timestamp));
      if log.metadata.None? {
        return -2;
      }
      var (parsed, ok) := OpenMetadata(terms, env, log.metadata.value);
      terms := parsed;
      if !ok {
        return -2;
      }
      if !OwnerAllowed(log.owner, env.whitelist, env.blacklist) {
        ScheduleTermination(now);
        return -3;
      }
      var minRate := LookUpMinRate();
      if minRate.None? {
        return -2;
      }
      terms := terms.(minRate := minRate.value);
      if terms.rate >= terms.minRate {
        SetBandwidth();
        ScheduleLaunch(now, env.launchDelay);
      } else {
        ScheduleTermination(now);
      }
      res := 0;
    }

    method ProcessLog(log: Option<Log>, now: nat) returns (res: int)
      modifies this
      ensures (View(), res) == Market.ProcessLog(old(View()), env, now, log)
    {
      hide JudgeOpened;
      hide UpdateAllowed;
      if log.None? {
        return -1;
      }
      match log.value {
        case Opened(_, _, _, _, _) =>
          res := ProcessOpened(log.value, now);
          return;
        case Settled(amount, timestamp) =>
          terms := terms.(balance := WrapSub(terms.balance, amount));
          terms := terms.(lastSettled := Seconds(timestamp));
        case Closed =>
          ScheduleTermination(now);
        case Deposited(amount) =>
          terms := terms.(balance := WrapAdd(terms.balance, amount));
        case Withdrew(amount) =>
          terms := terms.(balance := WrapSub(terms.balance, amount));
        case ReviseInitiated(rate) =>
          terms := terms.(originalRate := terms.rate);
          terms := terms.(rate := rate);
          if terms.rate < terms.minRate {
            ScheduleTermination(now);
          }
        case ReviseCancelled =>
          terms := terms.(rate := terms.originalRate);
        case ReviseFinalized(rate) =>
          if terms.rate != rate {
            return -2;
          }
          terms := terms.(originalRate := rate);
        case MetadataUpdated(metadata) =>
          if metadata.None? || !UpdateAllowed(terms, metadata.value) {
            ScheduleTermination(now);
            return -2;
          }
          assert metadata.value.url.Some? by { UpdateNamesUrl(terms, metadata.value); }
          terms := terms.(eifUrl := metadata.value.url.value);
          eifUpdate := true;
          ScheduleLaunch(now, env.launchDelay);
        case _ =>
          return -2;
      }
      res := 0;
    }

    lemma UpdateNamesUrl(t: Terms, v: Metadata)
      requires UpdateAllowed(t, v)
      ensures v.url.Some?
    {
    }
  }

  /** `job_manager_once`, for any number of iterations: what it did is a run of the step relation
      from a fresh job, ending with the result it returns, or still going. */
  method JobManagerOnce(env: Env, infra: Provider, logs: Logs, iterations: nat)
      returns (res: Option<int>, ghost ws: seq<JobManager.World>, ghost es: seq<JobManager.Event>)
    requires infra.Valid()
    modifies infra, logs
    ensures infra.Valid()
    ensures Recorded(old(infra.made), infra.made, old(logs.offered), logs.offered, es)
    ensures |ws| == |es| + 1 && Steps(env, ws, es)
    ensures ws[0] == JobManager.World(NewJob(old(infra.now)), old(infra.cloud), old(infra.now), None)
    ensures ws[|es|].exit == res && ws[|es|].cloud == infra.cloud && ws[|es|].now == infra.now
    ensures res.None? ==> |es| == iterations
  {
    hide JobManager.Step;
    hide Recorded;
    NothingRecorded(infra.made, logs.offered);
    var state := new JobState(env, infra.now);
    res := None;
    es := [];
    ws := [JobManager.World(state.View(), infra.cloud, infra.now, None)];
    var i := 0;
    while i < iterations && res.None?
      invariant infra.Valid() && state.env == env
      invariant i == |es| <= iterations && |ws| == |es| + 1
      invariant ws[0] == JobManager.World(NewJob(old(infra.now)), old(infra.cloud), old(infra.now), None)
      invariant ws[|es|] == JobManager.World(state.View(), infra.cloud, infra.now, res)
      invariant forall k :: 0 <= k < |es| ==> JobManager.Step(env, ws[k], es[k], ws[k + 1])
      invariant Recorded(old(infra.made), infra.made, old(logs.offered), logs.offered, es)
      decreases iterations - i
    {
      ghost var e, made, offered := *, infra.made, logs.offered;
      res, e := Iterate(state, infra, logs);
      RecordedMore(old(infra.made), made, old(logs.offered), offered, es, e);
      ghost var w := JobManager.World(state.View(), infra.cloud, infra.now, res);
      ws, es := ws + [w], es + [e];
      i := i + 1;
    }
  }

  /** What the stream offered, and the calls made, in these iterations. */
  ghost function Offers(es: seq<JobManager.Event>): seq<Offer> {
    if es == [] then []
    else Offers(es[..|es| - 1]) + [Offer(es[|es| - 1].logAt, es[|es| - 1].log)]
  }

  ghost function CallsOf(es: seq<JobManager.Event>): seq<Call> {
    if es == [] then [] else CallsOf(es[..|es| - 1]) + es[|es| - 1].calls
  }

  /** The stream has offered and the provider has done what the iterations took and called. */
  ghost predicate Recorded(made0: seq<Call>, made: seq<Call>, offered0: seq<Offer>, offered: seq<Offer>,
                           es: seq<JobManager.Event>) {
    made == made0 + CallsOf(es) && offered == offered0 + Offers(es)
  }

  lemma NothingRecorded(made: seq<Call>, offered: seq<Offer>)
    ensures Recorded(made, made, offered, offered, [])
  {
  }

  lemma RecordedMore(made0: seq<Call>, made: seq<Call>, offered0: seq<Offer>, offered: seq<Offer>,
                     es: seq<JobManager.Event>, e: JobManager.Event)
    requires Recorded(made0, made, offered0, offered, es)
    ensures Recorded(made0, made + e.calls, offered0, offered + [Offer(e.logAt, e.log)], es + [e])
  {
    OneEventMore(es, e);
  }

  lemma OneEventMore(es: seq<JobManager.Event>, e: JobManager.Event)
    ensures Offers(es + [e]) == Offers(es) + [Offer(e.logAt, e.log)]
    ensures CallsOf(es + [e]) == CallsOf(es) + e.calls
  {
    assert (es + [e])[..|es|] == es;
  }

  lemma {:induction false} CallsOfBoth(es: seq<JobManager.Event>, more: seq<JobManager.Event>)
    ensures CallsOf(es + more) == CallsOf(es) + CallsOf(more)
    decreases |more|
  {
    if more == [] {
      assert es + more == es;
    } else {
      var n := |more| - 1;
      assert (es + more)[..|es| + n] == es + more[..n];
      CallsOfBoth(es, more[..n]);
    }
  }

  lemma {:induction false} OffersCount(es: seq<JobManager.Event>)
    ensures |Offers(es)| == |es|
    decreases |es|
  {
    if es != [] {
      OffersCount(es[..|es| - 1]);
    }
  }

  /** One pass of the event loop: one look at the stream of logs, and the calls of one branch. */
  method Iterate(state: JobState, infra: Provider, logs: Logs) returns (res: Option<int>, ghost e: JobManager.Event)
    requires infra.Valid()
    modifies state, infra, logs
    ensures infra.Valid()
    ensures logs.offered == old(logs.offered) + [Offer(e.logAt, e.log)] && infra.made == old(infra.made) + e.calls
    ensures JobManager.Step(state.env,
                            old(JobManager.World(state.View(), infra.cloud, infra.now, None)), e,
                            JobManager.World(state.View(), infra.cloud, infra.now, res))
  {
    hide Traced;
    hide Drifts;
    hide Market.ProcessLog;
    hide JobManager.Fire;
    var logAt, log := logs.Next(infra.now);
    var t := JobManager.Fire(state.View(), infra.now, logAt);
    FireIsSome(state.View(), infra.now, logAt);
    infra.Begin(t.at.value);
    res := None;
    match t.branch {
      case OnLog =>
        var r := state.ProcessLog(log, infra.now);
        if r == -2 || r == -1 {
          res := Some(r);
        }
      case OnHeartbeat =>
        state.HeartbeatCheck(infra);
      case OnInsolvency =>
        state.ScheduleTermination(infra.now);
      case OnInfra =>
        var ok := state.ChangeInfra(infra);
        if ok && !state.infraState {
          res := Some(0);
        }
    }
    e := JobManager.Event(logAt, log, infra.calls, infra.clouds, infra.now);
  }

  lemma FireIsSome(j: Job, now: nat, logAt: Option<nat>)
    requires logAt.Some? ==> logAt.value >= now
    ensures JobManager.Fire(j, now, logAt).at.Some? && JobManager.Fire(j, now, logAt).at.value >= now
  {
  }

  /** `job_manager`: start over with fresh state whenever the stream of logs ends, until the job is
      done or hopeless. It is a run of the step relation with restarts, so that if the logs that revive
      the job are of one region the cloud never has more than one live instance of it, whatever failed
      on the way, and none once it is done there. */
  method JobManagerLoop(env: Env, infra: Provider, logs: Logs, connections: nat, iterations: nat)
    returns (res: Option<int>, ghost ws: seq<JobManager.World>, ghost es: seq<JobManager.Event>)
    requires infra.Valid()
    modifies infra, logs
    ensures Counted(old(infra.made), infra.made, |old(logs.offered)|, |logs.offered|, ws, es)
    ensures JobManager.Run(env, ws, es)
    ensures ws[0] == JobManager.World(NewJob(old(infra.now)), old(infra.cloud), old(infra.now), None)
    ensures ws[|es|].exit == res && ws[|es|].cloud == infra.cloud
    ensures res.Some? ==> res.value in {0, -1, -2}
    ensures Managers(ws) <= connections + 1
    ensures res == Some(-1) ==> Managers(ws) == connections + 1
    ensures res.None? ==> StillGoing(ws, iterations)
    ensures forall r: string :: AtMostOneLive(old(infra.cloud), r) ==> AtMostOneLive(infra.cloud, r)
    ensures forall home: string ::
              OneInstance.RevivedIn(home, env, ws, es) && OneInstance.OnlyIn(old(infra.cloud), home) ==>
              && OneInstance.OnlyIn(infra.cloud, home) && OneInstance.AtMostOne(infra.cloud)
              && (res == Some(0) && |es| > 0 && ws[|es| - 1].job.terms.region == home ==>
                    OneInstance.NothingLive(infra.cloud))
  {
    hide AtMostOneLive;
    res, ws, es := JobManagerOnce(env, infra, logs, iterations);
    OneManager(env, ws, es, iterations);
    CountedFirst(old(infra.made), infra.made, old(logs.offered), logs.offered, ws, es);
    assert JobManager.Run(env, ws, es);
    hide JobManager.Run;
    hide Steps;
    hide Counted;
    hide Recorded;
    hide Managers;
    hide StillGoing;
    for i := 0 to connections
      invariant infra.Valid() && JobManager.Run(env, ws, es) && |ws| == |es| + 1
      invariant ws[0] == JobManager.World(NewJob(old(infra.now)), old(infra.cloud), old(infra.now), None)
      invariant ws[|es|].exit == res && ws[|es|].cloud == infra.cloud && ws[|es|].now == infra.now
      invariant Managers(ws) == i + 1
      invariant Counted(old(infra.made), infra.made, |old(logs.offered)|, |logs.offered|, ws, es)
      invariant res.None? ==> StillGoing(ws, iterations)
    {
      if res != Some(-1) {
        break;
      }
      ghost var ws', es', made, offered := *, *, infra.made, logs.offered;
      res, ws', es' := JobManagerOnce(env, infra, logs, iterations);
      Restarts(env, ws, es, ws', es');
      OneManager(env, ws', es', iterations);
      MoreManagers(ws, ws');
      CountedMore(old(infra.made), made, infra.made, |old(logs.offered)|, offered, logs.offered, ws, es, ws', es');
      if res.None? {
        GoesOnAfter(ws, ws', iterations);
      }
      ws, es := ws + ws', es + [Idle()] + es';
    }
    hide JobManager.Step;
    hide Infra.NoneLive;
    hide OneInstance.OnlyIn;
    hide OneInstance.AtMostOne;
    hide OneInstance.NothingLive;
    hide OneInstance.RevivedIn;
    WholeCloud(env, ws, es);
  }

  lemma WholeCloud(env: Env, ws: seq<JobManager.World>, es: seq<JobManager.Event>)
    requires JobManager.Run(env, ws, es) && ws[0].exit.None? && ws[0].job == NewJob(ws[0].now)
    ensures ws[|es|].exit.Some? ==> ws[|es|].exit.value in {0, -1, -2}
    ensures forall r: string :: AtMostOneLive(ws[0].cloud, r) ==> AtMostOneLive(ws[|es|].cloud, r)
    ensures forall home: string ::
              OneInstance.RevivedIn(home, env, ws, es) && OneInstance.OnlyIn(ws[0].cloud, home) ==>
              && OneInstance.OnlyIn(ws[|es|].cloud, home) && OneInstance.AtMostOne(ws[|es|].cloud)
              && (ws[|es|].exit == Some(0) && |es| > 0 && ws[|es| - 1].job.terms.region == home ==>
                    OneInstance.NothingLive(ws[|es|].cloud))
  {
    hide AtMostOneLive;
    hide JobManager.Step;
    ManagerExits.ExitCodes(env, ws, es, |es|);
    forall r: string | AtMostOneLive(ws[0].cloud, r) ensures AtMostOneLive(ws[|es|].cloud, r) {
      JobManager.AtMostOneInstance(env, ws, es, |es|, r);
    }
    forall home: string | OneInstance.RevivedIn(home, env, ws, es) && OneInstance.OnlyIn(ws[0].cloud, home)
      ensures OneInstance.OnlyIn(ws[|es|].cloud, home) && OneInstance.AtMostOne(ws[|es|].cloud)
      ensures ws[|es|].exit == Some(0) && |es| > 0 && ws[|es| - 1].job.terms.region == home ==>
                OneInstance.NothingLive(ws[|es|].cloud)
    {
      OneInstance.AtMostOneInstanceOfJob(env, ws, es, home, |es|);
    }
  }

  /** How many managers there have been: one for every world that comes after the end of another, and the
      first. */
  ghost function Managers(ws: seq<JobManager.World>): nat {
    if |ws| <= 1 then |ws|
    else Managers(ws[..|ws| - 1]) + if ws[|ws| - 2].exit.Some? then 1 else 0
  }

  lemma {:induction false} MoreManagers(ws: seq<JobManager.World>, ws': seq<JobManager.World>)
    requires ws != [] && ws' != [] && ws[|ws| - 1].exit.Some?
    ensures Managers(ws + ws') == Managers(ws) + Managers(ws')
    decreases |ws'|
  {
    var all, n := ws + ws', |ws'| - 1;
    assert all[..|all| - 1] == ws + ws'[..n];
    if n == 0 {
      assert ws + ws'[..n] == ws;
    } else {
      MoreManagers(ws, ws'[..n]);
      assert all[|all| - 2] == ws'[n - 1];
    }
  }

  lemma {:induction false} LiveManagers(ws: seq<JobManager.World>)
    requires ws != [] && forall i :: 0 <= i < |ws| - 1 ==> ws[i].exit.None?
    ensures Managers(ws) == 1
    decreases |ws|
  {
    if |ws| > 1 {
      LiveManagers(ws[..|ws| - 1]);
    }
  }

  lemma StepIsLive(env: Env, w: JobManager.World, e: JobManager.Event, w': JobManager.World)
    requires JobManager.Step(env, w, e, w')
    ensures w.exit.None?
  {
  }

  ghost predicate Steps(env: Env, ws: seq<JobManager.World>, es: seq<JobManager.Event>) {
    |ws| == |es| + 1 && forall i :: 0 <= i < |es| ==> JobManager.Step(env, ws[i], es[i], ws[i + 1])
  }

  lemma OneManager(env: Env, ws: seq<JobManager.World>, es: seq<JobManager.Event>, n: nat)
    requires Steps(env, ws, es)
    ensures Managers(ws) == 1
    ensures ws[|es|].exit.None? && n <= |es| ==> StillGoing(ws, n)
  {
    hide JobManager.Step;
    forall i | 0 <= i < |es| ensures ws[i].exit.None? {
      StepIsLive(env, ws[i], es[i], ws[i + 1]);
    }
    LiveManagers(ws);
  }

  /** The manager at work has gone through at least the last `n` iterations. */
  ghost predicate StillGoing(ws: seq<JobManager.World>, n: nat) {
    n < |ws| && forall i :: |ws| - 1 - n <= i < |ws| ==> ws[i].exit.None?
  }

  lemma GoesOnAfter(ws: seq<JobManager.World>, ws': seq<JobManager.World>, n: nat)
    requires StillGoing(ws', n)
    ensures StillGoing(ws + ws', n)
  {
  }

  /** Between two managers nothing is taken or called. */
  ghost function Idle(): JobManager.Event {
    JobManager.Event(None, None, [], [], 0)
  }

  /** All calls of the run were made, and there was a look at the stream for every iteration. */
  ghost predicate Counted(made0: seq<Call>, made: seq<Call>, offers0: nat, offers: nat,
                          ws: seq<JobManager.World>, es: seq<JobManager.Event>) {
    made == made0 + CallsOf(es) && offers + Managers(ws) == offers0 + |es| + 1
  }

  lemma CountedFirst(made0: seq<Call>, made: seq<Call>, offered0: seq<Offer>, offered: seq<Offer>,
                     ws: seq<JobManager.World>, es: seq<JobManager.Event>)
    requires Recorded(made0, made, offered0, offered, es) && Managers(ws) == 1
    ensures Counted(made0, made, |offered0|, |offered|, ws, es)
  {
    OffersCount(es);
  }

  lemma CountedMore(made0: seq<Call>, made: seq<Call>, now: seq<Call>, offers0: nat, offered: seq<Offer>,
                    offers: seq<Offer>, ws: seq<JobManager.World>, es: seq<JobManager.Event>,
                    ws': seq<JobManager.World>, es': seq<JobManager.Event>)
    requires Counted(made0, made, offers0, |offered|, ws, es) && Recorded(made, now, offered, offers, es')
    requires Managers(ws') == 1 && Managers(ws + ws') == Managers(ws) + 1
    ensures Counted(made0, now, offers0, |offers|, ws + ws', es + [Idle()] + es')
  {
    IdleCalls(es, es');
    OffersCount(es');
  }

  lemma IdleCalls(es: seq<JobManager.Event>, es': seq<JobManager.Event>)
    ensures CallsOf(es + [Idle()] + es') == CallsOf(es) + CallsOf(es')
  {
    CallsOfBoth(es + [Idle()], es');
    OneEventMore(es, Idle());
  }

  lemma Restarts(env: Env, ws: seq<JobManager.World>, es: seq<JobManager.Event>,
                 ws': seq<JobManager.World>, es': seq<JobManager.Event>)
    requires JobManager.Run(env, ws, es) && ws[|es|].exit == Some(-1)
    requires Steps(env, ws', es')
    requires ws'[0] == JobManager.World(NewJob(ws[|es|].now), ws[|es|].cloud, ws[|es|].now, None)
    ensures JobManager.Run(env, ws + ws', es + [Idle()] + es')
  {
    hide JobManager.Step;
    var n, all, events := |es|, ws + ws', es + [Idle()] + es';
    forall i | 0 <= i < |events|
      ensures JobManager.Step(env, all[i], events[i], all[i + 1]) || JobManager.Restart(all[i], all[i + 1])
    {
      if i < n {
        assert all[i] == ws[i] && all[i + 1] == ws[i + 1] && events[i] == es[i];
      } else if i == n {
        assert all[i] == ws[n] && all[i + 1] == ws'[0];
      } else {
        assert all[i] == ws'[i - n - 1] && all[i + 1] == ws'[i - n] && events[i] == es'[i - n - 1];
      }
    }
  }
}
