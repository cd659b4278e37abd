/** How a manager ends, and when it leaves a live instance behind it. */
module ManagerExits {
  import opened Bytes
  import opened Market
  import opened Verdicts
  import opened Infra
  import opened JobManager
  import OneInstance

  /** Return codes by what the last iteration met: -2 exactly for a log that makes the manager give up,
      -1 exactly for the end of the stream, 0 only after a termination that worked. */
  lemma ExitsExactly(env: Env, w: World, e: Event, w': World)
    requires Step(env, w, e, w')
    ensures w'.exit == Some(-2) <==> Received(w, e).Some? && GivesUp(w.job.terms, env, Received(w, e).value)
    ensures w'.exit == Some(-1) <==> Fired(w, e).branch == OnLog && e.log.None?
    ensures w'.exit == Some(0) ==> Fired(w, e).branch == OnInfra
    ensures w'.exit.Some? ==> w'.exit.value in {0, -1, -2}
  {
    if Fired(w, e).branch == OnLog {
      assert ProcessLog(w.job, env, Fired(w, e).at.value, None).1 == -1;
      if e.log.Some? {
        JudgeExactly(w.job.terms, env, e.log.value);
        ProcessLogIs(w.job, env, Fired(w, e).at.value, e.log.value);
      }
    }
    hide Fire;
    hide ProcessLog;
    hide GivesUp;
    hide ChangeInfra;
    hide HeartbeatCheck;
  }

  lemma ExitCodes(env: Env, ws: seq<World>, es: seq<Event>, n: nat)
    requires Run(env, ws, es) && ws[0].exit.None? && n < |ws|
    ensures ws[n].exit.Some? ==> ws[n].exit.value in {0, -1, -2}
  {
    hide Step;
    if n > 0 && ws[n].exit.Some? {
      assert Step(env, ws[n - 1], es[n - 1], ws[n]);
      ExitsExactly(env, ws[n - 1], es[n - 1], ws[n]);
    }
  }

  /** Of a run that has ended for good, on a cloud with a live instance that does not stop by itself
      during the last iteration: the instance is left live exactly if the last log was one that makes
      the manager give up. */
  lemma LeftLiveIffGivenUp(env: Env, ws: seq<World>, es: seq<Event>)
    requires Run(env, ws, es) && es != []
    requires ws[|es|].exit == Some(0) || ws[|es|].exit == Some(-2)
    requires var w, e := ws[|es| - 1], es[|es| - 1];
      && AtMostOneLive(ws[0].cloud, w.job.terms.region)
      && !NoneLive(w.cloud, w.job.terms.region)
      && Step(env, w, e, ws[|es|]) && e.clouds[0] == w.cloud
    ensures var w, e := ws[|es| - 1], es[|es| - 1];
      !NoneLive(ws[|es|].cloud, w.job.terms.region)
      <==> Received(w, e).Some? && GivesUp(w.job.terms, env, Received(w, e).value)
  {
    var n := |es|;
    AtMostOneInstance(env, ws, es, n, ws[n - 1].job.terms.region);
    ExitsExactly(env, ws[n - 1], es[n - 1], ws[n]);
    hide Step;
    hide GivesUp;
    hide NoneLive;
    if ws[n].exit == Some(-2) {
      ErrorExitsLeaveTheCloud(env, ws[n - 1], es[n - 1], ws[n]);
    }
  }

  /** Of those logs, the ones that also tell a running job to stop, which is then never carried out,
      are the refused updates. */
  lemma ScheduledAndDropped(env: Env, w: World, e: Event, w': World)
    requires Step(env, w, e, w') && w'.exit == Some(-2) && w.job.infraState
    ensures var log := Received(w, e);
      && log.Some?
      && (w'.job.infraChangeScheduled && !w'.job.infraState
          <==> log.value.MetadataUpdated? && Refused(w.job.terms, log.value.metadata))
  {
    ExitsExactly(env, w, e, w');
    JudgeExactly(w.job.terms, env, e.log.value);
    KillsAndGivesUpExactly(w.job.terms, env, e.log.value);
    ProcessLogIs(w.job, env, Fired(w, e).at.value, e.log.value);
  }

  /** Such a run: opened, launched, updated with metadata that does not parse; the manager ends with
      the termination scheduled and the instance running. */
  lemma RefusedUpdateLeavesInstance() returns (ws: seq<World>, es: seq<Event>)
    ensures Run(OneInstance.TwoRegions(), ws, es) && ws[0] == World(NewJob(0), map[], 0, None)
    ensures var last := ws[|es|];
      && last.exit == Some(-2)
      && last.job.infraChangeScheduled && !last.job.infraState
      && Live(last.cloud, last.job.terms.region, last.job.instanceId)
  {
    hide Step;
    var env := OneInstance.TwoRegions();
    var w0 := World(NewJob(0), map[], 0, None);
    var e0, w1 := OneInstance.Opening(w0, "a");
    var e1, w2 := OneInstance.Launching(env, w1, "x");
    var e2, w3 := Refusing(env, w2);
    ws, es := [w0, w1, w2, w3], [e0, e1, e2];
  }

  lemma Refusing(env: Env, w: World) returns (e: Event, w': World)
    requires w.exit.None? && w.now == 0
    ensures Step(env, w, e, w') && Received(w, e) == Some(MetadataUpdated(None))
    ensures w' == World(ScheduleTermination(w.job, 0), w.cloud, 0, Some(-2))
  {
    var log := Some(MetadataUpdated(None));
    e := Event(Some(0), log, [], [w.cloud], 0);
    w' := World(ProcessLog(w.job, env, 0, log).0, w.cloud, 0, Some(-2));
    assert Fired(w, e) == Timer(OnLog, Some(0));
  }

  /** A manager that returns 0 has terminated in the region its job is in by then: this one was moved by
      a JobOpened below the minimum rate, and the instance in the first region runs on. */
  lemma DoneElsewhereLeavesInstance() returns (ws: seq<World>, es: seq<Event>)
    ensures Run(OneInstance.TwoRegions(), ws, es) && ws[0] == OneInstance.Start(0)
    ensures ws[|es|].exit == Some(0) && ws[|es|].job.terms.region == "b" && Live(ws[|es|].cloud, "a", "x")
  {
    hide Step;
    var env := OneInstance.TwoRegions();
    var w0 := OneInstance.Start(0);
    var e0, w1 := OneInstance.Opening(w0, "a");
    var e1, w2 := OneInstance.Launching(env, w1, "x");
    var e2, w3 := Moving(w2);
    var e3, w4 := Finishing(env, w3);
    ws, es := [w0, w1, w2, w3, w4], [e0, e1, e2, e3];
  }

  lemma Moving(w: World) returns (e: Event, w': World)
    requires w.exit.None? && w.now == 0
    ensures Step(OneInstance.TwoRegions(), w, e, w')
    ensures w' == w.(job := w'.job) && w'.job.terms.region == "b"
    ensures !w'.job.infraState && w'.job.infraChangeScheduled && w'.job.infraChangeTime == 0
  {
    var v := Metadata(Some("i"), Some("b"), Some(1), Some(1), Some("u"), None, None);
    var log := Opened("o", Some(v), 0, 1000, 0);
    e := Event(Some(0), Some(log), [], [w.cloud], 0);
    w' := w.(job := ProcessLog(w.job, OneInstance.TwoRegions(), 0, Some(log)).0);
    assert FindMinRate(OneInstance.TwoRegions().rates, "b", "i") == Some(1) by { OneInstance.PricesInBoth("b"); }
    assert Fired(w, e) == Timer(OnLog, Some(0));
  }

  lemma Finishing(env: Env, w: World) returns (e: Event, w': World)
    requires w.exit.None? && w.now == 0 && NoneLive(w.cloud, w.job.terms.region)
    requires !w.job.infraState && w.job.infraChangeScheduled && w.job.infraChangeTime == 0
    ensures Step(env, w, e, w') && w'.exit == Some(0) && w'.cloud == w.cloud && w'.job.terms == w.job.terms
  {
    var get := GetInstance(w.job.terms.region, Some((false, "", "")));
    e := Event(None, None, [get], [w.cloud, w.cloud], 0);
    w' := World(w.job.(infraChangeScheduled := false), w.cloud, 0, Some(0));
    assert Effect(w.cloud, get, w.cloud);
    assert Fired(w, e) == Timer(OnInfra, Some(0));
  }
}
