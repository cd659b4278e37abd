/** What a manager asks of the cloud, call by call, and that an accepted update of the image reaches the
    enclave before the manager takes its work for done. */
module InfraCalls {
  import opened Bytes
  import opened Market
  import opened Verdicts
  import opened Infra
  import opened JobManager

  // ---- One change of infrastructure -----------------------------------------------------------------

  /** A reply of `get_job_instance` that shows a working instance, or one that does not work but is live. */
  predicate Working(found: Option<(bool, Id, string)>) {
    found.Some? && found.value.0 && found.value.2 in {"pending", "running"}
  }

  predicate Broken(found: Option<(bool, Id, string)>) {
    found.Some? && found.value.0 && found.value.2 in {"stopping", "stopped"}
  }

  /** Whatever the intent, the job's region is asked for its instance first, and nothing is done on no
      answer. */
  lemma AsksFirst(j: Job, calls: seq<Call>)
    requires ChangeInfraImpl(j, calls).Some?
    ensures calls != [] && calls[0].GetInstance? && calls[0].region == j.terms.region
    ensures calls[0].found.None? ==> |calls| == 1 && ChangeInfraImpl(j, calls).value == (j, false)
  {
  }

  /** A working instance is taken as it is, unless an update waits: then the new image is sent to it with
      the job's numbers, and only if that worked is the update done and the change a success. */
  lemma WorkingIsUpdated(j: Job, calls: seq<Call>)
    requires ChangeInfraImpl(j, calls).Some? && j.infraState && Working(calls[0].found)
    ensures var (k, ok) := ChangeInfraImpl(j, calls).value;
      && k.instanceId == calls[0].found.value.1
      && (!j.eifUpdate ==> |calls| == 1 && ok && !k.eifUpdate)
      && (j.eifUpdate ==>
            && |calls| == 2 && calls[1].UpdateImage?
            && calls[1].id == k.instanceId && calls[1].region == j.terms.region && calls[1].url == j.terms.eifUrl
            && calls[1].vcpus == j.terms.reqVcpus && calls[1].mem == j.terms.reqMem
            && (ok <==> calls[1].ok) && (k.eifUpdate <==> !calls[1].ok))
  {
  }

  /** The `i`-th call launches the job's machine and the next, if it succeeds, runs the enclave on it. */
  predicate LaunchesAt(t: Terms, calls: seq<Call>, i: nat) {
    && i < |calls| && calls[i].SpinUp?
    && calls[i].instanceType == t.instanceType && calls[i].family == t.family && calls[i].region == t.region
    && calls[i].mem == t.reqMem && calls[i].vcpus == t.reqVcpus && calls[i].bandwidth == t.bandwidth
    && (calls[i].launched.None? ==> |calls| == i + 1)
    && (calls[i].launched.Some? ==> |calls| == i + 2 && RunsOn(t, calls[i + 1], calls[i].launched.value))
  }

  /** The call runs the job's enclave on instance `id`. */
  predicate RunsOn(t: Terms, call: Call, id: Id) {
    && call.RunEnclave?
    && call.id == id && call.family == t.family && call.region == t.region && call.url == t.eifUrl
    && call.vcpus == t.reqVcpus && call.mem == t.reqMem && call.bandwidth == t.bandwidth && call.debug == t.debug
  }

  /** A live instance that does not work is terminated, and then replaced. */
  lemma BrokenIsReplaced(j: Job, calls: seq<Call>)
    requires ChangeInfraImpl(j, calls).Some? && j.infraState && Broken(calls[0].found)
    ensures |calls| >= 2 && calls[1] == SpinDown(calls[0].found.value.1, j.terms.region, calls[1].ok)
    ensures !calls[1].ok ==> |calls| == 2 && ChangeInfraImpl(j, calls).value == (j, false)
    ensures calls[1].ok ==> LaunchesAt(j.terms, calls, 2) && LaunchedBy(j, ChangeInfraImpl(j, calls).value, calls[2])
  {
    if calls[1].ok {
      var rest := calls[2..];
      assert rest[0] == calls[2] && (|rest| == 2 ==> rest[1] == calls[3]);
    }
  }

  /** Where there is none, one is launched. */
  lemma MissingIsLaunched(j: Job, calls: seq<Call>)
    requires ChangeInfraImpl(j, calls).Some? && j.infraState && calls[0].found.Some?
    requires !Working(calls[0].found) && !Broken(calls[0].found)
    ensures LaunchesAt(j.terms, calls, 1) && LaunchedBy(j, ChangeInfraImpl(j, calls).value, calls[1])
  {
    var rest := calls[1..];
    assert rest[0] == calls[1] && (|rest| == 2 ==> rest[1] == calls[2]);
  }

  /** The change succeeded exactly if the launch did, and then the job is on the instance launched. */
  predicate LaunchedBy(j: Job, result: (Job, bool), up: Call)
    requires up.SpinUp?
  {
    if up.launched.Some? then result == (j.(instanceId := up.launched.value), true) else result == (j, false)
  }

  /** To stop, whatever is there and not already going is terminated. */
  lemma StoppedIsTerminated(j: Job, calls: seq<Call>)
    requires ChangeInfraImpl(j, calls).Some? && !j.infraState && calls[0].found.Some?
    ensures var (exist, id, state) := calls[0].found.value;
      if !exist || state in {"shutting-down", "terminated"} then
        |calls| == 1 && ChangeInfraImpl(j, calls).value == (j, true)
      else
        && |calls| == 2 && calls[1] == SpinDown(id, j.terms.region, calls[1].ok)
        && ChangeInfraImpl(j, calls).value == (j, calls[1].ok)
  {
  }

  /** A change that worked is not made again; one that failed is, two seconds after it ended. Only a
      termination that worked ends the manager. */
  lemma ChangeIsRetried(env: Env, w: World, e: Event, w': World)
    requires Step(env, w, e, w') && Fired(w, e).branch == OnInfra
    ensures ChangeInfraImpl(w.job, e.calls).Some?
    ensures var ok := ChangeInfraImpl(w.job, e.calls).value.1;
      && w'.job.infraState == w.job.infraState && w'.job.infraChangeScheduled == !ok
      && w'.job.infraChangeTime == (if ok then w.job.infraChangeTime else e.end + 2_000_000_000)
      && w'.exit == if ok && !w.job.infraState then Some(0) else None
  {
    KeepsSchedule(w.job, e.calls);
    hide ChangeInfraImpl;
    assert w.job.infraChangeScheduled;
    hide Fire;
  }

  lemma KeepsSchedule(j: Job, calls: seq<Call>)
    ensures ChangeInfraImpl(j, calls).Some? ==>
      var k := ChangeInfraImpl(j, calls).value.0;
      k.terms == j.terms && k.infraState == j.infraState && k.infraChangeScheduled == j.infraChangeScheduled
      && k.infraChangeTime == j.infraChangeTime
  {
  }

  /** When each branch of the select is ready, if ever. */
  function ReadyAt(j: Job, now: nat, logAt: Option<nat>, b: Branch): Option<nat> {
    match b
    case OnLog => logAt
    case OnHeartbeat => if j.instanceId == "" then None else Some(now + 5_000_000_000)
    case OnInsolvency =>
      if j.infraChangeScheduled && !j.infraState then None else Some(now + InsolvencyDuration(j.terms, now))
    case OnInfra =>
      if !j.infraChangeScheduled then None
      else if j.infraChangeTime < now then Some(now) else Some(j.infraChangeTime)
  }

  function Listed(b: Branch): nat {
    match b case OnLog => 0 case OnHeartbeat => 1 case OnInsolvency => 2 case OnInfra => 3
  }

  /** The branch that fires is ready, none is before it, and none that is listed before it is as soon. */
  lemma FiresFirst(j: Job, now: nat, logAt: Option<nat>, b: Branch)
    ensures var f := Fire(j, now, logAt);
      && f.at == ReadyAt(j, now, logAt, f.branch)
      && (ReadyAt(j, now, logAt, b).Some? ==>
            && f.at.Some? && f.at.value <= ReadyAt(j, now, logAt, b).value
            && (Listed(b) < Listed(f.branch) ==> f.at.value < ReadyAt(j, now, logAt, b).value))
  {
    hide InsolvencyDuration;
  }

  // ---- The heartbeat --------------------------------------------------------------------------------

  /** The heartbeat looks for the job's instance and then for the enclave on it, runs an enclave that has
      stopped, and has an instance that has stopped launched again at once if the job pays its price. It
      changes nothing else, and nothing on no answer. */
  lemma HeartbeatHeals(j: Job, calls: seq<Call>, now: nat)
    requires HeartbeatCheck(j, calls, now).Some?
    ensures calls != [] && calls[0].CheckInstance? && calls[0].id == j.instanceId && calls[0].region == j.terms.region
    ensures var k := HeartbeatCheck(j, calls, now).value;
      match calls[0].running
      case None => |calls| == 1 && k == j
      case Some(false) =>
        |calls| == 1
        && (if j.terms.rate >= j.terms.minRate then
              k.infraState && k.infraChangeScheduled && k.infraChangeTime == now
              && k == j.(infraState := true, infraChangeScheduled := true, infraChangeTime := now)
            else k == j)
      case Some(true) =>
        && k == j && |calls| >= 2
        && calls[1].CheckEnclave? && calls[1].id == j.instanceId && calls[1].region == j.terms.region
        && (if calls[1].running == Some(false) then |calls| == 3 && RunsOn(j.terms, calls[2], j.instanceId)
            else |calls| == 2)
  {
  }

  // ---- Over runs ---------------------------------------------------------------------------------

  /** The call brings the job's image to its instance, to the region and with the numbers it should. */
  predicate Sends(t: Terms, call: Call) {
    match call
    case UpdateImage(_, region, url, vcpus, mem, ok) =>
      ok && region == t.region && url == t.eifUrl && vcpus == t.reqVcpus && mem == t.reqMem
    case RunEnclave(id, _, _, _, _, _, _, _, _) => RunsOn(t, call, id)
    case _ => false
  }

  predicate SendsImage(w: World, e: Event) {
    exists k :: 0 <= k < |e.calls| && Sends(w.job.terms, e.calls[k])
  }

  /** The new image is still to be sent: the flag is set, and launching is due if it is intended. */
  predicate Waiting(j: Job) {
    j.eifUpdate && (j.infraState ==> j.infraChangeScheduled)
  }

  lemma ChangeSends(j: Job, calls: seq<Call>, now: nat)
    requires ChangeInfra(j, calls, now).Some? && Waiting(j)
    ensures var (k, ok) := ChangeInfra(j, calls, now).value;
      || Waiting(k)
      || (j.infraState && ok && exists i :: 0 <= i < |calls| && Sends(j.terms, calls[i]))
  {
    var (k, ok) := ChangeInfraImpl(j, calls).value;
    AsksFirst(j, calls);
    if j.infraState && calls[0].found.Some? {
      if Working(calls[0].found) {
        WorkingIsUpdated(j, calls);
        hide ChangeInfraImpl;
        assert ok ==> Sends(j.terms, calls[1]);
      } else if Broken(calls[0].found) {
        BrokenIsReplaced(j, calls);
        hide ChangeInfraImpl;
        assert ok ==> Sends(j.terms, calls[3]);
      } else {
        MissingIsLaunched(j, calls);
        hide ChangeInfraImpl;
        assert ok ==> Sends(j.terms, calls[2]);
      }
    }
  }

  lemma LogKeepsWaiting(j: Job, env: Env, now: nat, log: Log)
    requires Waiting(j)
    ensures Waiting(ProcessLog(j, env, now, Some(log)).0)
  {
    hide Judge;
  }

  lemma StepKeepsWaiting(env: Env, w: World, e: Event, w': World)
    requires Step(env, w, e, w') && Waiting(w.job)
    ensures Waiting(w'.job) || (SendsImage(w, e) && w.job.infraState)
  {
    match Fired(w, e).branch
    case OnLog =>
      if e.log.Some? {
        LogKeepsWaiting(w.job, env, Fired(w, e).at.value, e.log.value);
      }
      assert Judge(w.job.terms, env, None).verdict == Keep;
      hide Judge;
    case OnHeartbeat =>
      HeartbeatHeals(w.job, e.calls, e.end);
      hide HeartbeatCheck;
    case OnInsolvency =>
    case OnInfra =>
      ChangeSends(w.job, e.calls, e.end);
      hide ChangeInfra;
  }

  lemma UpdateWaits(env: Env, w: World, e: Event, w': World)
    requires Step(env, w, e, w') && Received(w, e).Some?
    requires Received(w, e).value.MetadataUpdated? && Revives(w.job.terms, env, Received(w, e).value)
    ensures Waiting(w'.job)
    ensures Some(w'.job.terms.eifUrl) == Received(w, e).value.metadata.value.url
  {
    hide UpdateAllowed;
    assert Received(w, e).value.metadata.value.url.Some? by { NamesUrl(w.job.terms, Received(w, e).value.metadata); }
  }

  lemma NamesUrl(t: Terms, metadata: Option<Metadata>)
    requires !Refused(t, metadata)
    ensures metadata.Some? && metadata.value.url.Some?
  {
  }

  /** Once an update is accepted at `p`, then as long as its image is the job's, a manager that has no
      change left to make has sent that image: in an update that worked, or with an enclave it started. */
  lemma {:induction false} UpdatedImageIsSent(env: Env, ws: seq<World>, es: seq<Event>, p: nat, n: nat)
    requires Run(env, ws, es) && p < n < |ws|
    requires forall i :: p <= i < n ==> ws[i].exit.None?
    requires Received(ws[p], es[p]).Some? && Received(ws[p], es[p]).value.MetadataUpdated?
    requires Revives(ws[p].job.terms, env, Received(ws[p], es[p]).value)
    requires forall i :: p < i <= n ==>
               Some(ws[i].job.terms.eifUrl) == Received(ws[p], es[p]).value.metadata.value.url
    ensures Waiting(ws[n].job) || exists q :: p < q < n && SendsImage(ws[q], es[q])
  {
    hide Step;
    hide Waiting;
    hide SendsImage;
    hide Received;
    hide Revives;
    assert forall i :: p <= i < n ==> ws[i].exit.None? ==> Step(env, ws[i], es[i], ws[i + 1]);
    if n == p + 1 {
      UpdateWaits(env, ws[p], es[p], ws[n]);
    } else {
      UpdatedImageIsSent(env, ws, es, p, n - 1);
      if Waiting(ws[n - 1].job) {
        StepKeepsWaiting(env, ws[n - 1], es[n - 1], ws[n]);
      }
    }
  }

  /** So when the change is done the image has been sent. */
  lemma DoneMeansSent(env: Env, ws: seq<World>, es: seq<Event>, p: nat, n: nat)
    requires Run(env, ws, es) && p < n < |ws|
    requires forall i :: p <= i < n ==> ws[i].exit.None?
    requires Received(ws[p], es[p]).Some? && Received(ws[p], es[p]).value.MetadataUpdated?
    requires Revives(ws[p].job.terms, env, Received(ws[p], es[p]).value)
    requires forall i :: p < i <= n ==>
               Some(ws[i].job.terms.eifUrl) == Received(ws[p], es[p]).value.metadata.value.url
    requires ws[n].job.infraState && !ws[n].job.infraChangeScheduled
    ensures exists q :: p < q < n && SendsImage(ws[q], es[q])
  {
    UpdatedImageIsSent(env, ws, es, p, n);
  }
}
