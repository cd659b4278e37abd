/** The cloud a job manager drives, and the calls it makes. A cloud is the set of instances ever
    tagged with the job; any call may fail, and instances may change state on their own, but
    only a launch creates one. */
module Infra {
  import opened Bytes
  import opened Market

  type Id = string

  datatype Instance = Instance(region: string, state: string)

  type Cloud = map<Id, Instance>

  predicate LiveState(state: string) {
    state == "pending" || state == "running" || state == "stopping" || state == "stopped"
  }

  predicate Live(c: Cloud, region: string, id: Id) {
    id in c && c[id].region == region && LiveState(c[id].state)
  }

  ghost predicate AtMostOneLive(c: Cloud, region: string) {
    forall i, j :: Live(c, region, i) && Live(c, region, j) ==> i == j
  }

  ghost predicate NoneLive(c: Cloud, region: string) {
    forall i :: !Live(c, region, i)
  }

  datatype Call =
    | GetInstance(region: string, found: Option<(bool, Id, string)>)
    | SpinUp(instanceType: string, family: string, region: string, mem: int, vcpus: int,
             bandwidth: nat, launched: Option<Id>)
    | SpinDown(id: Id, region: string, ok: bool)
    | RunEnclave(id: Id, family: string, region: string, url: string, vcpus: int, mem: int,
                 bandwidth: nat, debug: bool, ok: bool)
    | UpdateImage(id: Id, region: string, url: string, vcpus: int, mem: int, ok: bool)
    | CheckInstance(id: Id, region: string, running: Option<bool>)
    | CheckEnclave(id: Id, region: string, running: Option<bool>)

  /** A call that starts something. */
  predicate Starts(c: Call) { c.SpinUp? || c.RunEnclave? || c.UpdateImage? }

  /** What happens without the manager: instances change state, none comes to life. */
  ghost predicate Drifts(c: Cloud, d: Cloud) {
    && c.Keys == d.Keys
    && forall i :: i in c ==> d[i].region == c[i].region && (LiveState(d[i].state) ==> LiveState(c[i].state))
  }

  /** The assumption on `get_job_instance`: it reports a live instance of the region if there is
      one, in its actual state; a failed launch may or may not have left an instance behind. */
  ghost predicate Effect(c: Cloud, call: Call, d: Cloud) {
    match call
    case GetInstance(region, Some((exist, id, state))) =>
      && Drifts(c, d)
      && (exist ==> id in d && d[id] == Instance(region, state))
      && ((exists i :: Live(d, region, i)) ==> exist && LiveState(state))
    case SpinDown(id, region, true) =>
      Drifts(c, d) && !Live(d, region, id)
    case SpinUp(_, _, region, _, _, _, launched) =>
      || (launched.None? && Drifts(c, d))
      || exists id ::
           && id !in c && id in d && (launched.Some? ==> id == launched.value)
           && d[id].region == region && Drifts(c, d - {id})
    case _ => Drifts(c, d)
  }

  /** `clouds[i]` is the cloud before the `i`th call and `clouds[i + 1]` the one after it. */
  ghost predicate Traced(calls: seq<Call>, clouds: seq<Cloud>) {
    && |clouds| == |calls| + 1
    && forall i :: 0 <= i < |calls| ==> Effect(clouds[i], calls[i], clouds[i + 1])
  }

  lemma DriftKeepsAtMostOne(c: Cloud, d: Cloud, region: string)
    requires Drifts(c, d)
    ensures AtMostOneLive(c, region) ==> AtMostOneLive(d, region)
    ensures NoneLive(c, region) ==> NoneLive(d, region)
  {
    forall i | Live(d, region, i) ensures Live(c, region, i) {
    }
  }

  lemma SurvivorsWereLive(c: Cloud, d: Cloud, id: Id, region: string)
    requires id !in c && Drifts(c, d - {id})
    ensures forall i :: Live(d, region, i) ==> i == id || Live(c, region, i)
  {
    forall i | i in d && i != id ensures i in c && (Live(d, region, i) ==> Live(c, region, i)) {
      assert i in d - {id} && (d - {id})[i] == d[i];
    }
  }

  /** Every call but a launch keeps an at-most-one cloud so, and an empty one empty. */
  lemma CallKeepsAtMostOne(c: Cloud, call: Call, d: Cloud, region: string)
    requires Effect(c, call, d) && (call.SpinUp? ==> call.region != region)
    ensures AtMostOneLive(c, region) ==> AtMostOneLive(d, region)
    ensures NoneLive(c, region) ==> NoneLive(d, region)
  {
    if call.SpinUp? && !Drifts(c, d) {
      var id :| id !in c && id in d && d[id].region == call.region && Drifts(c, d - {id});
      SurvivorsWereLive(c, d, id, region);
    } else {
      DriftKeepsAtMostOne(c, d, region);
    }
  }

  /** A launch into a region without a live instance leaves at most one. */
  lemma LaunchIntoEmpty(c: Cloud, call: Call, d: Cloud)
    requires call.SpinUp? && Effect(c, call, d) && NoneLive(c, call.region)
    ensures AtMostOneLive(d, call.region)
  {
    if Drifts(c, d) {
      DriftKeepsAtMostOne(c, d, call.region);
    } else {
      var id :| id !in c && id in d && d[id].region == call.region && Drifts(c, d - {id});
      SurvivorsWereLive(c, d, id, call.region);
    }
  }

  /** Terminating the one live instance leaves none. */
  lemma TerminateTheOne(c: Cloud, call: Call, d: Cloud)
    requires call.SpinDown? && call.ok && Effect(c, call, d)
    requires AtMostOneLive(c, call.region) && (NoneLive(c, call.region) || Live(c, call.region, call.id))
    ensures NoneLive(d, call.region)
  {
    forall i | Live(d, call.region, i) ensures false {
      assert Live(c, call.region, i);
    }
  }
}
