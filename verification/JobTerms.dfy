/** What each log leaves of a job, field by field: which machine and image it asks for, at what price, and
    when its manager is to act on it (operator/control-plane/src/market.rs:862-1236). */
module JobTerms {
  import opened Bytes
  import opened Market
  import opened Verdicts
  import Solvency

  /** A usable JobOpened sets the machine, the image and the money by the log alone. What it need not name,
      family and debug mode, is kept if it does not. The number of processors is cut to 32 bits. */
  lemma OpenedTerms(t: Terms, env: Env, owner: string, v: Metadata, rate: U256, balance: U256, timestamp: U256)
    requires Usable(env, Some(v))
    ensures var n := Judge(t, env, Some(Opened(owner, Some(v), rate, balance, timestamp))).terms;
      && v.instance == Some(n.instanceType) && v.region == Some(n.region)
      && v.memory == Some(n.reqMem) && v.url == Some(n.eifUrl)
      && n.reqVcpus == (if -2147483648 <= v.vcpu.value <= 2147483647 then v.vcpu.value else 2147483647)
      && (if v.family.Some? then v.family == Some(n.family) else n.family == t.family)
      && (if v.debug.Some? then v.debug == Some(n.debug) else n.debug == t.debug)
      && n.balance == balance && n.rate == rate && n.originalRate == rate
      && n.lastSettled == (if timestamp < 0x1_0000_0000_0000_0000 then timestamp else 0xFFFF_FFFF_FFFF_FFFF) * SEC
  {
    hide FindMinRate;
    hide OwnerAllowed;
    hide Bandwidth;
  }

  /** Its minimum rate is the price of that machine if its owner is allowed and it has one. */
  lemma OpenedPrice(t: Terms, env: Env, log: Log)
    requires log.Opened? && Usable(env, log.metadata)
    ensures var n := Judge(t, env, Some(log)).terms;
      if OwnerAllowed(log.owner, env.whitelist, env.blacklist) && Price(env, log.metadata).Some?
      then Price(env, log.metadata) == Some(n.minRate) else n.minRate == t.minRate
  {
    hide FindMinRate;
    hide OwnerAllowed;
    hide Bandwidth;
  }

  /** And its bandwidth the most that the surplus covers at the price of its region, if there is one. */
  lemma OpenedBandwidth(t: Terms, env: Env, log: Log, i: nat, units: nat)
    requires log.Opened?
    requires Usable(env, log.metadata)
    requires forall k :: 0 <= k < i && k < |env.gbRates| ==>
               env.gbRates[k].regionCode != log.metadata.value.region.value
    requires i < |env.gbRates| ==> env.gbRates[i].regionCode == log.metadata.value.region.value
    ensures var n := Judge(t, env, Some(log)).terms;
      if Revives(t, env, log) && i < |env.gbRates| then
        && n.rate >= n.minRate
        && (units <= n.bandwidth
            <==> units <= U64_MAX
                 && units * env.gbRates[i].rate <= Min((n.rate - n.minRate) * 0x80_0000, MOD256 - 1))
      else n.bandwidth == t.bandwidth
  {
    var v, n := log.metadata.value, Judge(t, env, Some(log)).terms;
    var u := t.(balance := log.balance, rate := log.rate, originalRate := log.rate,
                lastSettled := Seconds(log.timestamp));
    var m := OpenMetadata(u, env, v).0;
    Solvency.GBRateIsFirst(env.gbRates, m.region, i);
    hide FindMinRate;
    hide OwnerAllowed;
    hide FindGBRate;
    if Revives(t, env, log) {
      var priced := m.(minRate := Price(env, log.metadata).value);
      assert n == priced.(bandwidth := Bandwidth(priced, env.gbRates));
      if i < |env.gbRates| {
        Solvency.BandwidthIsGreatest(priced, env.gbRates, units);
      }
    }
    hide Bandwidth;
  }

  /** No other log changes the machine, and only an accepted update the image. */
  lemma OtherTerms(t: Terms, env: Env, log: Log)
    requires !log.Opened?
    ensures var n := Judge(t, env, Some(log)).terms;
      && n.instanceType == t.instanceType && n.region == t.region && n.reqMem == t.reqMem
      && n.reqVcpus == t.reqVcpus && n.family == t.family && n.debug == t.debug
      && n.minRate == t.minRate && n.bandwidth == t.bandwidth
      && (if Revives(t, env, log) then log.metadata.value.url == Some(n.eifUrl) && n.eifUrl != t.eifUrl
          else n.eifUrl == t.eifUrl)
  {
  }

  /** When the manager is to act on a log: at once if it kills, after the launch delay if it revives, and
      as before otherwise. A running instance gets a new image only after an accepted update. */
  lemma ScheduledExactly(j: Job, env: Env, now: nat, log: Log)
    ensures var k := ProcessLog(j, env, now, Some(log)).0;
      && k.instanceId == j.instanceId
      && (k.eifUpdate <==> j.eifUpdate || (log.MetadataUpdated? && Revives(j.terms, env, log)))
      && (if Kills(j.terms, env, log) then k.infraChangeScheduled && !k.infraState && k.infraChangeTime == now
          else if Revives(j.terms, env, log) then
            k.infraChangeScheduled && k.infraState && k.infraChangeTime == now + env.launchDelay * 1_000_000_000
          else k.infraChangeScheduled == j.infraChangeScheduled && k.infraState == j.infraState
               && k.infraChangeTime == j.infraChangeTime)
  {
    JudgeExactly(j.terms, env, log);
    UpdatesAreUpdates(j.terms, env, log);
    hide Judge;
    hide Kills;
    hide Revives;
  }

  lemma UpdatesAreUpdates(t: Terms, env: Env, log: Log)
    ensures Judge(t, env, Some(log)).verdict.Update? <==> log.MetadataUpdated? && Revives(t, env, log)
    ensures !(Kills(t, env, log) && Revives(t, env, log))
  {
    hide OpenMetadata;
    hide Bandwidth;
    hide FindMinRate;
    hide OwnerAllowed;
    hide Usable;
    hide UpdateAllowed;
  }

  // ---- A job nothing is known of -------------------------------------------------------------------

  /** What a manager starts out with: nothing launched or due, the highest price there is. */
  lemma FreshJob(now: nat)
    ensures var j := NewJob(now);
      && j.instanceId == "" && !j.infraState && !j.infraChangeScheduled && !j.eifUpdate
      && j.terms.balance == 360 && j.terms.rate == j.terms.originalRate == 1 && j.terms.lastSettled == now
      && j.terms.minRate + 1 == MOD256 && j.terms.bandwidth == 0
      && j.terms.instanceType == "c6a.xlarge" && j.terms.region == "ap-south-1" && j.terms.family == "salmon"
      && j.terms.reqVcpus == 2 && j.terms.reqMem == 4096 && !j.terms.debug && j.terms.eifUrl == ""
  {
  }

  /** The comment on these numbers takes them for a minute. Rates are per 10^12 units, so they are a minute
      at rates around 10^12 alone, and at the rate that is set they last for 360 * 10^12 - 300 seconds. */
  lemma FreshJobLastsAMinuteIff(now: nat, rate: U256)
    requires rate > 0
    ensures InsolvencyDuration(NewTerms(now).(rate := rate), now) == 60 * SEC
       <==> 360_000_000_000_000 < 361 * rate && rate <= 1_000_000_000_000
    ensures InsolvencyDuration(NewTerms(now), now) == 359_999_999_999_700 * SEC
  {
    Solvency.QuotientIsGreatest(360_000_000_000_000, rate, 360);
    Solvency.QuotientIsGreatest(360_000_000_000_000, rate, 361);
    Solvency.QuotientSpec(360_000_000_000_000, 1);
    hide Quotient;
    assert 360 * RATE_SCALE == 360_000_000_000_000;
  }

  // ---- Owners and updates --------------------------------------------------------------------------

  /** An owner is refused for not being on a whitelist that is not empty, or for being on the blacklist. */
  lemma OwnerRefused(owner: string, whitelist: seq<string>, blacklist: seq<string>)
    ensures !OwnerAllowed(owner, whitelist, blacklist)
       <==> || (|whitelist| > 0 && forall i :: 0 <= i < |whitelist| ==> whitelist[i] != owner)
            || exists i :: 0 <= i < |blacklist| && blacklist[i] == owner
  {
  }

  /** An update is refused for anything missing, for anything but the image that differs from what the
      job has, and for an image that does not. */
  lemma UpdateRefused(t: Terms, metadata: Option<Metadata>)
    ensures Refused(t, metadata) <==>
      match metadata
      case None => true
      case Some(v) =>
        || v.instance.None? || v.instance.value != t.instanceType
        || v.region.None? || v.region.value != t.region
        || v.memory.None? || v.memory.value != t.reqMem
        || v.vcpu.None? || t.reqVcpus != (if -2147483648 <= v.vcpu.value <= 2147483647 then v.vcpu.value else 2)
        || (v.family.Some? && v.family.value != t.family)
        || (if v.debug.Some? then v.debug.value != t.debug else t.debug)
        || v.url.None? || v.url.value == t.eifUrl
  {
  }

  /** A job that is opened and then updated with the same metadata but for the image: accepted exactly if
      the image is new, the number of processors fits 32 bits, and the debug mode is named or was off. A
      number that does not fit is read as 2^31 - 1 the first time and as 2 the second. */
  lemma SameMachineAccepted(t: Terms, env: Env, owner: string, v: Metadata, rate: U256, balance: U256,
                            timestamp: U256, url: string)
    requires Usable(env, Some(v))
    ensures var n := Judge(t, env, Some(Opened(owner, Some(v), rate, balance, timestamp))).terms;
      !Refused(n, Some(v.(url := Some(url))))
      <==> && v.url != Some(url)
           && -0x8000_0000 <= v.vcpu.value < 0x8000_0000
           && (v.debug.Some? || !t.debug)
  {
    OpenedTerms(t, env, owner, v, rate, balance, timestamp);
    hide Judge;
    hide Usable;
  }
}
