/** The control plane's view of one job: the state its manager keeps, how chain logs change it,
    and when it becomes insolvent. Times are nanoseconds, amounts 256-bit words. */
module Market {
  import opened Bytes

  const MOD256: nat := 0x1_0000_0000_0000_0000_0000_0000_0000_0000_0000_0000_0000_0000_0000_0000_0000_0000
  const U64_MAX: nat := 0xFFFF_FFFF_FFFF_FFFF
  const SEC: nat := 1_000_000_000
  const RATE_SCALE: nat := 1_000_000_000_000

  type U256 = x: nat | x < MOD256

  /** `+=` and `-=` on 256-bit words wrap around. */
  function WrapAdd(a: U256, b: U256): U256 { (a + b) % MOD256 }

  function WrapSub(a: U256, b: U256): U256 { (a - b) % MOD256 }

  function SaturatingSub(a: nat, b: nat): nat { if a < b then 0 else a - b }

  function Min(a: nat, b: nat): nat { if a < b then a else b }

  function Quotient(a: nat, b: nat): nat
    requires b > 0
  {
    a / b
  }

  /** `Duration::from_secs(timestamp.saturating_to::<u64>())`. */
  function Seconds(timestamp: U256): nat { Min(timestamp, U64_MAX) * SEC }

  datatype RateCard = RateCard(instance: string, minRate: U256)
  datatype RegionalRates = RegionalRates(region: string, rateCards: seq<RateCard>)
  datatype GBRate = GBRate(regionCode: string, rate: U256)
  type GBRateCard = g: GBRate | g.rate > 0 witness GBRate("", 1)

  datatype Env = Env(
    launchDelay: nat, allowedRegions: seq<string>, rates: seq<RegionalRates>, gbRates: seq<GBRateCard>,
    whitelist: seq<string>, blacklist: seq<string>)

  /** Parsed job metadata; a field is None when absent or of the wrong type. */
  datatype Metadata = Metadata(
    instance: Option<string>, region: Option<string>, memory: Option<int>, vcpu: Option<int>,
    url: Option<string>, family: Option<string>, debug: Option<bool>)

  /** Decoded logs of one job. `Undecodable` is a known event whose data does not decode. */
  datatype Log =
    | Opened(owner: string, metadata: Option<Metadata>, rate: U256, balance: U256, timestamp: U256)
    | Settled(amount: U256, timestamp: U256)
    | Closed
    | Deposited(amount: U256)
    | Withdrew(amount: U256)
    | ReviseInitiated(rate: U256)
    | ReviseCancelled
    | ReviseFinalized(rate: U256)
    | MetadataUpdated(metadata: Option<Metadata>)
    | Undecodable
    | Unknown

  /** What the chain has said about the job. */
  datatype Terms = Terms(
    balance: U256, lastSettled: nat, rate: U256, originalRate: U256,
    family: string, minRate: U256, bandwidth: nat, eifUrl: string,
    instanceType: string, region: string, reqVcpus: int, reqMem: int, debug: bool)

  /** `JobState`: the terms, the instance last seen, and the infrastructure change scheduled. */
  datatype Job = Job(
    terms: Terms, instanceId: string,
    infraState: bool, infraChangeTime: nat, infraChangeScheduled: bool, eifUpdate: bool)

  function NewTerms(now: nat): Terms {
    Terms(360, now, 1, 1, "salmon", MOD256 - 1, 0, "", "c6a.xlarge", "ap-south-1", 2, 4096, false)
  }

  /** `JobState::new` at time `now`. */
  function NewJob(now: nat): Job {
    Job(NewTerms(now), "", false, now, false, false)
  }

  // ---- solvency ----

  /** Whole seconds the balance pays for, as the code computes them. */
  function PaidSeconds(balance: U256, rate: U256): nat
    requires rate > 0
  {
    Min(Quotient((balance * RATE_SCALE) % MOD256, rate), U64_MAX)
  }

  /** Time left until the job must be shut down. */
  function InsolvencyDuration(j: Terms, now: nat): nat {
    if j.rate == 0 then 0
    else SaturatingSub(SaturatingSub(PaidSeconds(j.balance, j.rate), 300) * SEC, SaturatingSub(now, j.lastSettled))
  }

  // ---- scheduling ----

  function ScheduleLaunch(j: Job, now: nat, delay: nat): Job {
    j.(infraChangeScheduled := true, infraChangeTime := now + delay * SEC, infraState := true)
  }

  function ScheduleTermination(j: Job, now: nat): Job {
    j.(infraChangeScheduled := true, infraChangeTime := now, infraState := false)
  }

  // ---- logs ----

  predicate OwnerAllowed(owner: string, whitelist: seq<string>, blacklist: seq<string>) {
    (whitelist == [] || owner in whitelist) && owner !in blacklist
  }

  /** The first card for the instance in the first entry for the region. */
  function CardRate(cards: seq<RateCard>, instance: string): Option<U256> {
    if cards == [] then None
    else if cards[0].instance == instance then Some(cards[0].minRate)
    else CardRate(cards[1..], instance)
  }

  function FindMinRate(rates: seq<RegionalRates>, region: string, instance: string): Option<U256> {
    if rates == [] then None
    else if rates[0].region == region then CardRate(rates[0].rateCards, instance)
    else FindMinRate(rates[1..], region, instance)
  }

  function FindGBRate(gbRates: seq<GBRateCard>, region: string): Option<GBRateCard> {
    if gbRates == [] then None
    else if gbRates[0].regionCode == region then Some(gbRates[0])
    else FindGBRate(gbRates[1..], region)
  }

  /** Bandwidth bought by what the job pays above the minimum, saturating at every step. */
  function Bandwidth(j: Terms, gbRates: seq<GBRateCard>): nat
    requires j.rate >= j.minRate
  {
    match FindGBRate(gbRates, j.region)
    case None => j.bandwidth
    case Some(card) => Min(Quotient(Min((j.rate - j.minRate) * 0x80_0000, MOD256 - 1), card.rate), U64_MAX)
  }

  /** `t.try_into().unwrap_or(default)` from 64 to 32 bits. */
  function ToI32(t: int, default: int): int { if -0x8000_0000 <= t < 0x8000_0000 then t else default }

  /** JobOpened, up to the point where the metadata is found usable. */
  function OpenMetadata(j: Terms, env: Env, v: Metadata): (Terms, bool) {
    if v.instance.None? then (j, false) else
    var j := j.(instanceType := v.instance.value);
    if v.region.None? then (j, false) else
    var j := j.(region := v.region.value);
    if j.region !in env.allowedRegions then (j, false) else
    if v.memory.None? then (j, false) else
    var j := j.(reqMem := v.memory.value);
    if v.vcpu.None? then (j, false) else
    var j := j.(reqVcpus := ToI32(v.vcpu.value, 0x7FFF_FFFF));
    if v.url.None? then (j, false) else
    var j := j.(eifUrl := v.url.value);
    var j := if v.family.Some? then j.(family := v.family.value) else j;
    var j := if v.debug.Some? then j.(debug := v.debug.value) else j;
    (j, true)
  }

  /** What a log asks of the infrastructure. */
  datatype Verdict = Keep | Launch | Update | Terminate

  /** New terms, verdict and return code: 0 done, -1 end of the stream, -2 unrecoverable, -3
      address not allowed. */
  datatype Judgement = Judgement(terms: Terms, verdict: Verdict, code: int)

  function JudgeOpened(j: Terms, env: Env, log: Log): Judgement
    requires log.Opened?
  {
    var j := j.(balance := log.balance, rate := log.rate, originalRate := log.rate,
                lastSettled := Seconds(log.timestamp));
    if log.metadata.None? then Judgement(j, Keep, -2) else
    var (j, ok) := OpenMetadata(j, env, log.metadata.value);
    if !ok then Judgement(j, Keep, -2) else
    if !OwnerAllowed(log.owner, env.whitelist, env.blacklist) then Judgement(j, Terminate, -3) else
    match FindMinRate(env.rates, j.region, j.instanceType)
    case None => Judgement(j, Keep, -2)
    case Some(minRate) =>
      var j := j.(minRate := minRate);
      if j.rate >= j.minRate then Judgement(j.(bandwidth := Bandwidth(j, env.gbRates)), Launch, 0)
      else Judgement(j, Terminate, 0)
  }

  /** The metadata of an update names the same machine and a new image. */
  predicate UpdateAllowed(j: Terms, v: Metadata) {
    && v.instance == Some(j.instanceType)
    && v.region == Some(j.region)
    && v.memory == Some(j.reqMem)
    && v.vcpu.Some? && j.reqVcpus == ToI32(v.vcpu.value, 2)
    && (v.family.Some? ==> v.family.value == j.family)
    && j.debug == (v.debug.Some? && v.debug.value)
    && v.url.Some? && v.url.value != j.eifUrl
  }

  function JudgeMetadataUpdated(j: Terms, metadata: Option<Metadata>): Judgement {
    if metadata.None? || !UpdateAllowed(j, metadata.value) then Judgement(j, Terminate, -2)
    else Judgement(j.(eifUrl := metadata.value.url.value), Update, 0)
  }

  function Judge(j: Terms, env: Env, log: Option<Log>): Judgement {
    match log
    case None => Judgement(j, Keep, -1)
    case Some(Opened(_, _, _, _, _)) => JudgeOpened(j, env, log.value)
    case Some(Settled(amount, timestamp)) =>
      Judgement(j.(balance := WrapSub(j.balance, amount), lastSettled := Seconds(timestamp)), Keep, 0)
    case Some(Closed) => Judgement(j, Terminate, 0)
    case Some(Deposited(amount)) => Judgement(j.(balance := WrapAdd(j.balance, amount)), Keep, 0)
    case Some(Withdrew(amount)) => Judgement(j.(balance := WrapSub(j.balance, amount)), Keep, 0)
    case Some(ReviseInitiated(rate)) =>
      Judgement(j.(originalRate := j.rate, rate := rate), if rate < j.minRate then Terminate else Keep, 0)
    case Some(ReviseCancelled) => Judgement(j.(rate := j.originalRate), Keep, 0)
    case Some(ReviseFinalized(rate)) =>
      if j.rate != rate then Judgement(j, Keep, -2) else Judgement(j.(originalRate := rate), Keep, 0)
    case Some(MetadataUpdated(metadata)) => JudgeMetadataUpdated(j, metadata)
    case Some(Undecodable) => Judgement(j, Keep, -2)
    case Some(Unknown) => Judgement(j, Keep, -2)
  }

  function Act(j: Job, env: Env, now: nat, verdict: Verdict): Job {
    match verdict
    case Keep => j
    case Launch => ScheduleLaunch(j, now, env.launchDelay)
    case Update => ScheduleLaunch(j.(eifUpdate := true), now, env.launchDelay)
    case Terminate => ScheduleTermination(j, now)
  }

  /** `process_log`: the new state and the return code. */
  function ProcessLog(j: Job, env: Env, now: nat, log: Option<Log>): (Job, int) {
    var g := Judge(j.terms, env, log);
    (Act(j.(terms := g.terms), env, now, g.verdict), g.code)
  }

  /** Processing several logs at once, as a manager does right after it connects; nothing is
      processed after a log that ends the run. */
  function Replay(j: Job, env: Env, now: nat, logs: seq<Log>): (Job, int)
    decreases |logs|
  {
    if logs == [] then (j, 0)
    else
      var (k, res) := Replay(j, env, now, logs[..|logs| - 1]);
      if res == -2 then (k, res) else ProcessLog(k, env, now, Some(logs[|logs| - 1]))
  }
}
