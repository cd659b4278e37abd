/** Which logs kill a job, which revive it and which make its manager give up, by what can be
    checked before the log is processed (operator/control-plane/src/market.rs:862-1236). */
module Verdicts {
  import opened Bytes
  import opened Market

  /** The metadata of a JobOpened names all that is needed, in a region served. */
  predicate Usable(env: Env, metadata: Option<Metadata>) {
    && metadata.Some?
    && var v := metadata.value;
       && v.instance.Some? && v.region.Some? && v.region.value in env.allowedRegions
       && v.memory.Some? && v.vcpu.Some? && v.url.Some?
  }

  /** The minimum rate of the machine named, if there is one. */
  function Price(env: Env, metadata: Option<Metadata>): Option<U256>
    requires Usable(env, metadata)
  {
    FindMinRate(env.rates, metadata.value.region.value, metadata.value.instance.value)
  }

  predicate Refused(t: Terms, metadata: Option<Metadata>) {
    metadata.None? || !UpdateAllowed(t, metadata.value)
  }

  /** The manager cannot go on after this log. */
  predicate GivesUp(t: Terms, env: Env, log: Log) {
    match log
    case Opened(owner, metadata, _, _, _) =>
      !Usable(env, metadata)
      || (OwnerAllowed(owner, env.whitelist, env.blacklist) && Price(env, metadata).None?)
    case ReviseFinalized(rate) => t.rate != rate
    case MetadataUpdated(metadata) => Refused(t, metadata)
    case Undecodable => true
    case Unknown => true
    case _ => false
  }

  /** This log schedules a termination. */
  predicate Kills(t: Terms, env: Env, log: Log) {
    match log
    case Opened(owner, metadata, rate, _, _) =>
      && Usable(env, metadata)
      && (OwnerAllowed(owner, env.whitelist, env.blacklist) ==>
            Price(env, metadata).Some? && rate < Price(env, metadata).value)
    case Closed => true
    case ReviseInitiated(rate) => rate < t.minRate
    case MetadataUpdated(metadata) => Refused(t, metadata)
    case _ => false
  }

  /** This log schedules a launch. */
  predicate Revives(t: Terms, env: Env, log: Log) {
    match log
    case Opened(owner, metadata, rate, _, _) =>
      && Usable(env, metadata)
      && OwnerAllowed(owner, env.whitelist, env.blacklist)
      && Price(env, metadata).Some? && rate >= Price(env, metadata).value
    case MetadataUpdated(metadata) => !Refused(t, metadata)
    case _ => false
  }

  lemma OpenMetadataExactly(t: Terms, env: Env, v: Metadata)
    ensures OpenMetadata(t, env, v).1 <==> Usable(env, Some(v))
    ensures Usable(env, Some(v)) ==>
              OpenMetadata(t, env, v).0.region == v.region.value
              && OpenMetadata(t, env, v).0.instanceType == v.instance.value
    ensures OpenMetadata(t, env, v).0.rate == t.rate && OpenMetadata(t, env, v).0.minRate == t.minRate
  {
  }

  /** What a log asks for and whether the manager goes on, by the guards alone. */
  lemma JudgeExactly(t: Terms, env: Env, log: Log)
    ensures var g := Judge(t, env, Some(log));
      && (g.verdict.Terminate? <==> Kills(t, env, log))
      && (g.verdict.Launch? || g.verdict.Update? <==> Revives(t, env, log))
      && (g.code == -2 <==> GivesUp(t, env, log))
      && g.code != -1
  {
    hide OpenMetadata;
    hide Bandwidth;
    hide FindMinRate;
    hide OwnerAllowed;
    hide UpdateAllowed;
    hide Usable;
    if log.Opened? && log.metadata.Some? {
      var u := t.(balance := log.balance, rate := log.rate, originalRate := log.rate,
                  lastSettled := Seconds(log.timestamp));
      OpenMetadataExactly(u, env, log.metadata.value);
    } else if log.Opened? {
      assert !Usable(env, log.metadata) by { NoMetadata(env); }
    }
  }

  lemma NoMetadata(env: Env)
    ensures !Usable(env, None)
  {
  }

  /** A log that schedules a termination and ends the manager at once, so that nobody carries it
      out, is exactly a refused JobMetadataUpdated. */
  lemma KillsAndGivesUpExactly(t: Terms, env: Env, log: Log)
    ensures var g := Judge(t, env, Some(log));
      g.verdict.Terminate? && g.code == -2 <==> log.MetadataUpdated? && Refused(t, log.metadata)
  {
    hide Judge;
    hide OwnerAllowed;
    hide UpdateAllowed;
    JudgeExactly(t, env, log);
  }

  // ---- Several logs at once ------------------------------------------------------------------------

  /** The terms that the `i`-th of `logs` meets. */
  function TermsAt(j: Job, env: Env, now: nat, logs: seq<Log>, i: nat): Terms
    requires i <= |logs|
  {
    Replay(j, env, now, logs[..i]).0.terms
  }

  /** The `i`-th log is reached: the manager gave up on none before it. */
  predicate Reached(j: Job, env: Env, now: nat, logs: seq<Log>, i: nat)
    requires i <= |logs|
  {
    forall k :: 0 <= k < i ==> !GivesUp(TermsAt(j, env, now, logs, k), env, logs[k])
  }

  predicate KillsAt(j: Job, env: Env, now: nat, logs: seq<Log>, i: nat)
    requires i < |logs|
  {
    Reached(j, env, now, logs, i) && Kills(TermsAt(j, env, now, logs, i), env, logs[i])
  }

  predicate RevivesAt(j: Job, env: Env, now: nat, logs: seq<Log>, i: nat)
    requires i < |logs|
  {
    Reached(j, env, now, logs, i) && Revives(TermsAt(j, env, now, logs, i), env, logs[i])
  }

  /** The last word on the intent is a revival: none of the logs after it kills. */
  ghost predicate RevivedLast(j: Job, env: Env, now: nat, logs: seq<Log>, from: nat) {
    exists m :: from <= m < |logs| && RevivesAt(j, env, now, logs, m)
                && forall i :: m < i < |logs| ==> !KillsAt(j, env, now, logs, i)
  }

  lemma PrefixesAgree(j: Job, env: Env, now: nat, logs: seq<Log>, n: nat)
    requires n <= |logs|
    ensures forall i :: 0 <= i <= n ==> Reached(j, env, now, logs, i) == Reached(j, env, now, logs[..n], i)
    ensures forall i :: 0 <= i < n ==> KillsAt(j, env, now, logs, i) == KillsAt(j, env, now, logs[..n], i)
    ensures forall i :: 0 <= i < n ==> RevivesAt(j, env, now, logs, i) == RevivesAt(j, env, now, logs[..n], i)
  {
    hide Replay;
    hide GivesUp;
    hide Kills;
    hide Revives;
    assert forall i :: 0 <= i <= n ==> logs[..n][..i] == logs[..i];
    assert forall i :: 0 <= i <= n ==> TermsAt(j, env, now, logs, i) == TermsAt(j, env, now, logs[..n], i);
  }

  /** A replay goes on exactly as long as no log makes the manager give up. */
  lemma {:induction false} ReplayReaches(j: Job, env: Env, now: nat, logs: seq<Log>)
    ensures Replay(j, env, now, logs).1 != -2 <==> Reached(j, env, now, logs, |logs|)
    decreases |logs|
  {
    hide ProcessLog;
    if logs != [] {
      var n := |logs| - 1;
      ReplayReaches(j, env, now, logs[..n]);
      PrefixesAgree(j, env, now, logs, n);
      var k := Replay(j, env, now, logs[..n]).0;
      JudgeExactly(k.terms, env, logs[n]);
      ProcessLogIs(k, env, now, logs[n]);
    }
  }

  lemma ProcessLogIs(j: Job, env: Env, now: nat, log: Log)
    ensures var g := Judge(j.terms, env, Some(log));
      && ProcessLog(j, env, now, Some(log)).1 == g.code
      && ProcessLog(j, env, now, Some(log)).0.terms == g.terms
      && ProcessLog(j, env, now, Some(log)).0.infraState
         == (if g.verdict.Keep? then j.infraState else !g.verdict.Terminate?)
  {
    hide Judge;
  }

  lemma NotBoth(j: Job, env: Env, now: nat, logs: seq<Log>, i: nat)
    requires i < |logs|
    ensures !(KillsAt(j, env, now, logs, i) && RevivesAt(j, env, now, logs, i))
  {
    hide Reached;
    hide Kills;
    hide Revives;
    KillsOrRevives(TermsAt(j, env, now, logs, i), env, logs[i]);
  }

  lemma KillsOrRevives(t: Terms, env: Env, log: Log)
    ensures !(Kills(t, env, log) && Revives(t, env, log))
  {
  }

  /** The last of the logs decides if it kills or revives, and otherwise leaves the last word. */
  lemma LastWord(j: Job, env: Env, now: nat, logs: seq<Log>)
    requires logs != []
    ensures var n := |logs| - 1;
      && (KillsAt(j, env, now, logs, n) ==> !RevivedLast(j, env, now, logs, 0))
      && (RevivesAt(j, env, now, logs, n) ==> RevivedLast(j, env, now, logs, 0))
      && (!KillsAt(j, env, now, logs, n) && !RevivesAt(j, env, now, logs, n) ==>
            (RevivedLast(j, env, now, logs, 0) <==> RevivedLast(j, env, now, logs[..n], 0)))
  {
    hide KillsAt;
    hide RevivesAt;
    var n := |logs| - 1;
    PrefixesAgree(j, env, now, logs, n);
    NotBoth(j, env, now, logs, n);
    if !KillsAt(j, env, now, logs, n) {
      LastWordKept(j, env, now, logs);
    }
    if !RevivesAt(j, env, now, logs, n) && RevivedLast(j, env, now, logs, 0) {
      var m :| 0 <= m < |logs| && RevivesAt(j, env, now, logs, m)
               && forall i :: m < i < |logs| ==> !KillsAt(j, env, now, logs, i);
      assert m < n && RevivesAt(j, env, now, logs[..n], m);
    }
  }

  lemma LastWordKept(j: Job, env: Env, now: nat, logs: seq<Log>)
    requires logs != [] && !KillsAt(j, env, now, logs, |logs| - 1)
    ensures RevivedLast(j, env, now, logs[..|logs| - 1], 0) ==> RevivedLast(j, env, now, logs, 0)
  {
    hide KillsAt;
    hide RevivesAt;
    var n := |logs| - 1;
    PrefixesAgree(j, env, now, logs, n);
    if RevivedLast(j, env, now, logs[..n], 0) {
      var m :| 0 <= m < n && RevivesAt(j, env, now, logs[..n], m)
               && forall i :: m < i < n ==> !KillsAt(j, env, now, logs[..n], i);
      assert RevivesAt(j, env, now, logs, m);
    }
  }

  /** Whether a job is to run after any logs at once: only if the last killing or reviving log
      among them revives it, or there is none and it was to run before. */
  lemma {:induction false} ReplayIntent(j: Job, env: Env, now: nat, logs: seq<Log>)
    ensures Replay(j, env, now, logs).0.infraState
       <==> RevivedLast(j, env, now, logs, 0)
            || (j.infraState && forall i :: 0 <= i < |logs| ==> !KillsAt(j, env, now, logs, i))
    decreases |logs|
  {
    hide ProcessLog;
    hide Kills;
    hide Revives;
    hide GivesUp;
    if logs != [] {
      var n := |logs| - 1;
      ReplayIntent(j, env, now, logs[..n]);
      ReplayReaches(j, env, now, logs[..n]);
      PrefixesAgree(j, env, now, logs, n);
      var k := Replay(j, env, now, logs[..n]).0;
      JudgeExactly(k.terms, env, logs[n]);
      ProcessLogIs(k, env, now, logs[n]);
      LastWord(j, env, now, logs);
      hide RevivedLast;
      assert RevivesAt(j, env, now, logs, n) || KillsAt(j, env, now, logs, n)
             || Replay(j, env, now, logs).0.infraState == k.infraState;
    }
  }

  /** The promise that a job is killed for good by any log that kills it, however many are processed
      at once, fails exactly when a later log revives it and none after that kills it. */
  lemma KilledForGoodUnlessRevived(j: Job, env: Env, now: nat, logs: seq<Log>, k: nat)
    requires k < |logs| && KillsAt(j, env, now, logs, k)
    ensures Replay(j, env, now, logs).0.infraState <==> RevivedLast(j, env, now, logs, k + 1)
  {
    hide Replay;
    hide Kills;
    hide Revives;
    ReplayIntent(j, env, now, logs);
    NotBoth(j, env, now, logs, k);
    hide KillsAt;
    hide RevivesAt;
  }
}
