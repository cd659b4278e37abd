/** What the chain guarantees of its log is enough: the indexer accepts every event, and the manager of a
    job gives up on none but a JobOpened or a JobMetadataUpdated. */
module WellFormedLogs {
  import opened Bytes
  import opened Market
  import opened Verdicts
  import opened Replayers
  import Indexer
  import JobManager

  /** Every job's events are well-formed and no two logs have the same place. */
  ghost predicate WellFormed(logs: seq<Indexer.ChainLog>) {
    && (forall id: Id :: Track(logs, id).Some?)
    && (forall i, j :: 0 <= i < j < |logs| ==> (logs[i].block, logs[i].idx) != (logs[j].block, logs[j].idx))
  }

  /** The job an event is about. */
  function Subject(e: Event): Id {
    match e
    case JobOpened(id, _, _, _, _, _, _) => id
    case JobSettled(id, _, _) => id
    case JobClosed(id) => id
    case JobDeposited(id, _) => id
    case JobWithdrew(id, _) => id
    case JobReviseRateInitiated(id, _) => id
    case JobReviseRateCancelled(id) => id
    case JobReviseRateFinalized(id, _) => id
    case JobMetadataUpdated(id, _) => id
    case LockCreated(_, id, _, _) => id
    case LockDeleted(_, id) => id
    case BadData => 0
    case Other => 0
  }

  /** The events of a close: JobClosed and two LockDeleted, of locks of any kind. */
  predicate IsClose(close: seq<Indexer.ChainLog>, id: Id) {
    && |close| == 3
    && (forall i :: 0 <= i < 3 ==> Subject(close[i].event) == id)
    && exists i :: 0 <= i < 3 && close[i].event.JobClosed?
                   && forall k :: 0 <= k < 3 && k != i ==> close[k].event.LockDeleted?
  }

  lemma TrackSnoc(logs: seq<Indexer.ChainLog>, log: Indexer.ChainLog, id: Id)
    ensures Track(logs + [log], id)
         == (if Track(logs, id).None? then None else Advance(Track(logs, id).value, log.event, id))
  {
    assert (logs + [log])[..|logs|] == logs;
  }

  /** In whatever order its events come, a close ends the job and concerns no other. */
  lemma CloseInAnyOrder(logs: seq<Indexer.ChainLog>, close: seq<Indexer.ChainLog>, id: Id, other: Id)
    requires IsClose(close, id) && Track(logs, id).Some? && Track(logs, id).value.phase.Steady?
    requires Track(logs, other).Some?
    ensures Track(logs + close, other)
         == (if other == id then Some(Track(logs, id).value.(phase := Ended)) else Track(logs, other))
  {
    TrackSnoc(logs, close[0], other);
    TrackSnoc(logs + [close[0]], close[1], other);
    TrackSnoc(logs + [close[0]] + [close[1]], close[2], other);
    assert logs + close == logs + [close[0]] + [close[1]] + [close[2]];
    hide Track;
  }

  /** So a well-formed log of the market stays well-formed under every order of a close. */
  lemma ClosesAreWellFormed(logs: seq<Indexer.ChainLog>, close: seq<Indexer.ChainLog>, id: Id)
    requires WellFormed(logs) && Track(logs, id).value.phase.Steady? && IsClose(close, id)
    requires var all := logs + close;
      forall i, j :: 0 <= i < j < |all| ==> (all[i].block, all[i].idx) != (all[j].block, all[j].idx)
    ensures WellFormed(logs + close) && Track(logs + close, id).value.phase.Ended?
  {
    hide IsClose;
    hide Track;
    forall other: Id ensures Track(logs + close, other).Some? {
      assert Track(logs, id).Some? && Track(logs, other).Some?;
      CloseInAnyOrder(logs, close, id, other);
    }
    assert Track(logs, id).Some?;
    CloseInAnyOrder(logs, close, id, id);
  }

  // ---- The indexer ---------------------------------------------------------------------------------

  predicate HasRequest(phase: Phase) {
    (phase.Steady? && phase.pending.Some?) || phase.LockedFirst? || phase.CancelledFirst? || phase.FinalizedFirst?
  }

  /** The rows of a job at this point of its events. */
  predicate Shape(p: Progress, t: Indexer.Tables, id: Id) {
    && (id in t.jobs <==> !p.phase.NotOpened?)
    && (id in t.jobs ==> (t.jobs[id].isClosed <==> p.phase.Ended?))
    && (!p.phase.Ended? ==> (PendingRate(t, id).Some? <==> HasRequest(p.phase)))
  }

  /** The row was made by one of the logs. */
  predicate KeyIn(row: Indexer.Transaction, logs: seq<Indexer.ChainLog>) {
    exists k :: 0 <= k < |logs| && row.block == logs[k].block && row.idx == logs[k].idx
  }

  /** Transactions are keyed by the logs that made them. */
  ghost predicate KeyedBy(t: Indexer.Tables, logs: seq<Indexer.ChainLog>) {
    forall i :: 0 <= i < |t.transactions| ==> KeyIn(t.transactions[i], logs)
  }

  lemma EventIsAccepted(p: Progress, t: Indexer.Tables, log: Indexer.ChainLog)
    requires Shape(p, t, Subject(log.event)) && Advance(p, log.event, Subject(log.event)).Some?
    requires !Indexer.HasTransaction(t, log.block, log.idx)
    ensures Indexer.HandleLog(t, log).Some?
  {
    hide Indexer.HasTransaction;
    if log.event.JobOpened? || log.event.JobDeposited? || log.event.JobWithdrew? {
      AddedRows(t, log);
    }
  }

  lemma AddedRows(t: Indexer.Tables, log: Indexer.ChainLog)
    ensures forall u: Indexer.Tables :: u.transactions == t.transactions ==>
              Indexer.HasTransaction(u, log.block, log.idx) == Indexer.HasTransaction(t, log.block, log.idx)
  {
  }

  lemma ShapeIsKept(p: Progress, t: Indexer.Tables, log: Indexer.ChainLog, id: Id)
    requires Shape(p, t, id) && Advance(p, log.event, id).Some? && Indexer.HandleLog(t, log).Some?
    ensures Shape(Advance(p, log.event, id).value, Indexer.HandleLog(t, log).value, id)
  {
    RowChange(t, log, id);
    hide Indexer.HandleLog;
  }

  lemma KeysAreKept(t: Indexer.Tables, logs: seq<Indexer.ChainLog>, log: Indexer.ChainLog)
    requires KeyedBy(t, logs) && Indexer.HandleLog(t, log).Some?
    ensures KeyedBy(Indexer.HandleLog(t, log).value, logs + [log])
  {
    var u := Indexer.HandleLog(t, log).value;
    NewRow(t, log);
    hide Indexer.HandleLog;
    forall i | 0 <= i < |u.transactions| ensures KeyIn(u.transactions[i], logs + [log]) {
      var row := u.transactions[i];
      if i < |t.transactions| {
        assert row == t.transactions[i] && KeyIn(t.transactions[i], logs);
        var k :| 0 <= k < |logs| && row.block == logs[k].block && row.idx == logs[k].idx;
        assert (logs + [log])[k] == logs[k];
      } else {
        assert (logs + [log])[|logs|] == log;
      }
    }
  }

  lemma NewRow(t: Indexer.Tables, log: Indexer.ChainLog)
    requires Indexer.HandleLog(t, log).Some?
    ensures var u := Indexer.HandleLog(t, log).value;
      && t.transactions <= u.transactions
      && forall i :: |t.transactions| <= i < |u.transactions| ==>
           u.transactions[i].block == log.block && u.transactions[i].idx == log.idx
  {
    hide Indexer.HasTransaction;
  }

  lemma PrefixIsWellFormed(logs: seq<Indexer.ChainLog>)
    requires WellFormed(logs) && logs != []
    ensures WellFormed(logs[..|logs| - 1])
  {
    hide Advance;
    var front := logs[..|logs| - 1];
    forall id: Id ensures Track(front, id).Some? {
      assert Track(logs, id).Some?;
    }
  }

  /** The indexer accepts every well-formed log of the market, with each job's rows where its events
      have got to. */
  lemma {:induction false} IndexerAccepts(logs: seq<Indexer.ChainLog>)
    requires WellFormed(logs)
    ensures Indexer.Fold(Indexer.EMPTY, logs).Some?
    ensures KeyedBy(Indexer.Fold(Indexer.EMPTY, logs).value, logs)
    ensures forall id: Id :: Shape(Track(logs, id).value, Indexer.Fold(Indexer.EMPTY, logs).value, id)
    decreases |logs|
  {
    if logs != [] {
      var n := |logs| - 1;
      PrefixIsWellFormed(logs);
      IndexerAccepts(logs[..n]);
      var t, log := Indexer.Fold(Indexer.EMPTY, logs[..n]).value, logs[n];
      assert Track(logs, Subject(log.event)).Some?;
      FreshKey(t, logs);
      EventIsAccepted(Track(logs[..n], Subject(log.event)).value, t, log);
      KeysAreKept(t, logs[..n], log);
      assert logs[..n] + [log] == logs;
      forall id: Id ensures Shape(Track(logs, id).value, Indexer.HandleLog(t, log).value, id) {
        assert Track(logs, id).Some?;
        ShapeIsKept(Track(logs[..n], id).value, t, log, id);
      }
    }
  }

  lemma FreshKey(t: Indexer.Tables, logs: seq<Indexer.ChainLog>)
    requires WellFormed(logs) && logs != [] && KeyedBy(t, logs[..|logs| - 1])
    ensures !Indexer.HasTransaction(t, logs[|logs| - 1].block, logs[|logs| - 1].idx)
  {
    hide Track;
    var n := |logs| - 1;
    forall i | 0 <= i < |t.transactions|
      ensures (t.transactions[i].block, t.transactions[i].idx) != (logs[n].block, logs[n].idx)
    {
      var row := t.transactions[i];
      assert KeyIn(row, logs[..n]);
      var k :| 0 <= k < n && row.block == logs[..n][k].block && row.idx == logs[..n][k].idx;
      assert (logs[k].block, logs[k].idx) != (logs[n].block, logs[n].idx);
    }
  }

  // ---- The manager -----------------------------------------------------------------------------------

  /** The manager gives up on no JobOpened and no JobMetadataUpdated of the job. */
  predicate Manageable(parse: Parser, env: Env, start: nat, now: nat, logs: seq<Indexer.ChainLog>, id: Id) {
    var mine := ManagerLogs(parse, logs, id);
    forall i :: 0 <= i < |mine| && (mine[i].Opened? || mine[i].MetadataUpdated?) ==>
      !GivesUp(TermsAt(NewJob(start), env, now, mine, i), env, mine[i])
  }

  lemma ManagerLogsSnoc(parse: Parser, logs: seq<Indexer.ChainLog>, id: Id)
    requires logs != []
    ensures var n, l := |logs| - 1, ToManager(parse, logs[|logs| - 1].event, id);
      var before, mine := ManagerLogs(parse, logs[..n], id), ManagerLogs(parse, logs, id);
      && before <= mine
      && (l.None? ==> mine == before)
      && (l.Some? ==> mine[..|mine| - 1] == before && mine != [] && mine[|mine| - 1] == l.value)
  {
  }

  lemma PrefixIsManageable(parse: Parser, env: Env, start: nat, now: nat, logs: seq<Indexer.ChainLog>, id: Id)
    requires Manageable(parse, env, start, now, logs, id) && logs != []
    ensures Manageable(parse, env, start, now, logs[..|logs| - 1], id)
  {
    hide GivesUp;
    hide Replay;
    ManagerLogsSnoc(parse, logs, id);
    var before, mine := ManagerLogs(parse, logs[..|logs| - 1], id), ManagerLogs(parse, logs, id);
    hide ManagerLogs;
    assert forall i :: 0 <= i < |before| ==> before[i] == mine[i] && before[..i] == mine[..i];
    assert forall i :: 0 <= i < |before| ==>
      TermsAt(NewJob(start), env, now, before, i) == TermsAt(NewJob(start), env, now, mine, i);
  }

  /** A finalization on a well-formed log confirms the rate the manager holds, and no other event of
      the job makes it give up. */
  lemma OtherEventsGoOn(p: Progress, m: Terms, t: Indexer.Tables, e: Event, id: Id, parse: Parser, env: Env)
    requires Agree(p, m, t, id) && Advance(p, e, id).Some?
    ensures var l := ToManager(parse, e, id);
      l.Some? && !l.value.Opened? && !l.value.MetadataUpdated? ==> !GivesUp(m, env, l.value)
  {
  }

  /** The manager of a manageable job never ends with -2 on a well-formed log. */
  lemma {:induction false} ManagerGoesOn(
    logs: seq<Indexer.ChainLog>, id: Id, parse: Parser, env: Env, start: nat, now: nat)
    requires WellFormed(logs) && Manageable(parse, env, start, now, logs, id)
    ensures Replay(NewJob(start), env, now, ManagerLogs(parse, logs, id)).1 != -2
    decreases |logs|
  {
    hide Advance;
    hide Agree;
    hide ToManager;
    hide GivesUp;
    hide Market.ProcessLog;
    if logs != [] {
      var n := |logs| - 1;
      var before, mine := ManagerLogs(parse, logs[..n], id), ManagerLogs(parse, logs, id);
      PrefixIsWellFormed(logs);
      PrefixIsManageable(parse, env, start, now, logs, id);
      ManagerGoesOn(logs[..n], id, parse, env, start, now);
      IndexerAccepts(logs[..n]);
      assert Track(logs[..n], id).Some? && Track(logs, id).Some?;
      ReplayersAgree(logs[..n], id, parse, env, start, now);
      ManagerLogsSnoc(parse, logs, id);
      var k := Replay(NewJob(start), env, now, before).0;
      var l := ToManager(parse, logs[n].event, id);
      if l.Some? {
        OtherEventsGoOn(Track(logs[..n], id).value, k.terms,
                        Indexer.Fold(Indexer.EMPTY, logs[..n]).value, logs[n].event, id, parse, env);
        assert TermsAt(NewJob(start), env, now, mine, |before|) == k.terms;
        JudgeExactly(k.terms, env, l.value);
        ProcessLogIs(k, env, now, l.value);
      }
    }
  }

  /** On every well-formed log of the market, for every manageable job between pairs: indexer and manager
      agree on balance, settlement time and both rates. */
  lemma WellFormedLogsAgree(
    logs: seq<Indexer.ChainLog>, id: Id, parse: Parser, env: Env, start: nat, now: nat)
    requires WellFormed(logs) && Manageable(parse, env, start, now, logs, id)
    requires Track(logs, id).value.phase.Steady?
    ensures Indexer.Fold(Indexer.EMPTY, logs).Some?
    ensures
      var m := Replay(NewJob(start), env, now, ManagerLogs(parse, logs, id)).0.terms;
      var t := Indexer.Fold(Indexer.EMPTY, logs).value;
      && id in t.jobs && !t.jobs[id].isClosed
      && m.balance == t.jobs[id].balance
      && m.lastSettled == t.jobs[id].lastSettled * SEC
      && m.originalRate == t.jobs[id].rate
      && m.rate == (if id in t.requests then t.requests[id].value else t.jobs[id].rate)
  {
    IndexerAccepts(logs);
    ManagerGoesOn(logs, id, parse, env, start, now);
    AgreementBetweenPairs(logs, id, parse, env, start, now);
  }

  /** And so does a manager at work, at every point of every run, whatever timed out, failed or made it
      start over, once it has taken the job's logs without giving up on one. */
  lemma LiveManagerAgrees(
    logs: seq<Indexer.ChainLog>, id: Id, parse: Parser, env: Env,
    ws: seq<JobManager.World>, es: seq<JobManager.Event>, n: nat)
    requires JobManager.Run(env, ws, es) && n <= |es|
    requires ws[0].job == NewJob(ws[0].now) && ws[0].exit.None? && ws[n].exit != Some(-2)
    requires WellFormed(logs) && JobManager.LogsTaken(ws, es, n) == ManagerLogs(parse, logs, id)
    ensures Indexer.Fold(Indexer.EMPTY, logs).Some?
    ensures Agree(Track(logs, id).value, ws[n].job.terms, Indexer.Fold(Indexer.EMPTY, logs).value, id)
    ensures Track(logs, id).value.phase.Steady? ==>
              var m, t := ws[n].job.terms, Indexer.Fold(Indexer.EMPTY, logs).value;
              && id in t.jobs && !t.jobs[id].isClosed
              && m.balance == t.jobs[id].balance
              && m.lastSettled == t.jobs[id].lastSettled * SEC
              && m.originalRate == t.jobs[id].rate
              && m.rate == (if id in t.requests then t.requests[id].value else t.jobs[id].rate)
  {
    var start := JobManager.StartedAt(ws, n);
    JobManager.RunIsReplay(env, ws, es, n, start);
    hide JobManager.Run;
    hide JobManager.LogsTaken;
    IndexerAccepts(logs);
    assert Track(logs, id).Some?;
    ReplayersAgree(logs, id, parse, env, start, start);
    if Track(logs, id).value.phase.Steady? {
      AgreementBetweenPairs(logs, id, parse, env, start, start);
    }
  }
}
