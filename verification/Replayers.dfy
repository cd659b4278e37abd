/** The indexer and the job manager both rebuild a job from the chain's logs, each in its own
    way and from its own selection of events. Here their results are shown to agree. */
module Replayers {
  import opened Bytes
  import opened Market
  import Indexer

  type Event = Indexer.Event
  type Id = Indexer.Id

  /** How metadata text parses; both projects leave this to a JSON library. */
  type Parser = string -> Option<Metadata>

  /** The log a job's manager sees for an event: it is subscribed to the job's own events but not
      to the lock events. */
  function ToManager(parse: Parser, e: Event, id: Id): Option<Log> {
    match e
    case JobOpened(i, owner, _, metadata, rate, balance, timestamp) =>
      if i == id then Some(Opened(owner, parse(metadata), rate, balance, timestamp)) else None
    case JobSettled(i, amount, timestamp) => if i == id then Some(Settled(amount, timestamp)) else None
    case JobClosed(i) => if i == id then Some(Closed) else None
    case JobDeposited(i, amount) => if i == id then Some(Deposited(amount)) else None
    case JobWithdrew(i, amount) => if i == id then Some(Withdrew(amount)) else None
    case JobReviseRateInitiated(i, rate) => if i == id then Some(ReviseInitiated(rate)) else None
    case JobReviseRateCancelled(i) => if i == id then Some(ReviseCancelled) else None
    case JobReviseRateFinalized(i, rate) => if i == id then Some(ReviseFinalized(rate)) else None
    case JobMetadataUpdated(i, metadata) => if i == id then Some(MetadataUpdated(parse(metadata))) else None
    case _ => None
  }

  function ManagerLogs(parse: Parser, logs: seq<Indexer.ChainLog>, id: Id): seq<Log> {
    if logs == [] then []
    else
      var l := ToManager(parse, logs[|logs| - 1].event, id);
      ManagerLogs(parse, logs[..|logs| - 1], id) + (if l.Some? then [l.value] else [])
  }

  /** Where a job stands in the pairing of rate events with rate-lock events; each pair may come
      in either order, and the two lock events of a close before or after it. */
  datatype Phase =
    | NotOpened
    | Steady(pending: Option<U256>)
    | InitiatedFirst(v: U256)
    | LockedFirst(v: U256)
    | CancelledFirst(v: U256)
    | FinalizedFirst(v: U256)
    | UnlockedFirst(v: U256)
    | Ended

  datatype Progress = Progress(phase: Phase, balance: nat)

  function Go(phase: Phase, p: Progress): Option<Progress> { Some(p.(phase := phase)) }

  /** The next position of a well-formed log of job `id`: amounts are covered, timestamps fit in
      64 bits, and rate events pair up with lock events. None where the log is not well-formed. */
  function Advance(p: Progress, e: Event, id: Id): Option<Progress> {
    var running := !p.phase.NotOpened? && !p.phase.Ended?;
    match e
    case JobOpened(i, _, _, _, rate, balance, timestamp) =>
      if i != id then Some(p)
      else if p.phase.NotOpened? && timestamp <= U64_MAX then Some(Progress(Steady(None), balance)) else None
    case JobSettled(i, amount, timestamp) =>
      if i != id then Some(p)
      else if running && amount <= p.balance && timestamp <= U64_MAX then Some(p.(balance := p.balance - amount))
      else None
    case JobDeposited(i, amount) =>
      if i != id then Some(p)
      else if running && p.balance + amount < MOD256 then Some(p.(balance := p.balance + amount)) else None
    case JobWithdrew(i, amount) =>
      if i != id then Some(p)
      else if running && amount <= p.balance then Some(p.(balance := p.balance - amount)) else None
    case JobMetadataUpdated(i, _) => if i != id || running then Some(p) else None
    case JobClosed(i) =>
      if i != id then Some(p)
      else if p.phase.Steady? || p.phase.UnlockedFirst? then Go(Ended, p) else None
    case JobReviseRateInitiated(i, rate) =>
      if i != id then Some(p)
      else if p.phase == Steady(None) then Go(InitiatedFirst(rate), p)
      else if p.phase == LockedFirst(rate) then Go(Steady(Some(rate)), p) else None
    case JobReviseRateCancelled(i) =>
      if i != id then Some(p)
      else if p.phase.Steady? && p.phase.pending.Some? then Go(CancelledFirst(p.phase.pending.value), p)
      else if p.phase.UnlockedFirst? then Go(Steady(None), p) else None
    case JobReviseRateFinalized(i, rate) =>
      if i != id then Some(p)
      else if p.phase == Steady(Some(rate)) then Go(FinalizedFirst(rate), p)
      else if p.phase == UnlockedFirst(rate) then Go(Steady(None), p) else None
    case LockCreated(isRateLock, i, value, _) =>
      if !isRateLock || i != id then Some(p)
      else if p.phase == Steady(None) then Go(LockedFirst(value), p)
      else if p.phase == InitiatedFirst(value) then Go(Steady(Some(value)), p) else None
    case LockDeleted(isRateLock, i) =>
      if !isRateLock || i != id || p.phase == Steady(None) || p.phase.UnlockedFirst? || p.phase.Ended? then Some(p)
      else if p.phase.Steady? then Go(UnlockedFirst(p.phase.pending.value), p)
      else if p.phase.CancelledFirst? || p.phase.FinalizedFirst? then Go(Steady(None), p) else None
    case BadData => None
    case Other => Some(p)
  }

  function Track(logs: seq<Indexer.ChainLog>, id: Id): Option<Progress> {
    if logs == [] then Some(Progress(NotOpened, 0))
    else
      match Track(logs[..|logs| - 1], id)
      case None => None
      case Some(p) => Advance(p, logs[|logs| - 1].event, id)
  }

  // ---- agreement ----

  /** Balance and settlement time agree, and the indexer's committed rate is the manager's
      original rate. */
  predicate SameMoney(m: Terms, row: Indexer.JobRow, balance: nat) {
    m.balance == row.balance == balance && m.lastSettled == row.lastSettled * SEC
  }

  function PendingRate(t: Indexer.Tables, id: Id): Option<int> {
    if id in t.requests then Some(t.requests[id].value) else None
  }

  /** The rates, by phase: what each side holds in and between the halves of a pair. */
  predicate SameRates(phase: Phase, m: Terms, rate: int, pending: Option<int>) {
    match phase
    case NotOpened => pending.None?
    case Steady(None) => m.originalRate == rate && m.rate == rate && pending.None?
    case Steady(Some(v)) => m.originalRate == rate && m.rate == v && pending == Some(v)
    case InitiatedFirst(v) => m.originalRate == rate && m.rate == v && pending.None?
    case LockedFirst(v) => m.originalRate == rate && m.rate == rate && pending == Some(v)
    case CancelledFirst(v) => m.originalRate == rate && m.rate == rate && pending == Some(v)
    case FinalizedFirst(v) => m.originalRate == rate && m.rate == rate && rate == v && pending == Some(v)
    case UnlockedFirst(v) => m.originalRate == rate && m.rate == v && pending.None?
    case Ended => true
  }

  predicate Agree(p: Progress, m: Terms, t: Indexer.Tables, id: Id) {
    if p.phase.NotOpened? then id !in t.jobs && id !in t.requests
    else
      && id in t.jobs && t.jobs[id].isClosed == p.phase.Ended?
      && SameMoney(m, t.jobs[id], p.balance)
      && SameRates(p.phase, m, t.jobs[id].rate, PendingRate(t, id))
  }

  lemma OpeningKeepsMoney(m: Terms, env: Env, v: Metadata)
    ensures
      var n := OpenMetadata(m, env, v).0;
      n.balance == m.balance && n.lastSettled == m.lastSettled && n.rate == m.rate && n.originalRate == m.originalRate
  {
  }

  /** What a manager's log does to balance, settlement time and rates; metadata does nothing. */
  lemma JudgeMoney(m: Terms, env: Env, l: Log)
    requires Judge(m, env, Some(l)).code != -2
    ensures
      var n := Judge(m, env, Some(l)).terms;
      match l
      case Opened(_, _, rate, balance, timestamp) =>
        n.balance == balance && n.lastSettled == Seconds(timestamp) && n.rate == rate && n.originalRate == rate
      case Settled(amount, timestamp) =>
        n.balance == WrapSub(m.balance, amount) && n.lastSettled == Seconds(timestamp)
        && n.rate == m.rate && n.originalRate == m.originalRate
      case Deposited(amount) =>
        n.balance == WrapAdd(m.balance, amount) && n.lastSettled == m.lastSettled
        && n.rate == m.rate && n.originalRate == m.originalRate
      case Withdrew(amount) =>
        n.balance == WrapSub(m.balance, amount) && n.lastSettled == m.lastSettled
        && n.rate == m.rate && n.originalRate == m.originalRate
      case ReviseInitiated(rate) =>
        n.balance == m.balance && n.lastSettled == m.lastSettled && n.rate == rate && n.originalRate == m.rate
      case ReviseCancelled =>
        n.balance == m.balance && n.lastSettled == m.lastSettled && n.rate == n.originalRate == m.originalRate
      case ReviseFinalized(rate) =>
        n.balance == m.balance && n.lastSettled == m.lastSettled && n.rate == n.originalRate == rate == m.rate
      case _ =>
        n.balance == m.balance && n.lastSettled == m.lastSettled && n.rate == m.rate && n.originalRate == m.originalRate
  {
    hide OpenMetadata;
    hide OwnerAllowed;
    hide FindMinRate;
    hide Bandwidth;
    hide UpdateAllowed;
    if l.Opened? && l.metadata.Some? {
      OpeningKeepsMoney(
        m.(balance := l.balance, rate := l.rate, originalRate := l.rate, lastSettled := Seconds(l.timestamp)),
        env, l.metadata.value);
    }
  }

  /** What an event does to the row and the request of one job. */
  lemma RowChange(t: Indexer.Tables, log: Indexer.ChainLog, id: Id)
    requires Indexer.HandleLog(t, log).Some?
    ensures
      var u := Indexer.HandleLog(t, log).value;
      var same := (id in u.jobs <==> id in t.jobs) && (id in t.jobs ==> u.jobs[id] == t.jobs[id]);
      var quiet := PendingRate(u, id) == PendingRate(t, id);
      match log.event
      case JobOpened(i, _, _, _, rate, balance, timestamp) =>
        quiet && (if i != id then same
                  else id in u.jobs && !u.jobs[id].isClosed && u.jobs[id].rate == rate && u.jobs[id].balance == balance
                       && u.jobs[id].lastSettled == Indexer.LowLimb(timestamp))
      case JobSettled(i, amount, timestamp) =>
        quiet && (if i != id then same
                  else Indexer.Open(t, id) && id in u.jobs
                       && u.jobs[id] == t.jobs[id].(balance := t.jobs[id].balance - amount,
                                                    lastSettled := Indexer.LowLimb(timestamp)))
      case JobDeposited(i, amount) =>
        quiet && (if i != id then same
                  else Indexer.Open(t, id) && id in u.jobs
                       && u.jobs[id] == t.jobs[id].(balance := t.jobs[id].balance + amount))
      case JobWithdrew(i, amount) =>
        quiet && (if i != id then same
                  else Indexer.Open(t, id) && id in u.jobs
                       && u.jobs[id] == t.jobs[id].(balance := t.jobs[id].balance - amount))
      case JobClosed(i) =>
        quiet && (if i != id then same else id in u.jobs && id in t.jobs && u.jobs[id] == t.jobs[id].(isClosed := true))
      case JobReviseRateFinalized(i, rate) =>
        quiet && (if i != id then same else id in u.jobs && id in t.jobs && u.jobs[id] == t.jobs[id].(rate := rate))
      case JobMetadataUpdated(i, text) =>
        quiet && (if i != id then same else id in u.jobs && id in t.jobs && u.jobs[id] == t.jobs[id].(metadata := text))
      case LockCreated(isRateLock, i, value, _) =>
        same && (if isRateLock && i == id then PendingRate(u, id) == Some(value) else quiet)
      case LockDeleted(isRateLock, i) =>
        same && (if isRateLock && i == id then PendingRate(u, id).None? else quiet)
      case _ => same && quiet
  {
    hide Indexer.HasTransaction;
  }

  /** One event of the chain keeps the two sides in agreement, pair by pair. */
  lemma EventKeepsAgreement(p: Progress, m: Terms, t: Indexer.Tables, log: Indexer.ChainLog,
                            id: Id, parse: Parser, env: Env)
    requires Agree(p, m, t, id)
    requires Advance(p, log.event, id).Some? && Indexer.HandleLog(t, log).Some?
    requires var l := ToManager(parse, log.event, id); l.Some? ==> Judge(m, env, l).code != -2
    ensures
      var l := ToManager(parse, log.event, id);
      Agree(Advance(p, log.event, id).value, if l.Some? then Judge(m, env, l).terms else m,
            Indexer.HandleLog(t, log).value, id)
  {
    hide Judge;
    hide Indexer.HandleLog;
    RowChange(t, log, id);
    var l := ToManager(parse, log.event, id);
    if l.Some? {
      JudgeMoney(m, env, l.value);
    }
  }

  /** The two replayers agree. For every log of the whole market that the indexer accepts and
      that is well-formed for a job whose manager does not give up on it: balance and settlement
      time are the same, and whenever the rate events are paired the indexer's rate is the
      manager's original rate, while the manager's rate is the pending request if there is one. */
  lemma {:induction false} ReplayersAgree(
    logs: seq<Indexer.ChainLog>, id: Id, parse: Parser, env: Env, start: nat, now: nat)
    requires Track(logs, id).Some?
    requires Indexer.Fold(Indexer.EMPTY, logs).Some?
    requires Replay(NewJob(start), env, now, ManagerLogs(parse, logs, id)).1 != -2
    ensures
      Agree(Track(logs, id).value, Replay(NewJob(start), env, now, ManagerLogs(parse, logs, id)).0.terms,
            Indexer.Fold(Indexer.EMPTY, logs).value, id)
    decreases |logs|
  {
    if logs != [] {
      var n := |logs| - 1;
      var before, mine := ManagerLogs(parse, logs[..n], id), ManagerLogs(parse, logs, id);
      var l := ToManager(parse, logs[n].event, id);
      if l.Some? {
        assert mine[..|mine| - 1] == before && mine[|mine| - 1] == l.value;
      } else {
        assert mine == before;
      }
      ReplayersAgree(logs[..n], id, parse, env, start, now);
      EventKeepsAgreement(
        Track(logs[..n], id).value, Replay(NewJob(start), env, now, before).0.terms,
        Indexer.Fold(Indexer.EMPTY, logs[..n]).value, logs[n], id, parse, env);
    }
  }

  /** The statement for an open job between pairs, written out. */
  lemma AgreementBetweenPairs(
    logs: seq<Indexer.ChainLog>, id: Id, parse: Parser, env: Env, start: nat, now: nat)
    requires Track(logs, id).Some? && Track(logs, id).value.phase.Steady?
    requires Indexer.Fold(Indexer.EMPTY, logs).Some?
    requires Replay(NewJob(start), env, now, ManagerLogs(parse, logs, id)).1 != -2
    ensures
      var m := Replay(NewJob(start), env, now, ManagerLogs(parse, logs, id)).0.terms;
      var t := Indexer.Fold(Indexer.EMPTY, logs).value;
      && id in t.jobs && !t.jobs[id].isClosed
      && m.balance == t.jobs[id].balance
      && m.lastSettled == t.jobs[id].lastSettled * SEC
      && m.originalRate == t.jobs[id].rate
      && m.rate == (if id in t.requests then t.requests[id].value else t.jobs[id].rate)
  {
    ReplayersAgree(logs, id, parse, env, start, now);
  }

  /** The two sides read a timestamp alike exactly when it fits in 64 bits, up to the one
      residue that the manager's saturation also gives. */
  lemma TimestampsAgreeExactly(timestamp: U256)
    ensures Seconds(timestamp) == Indexer.LowLimb(timestamp) * SEC
            <==> timestamp <= U64_MAX || timestamp % 0x1_0000_0000_0000_0000 == U64_MAX
  {
  }
}
