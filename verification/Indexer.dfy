/** The market indexer's tables, what each log does to them, and the batched loop that keeps
    them equal to a fold of the chain's logs. */
module Indexer {
  import opened Bytes
  import opened Market

  type Id = nat

  datatype JobRow = JobRow(
    metadata: string, owner: string, provider: string, rate: int, balance: int,
    lastSettled: nat, created: nat, isClosed: bool)

  datatype Transaction = Transaction(block: nat, idx: nat, job: Id, amount: int, isDeposit: bool)

  datatype Request = Request(value: int, updatesAt: nat)

  /** The tables a log can change; rows of `transactions` in the order they were inserted. */
  datatype Tables = Tables(jobs: map<Id, JobRow>, transactions: seq<Transaction>, requests: map<Id, Request>)

  datatype Event =
    | JobOpened(id: Id, owner: string, provider: string, metadata: string, rate: U256, balance: U256, timestamp: U256)
    | JobSettled(id: Id, amount: U256, timestamp: U256)
    | JobClosed(id: Id)
    | JobDeposited(id: Id, amount: U256)
    | JobWithdrew(id: Id, amount: U256)
    | JobReviseRateInitiated(id: Id, rate: U256)
    | JobReviseRateCancelled(id: Id)
    | JobReviseRateFinalized(id: Id, rate: U256)
    | JobMetadataUpdated(id: Id, metadata: string)
    | LockCreated(isRateLock: bool, id: Id, value: U256, unlock: U256)
    | LockDeleted(isRateLock: bool, id: Id)
    | BadData
    | Other

  datatype ChainLog = ChainLog(block: nat, idx: nat, event: Event)

  /** `timestamp.into_limbs()[0]`. */
  function LowLimb(timestamp: U256): nat { timestamp % 0x1_0000_0000_0000_0000 }

  predicate Open(t: Tables, id: Id) { id in t.jobs && !t.jobs[id].isClosed }

  predicate HasTransaction(t: Tables, block: nat, idx: nat) {
    exists i :: 0 <= i < |t.transactions| && t.transactions[i].block == block && t.transactions[i].idx == idx
  }

  function AddTransaction(t: Tables, row: Transaction): Option<Tables> {
    if HasTransaction(t, row.block, row.idx) then None
    else Some(t.(transactions := t.transactions + [row]))
  }

  /** `handle_log`: the tables after a log, or None where the handler returns an error. */
  function HandleLog(t: Tables, log: ChainLog): Option<Tables> {
    match log.event
    case JobOpened(id, owner, provider, metadata, rate, balance, timestamp) =>
      if id in t.jobs then None
      else
        var at := LowLimb(timestamp);
        AddTransaction(t.(jobs := t.jobs[id := JobRow(metadata, owner, provider, rate, balance, at, at, false)]),
                       Transaction(log.block, log.idx, id, balance, true))
    case JobSettled(id, amount, timestamp) =>
      if !Open(t, id) then None
      else
        var row := t.jobs[id];
        Some(t.(jobs := t.jobs[id := row.(balance := row.balance - amount, lastSettled := LowLimb(timestamp))]))
    case JobClosed(id) =>
      if !Open(t, id) then None else Some(t.(jobs := t.jobs[id := t.jobs[id].(isClosed := true)]))
    case JobDeposited(id, amount) =>
      if !Open(t, id) then None
      else
        var row := t.jobs[id];
        AddTransaction(t.(jobs := t.jobs[id := row.(balance := row.balance + amount)]),
                       Transaction(log.block, log.idx, id, amount, true))
    case JobWithdrew(id, amount) =>
      if !Open(t, id) then None
      else
        var row := t.jobs[id];
        AddTransaction(t.(jobs := t.jobs[id := row.(balance := row.balance - amount)]),
                       Transaction(log.block, log.idx, id, amount, false))
    case JobReviseRateInitiated(_, _) => Some(t)
    case JobReviseRateCancelled(_) => Some(t)
    case JobReviseRateFinalized(id, rate) =>
      if !Open(t, id) then None else Some(t.(jobs := t.jobs[id := t.jobs[id].(rate := rate)]))
    case JobMetadataUpdated(id, metadata) =>
      if !Open(t, id) then None else Some(t.(jobs := t.jobs[id := t.jobs[id].(metadata := metadata)]))
    case LockCreated(isRateLock, id, value, unlock) =>
      if !isRateLock then Some(t)
      else if !Open(t, id) || id in t.requests then None
      else Some(t.(requests := t.requests[id := Request(value, LowLimb(unlock))]))
    case LockDeleted(isRateLock, id) =>
      if !isRateLock then Some(t) else Some(t.(requests := t.requests - {id}))
    case BadData => None
    case Other => Some(t)
  }

  /** `handle_log` over logs in order; None as soon as one fails. */
  function Fold(t: Tables, logs: seq<ChainLog>): Option<Tables>
    decreases |logs|
  {
    if logs == [] then Some(t)
    else
      match Fold(t, logs[..|logs| - 1])
      case None => None
      case Some(u) => HandleLog(u, logs[|logs| - 1])
  }

  const EMPTY: Tables := Tables(map[], [], map[])

  lemma {:induction false} FoldAppend(t: Tables, xs: seq<ChainLog>, ys: seq<ChainLog>)
    ensures Fold(t, xs + ys) == (if Fold(t, xs).None? then None else Fold(Fold(t, xs).value, ys))
    decreases |ys|
  {
    if ys == [] {
      assert xs + ys == xs;
    } else {
      var n := |ys| - 1;
      assert (xs + ys)[..|xs + ys| - 1] == xs + ys[..n];
      FoldAppend(t, xs, ys[..n]);
    }
  }

  // ---- conservation ----

  /** Deposits less withdrawals recorded for a job. */
  function NetDeposits(rows: seq<Transaction>, id: Id): int {
    if rows == [] then 0
    else
      var r := rows[|rows| - 1];
      NetDeposits(rows[..|rows| - 1], id) + Paid(r, id)
  }

  /** Amounts settled for a job in `logs`. */
  function SettledIn(logs: seq<ChainLog>, id: Id): int {
    if logs == [] then 0
    else
      SettledIn(logs[..|logs| - 1], id) + SettledBy(logs[|logs| - 1], id)
  }

  function Balance(t: Tables, id: Id): int { if id in t.jobs then t.jobs[id].balance else 0 }

  /** A job's balance is what was deposited less what was withdrawn and settled. */
  predicate Conserved(t: Tables, logs: seq<ChainLog>, id: Id) {
    Balance(t, id) == NetDeposits(t.transactions, id) - SettledIn(logs, id)
  }

  /** Rate requests and transactions are for existing jobs, and transactions keyed by block and index. */
  ghost predicate Referential(t: Tables) {
    && (forall id :: id in t.requests ==> id in t.jobs)
    && (forall i :: 0 <= i < |t.transactions| ==> t.transactions[i].job in t.jobs)
    && (forall i, j :: 0 <= i < j < |t.transactions| ==>
          (t.transactions[i].block, t.transactions[i].idx) != (t.transactions[j].block, t.transactions[j].idx))
  }

  lemma NetDepositsSnoc(rows: seq<Transaction>, r: Transaction, id: Id)
    ensures NetDeposits(rows + [r], id) == NetDeposits(rows, id) + Paid(r, id)
  {
    assert (rows + [r])[..|rows|] == rows;
  }

  lemma SettledSnoc(logs: seq<ChainLog>, log: ChainLog, id: Id)
    ensures SettledIn(logs + [log], id) == SettledIn(logs, id) + SettledBy(log, id)
  {
    assert (logs + [log])[..|logs|] == logs;
  }

  function Paid(r: Transaction, id: Id): int {
    if r.job != id then 0 else if r.isDeposit then r.amount else -r.amount
  }

  function SettledBy(log: ChainLog, id: Id): int {
    if log.event.JobSettled? && log.event.id == id then log.event.amount else 0
  }

  /** A log adds at most one transaction row, and changes a balance by that row and by what it
      settles. */
  lemma BalanceChange(t: Tables, log: ChainLog, id: Id)
    requires HandleLog(t, log).Some?
    ensures
      var u := HandleLog(t, log).value;
      if u.transactions == t.transactions then Balance(u, id) == Balance(t, id) - SettledBy(log, id)
      else
        && |u.transactions| == |t.transactions| + 1 && u.transactions[..|t.transactions|] == t.transactions
        && SettledBy(log, id) == 0
        && Balance(u, id) == Balance(t, id) + Paid(u.transactions[|t.transactions|], id)
  {
    hide HasTransaction;
  }

  lemma HandleConserves(t: Tables, logs: seq<ChainLog>, log: ChainLog, id: Id)
    requires Conserved(t, logs, id) && HandleLog(t, log).Some?
    ensures Conserved(HandleLog(t, log).value, logs + [log], id)
  {
    hide HandleLog;
    SettledSnoc(logs, log, id);
    BalanceChange(t, log, id);
    var u := HandleLog(t, log).value;
    if u.transactions != t.transactions {
      var row := u.transactions[|t.transactions|];
      NetDepositsSnoc(t.transactions, row, id);
      assert u.transactions == t.transactions + [row];
    }
  }

  lemma HandleKeepsReferential(t: Tables, log: ChainLog)
    requires Referential(t) && HandleLog(t, log).Some?
    ensures Referential(HandleLog(t, log).value)
  {
  }

  // ---- rows ----

  /** The row a JobOpened leaves: what the event says, both times the low 64 bits of its timestamp. */
  lemma OpenedRow(t: Tables, log: ChainLog)
    requires log.event.JobOpened? && HandleLog(t, log).Some?
    ensures var e, u := log.event, HandleLog(t, log).value;
      && e.id !in t.jobs && e.id in u.jobs
      && var row := u.jobs[e.id];
         && row.owner == e.owner && row.provider == e.provider && row.metadata == e.metadata
         && row.rate == e.rate && row.balance == e.balance && !row.isClosed
         && row.created == row.lastSettled == e.timestamp % 0x1_0000_0000_0000_0000
    ensures var e, u := log.event, HandleLog(t, log).value;
      u.transactions == t.transactions + [Transaction(log.block, log.idx, e.id, e.balance, true)]
  {
    hide HasTransaction;
  }

  /** Owner, provider and time of creation of a row never change. */
  lemma {:induction false} OriginIsFinal(t: Tables, logs: seq<ChainLog>, id: Id)
    requires Fold(t, logs).Some? && id in t.jobs
    ensures id in Fold(t, logs).value.jobs
    ensures var row := Fold(t, logs).value.jobs[id];
      row.owner == t.jobs[id].owner && row.provider == t.jobs[id].provider && row.created == t.jobs[id].created
    decreases |logs|
  {
    if logs != [] {
      var n := |logs| - 1;
      OriginIsFinal(t, logs[..n], id);
      OriginIsKept(Fold(t, logs[..n]).value, logs[n], id);
    }
  }

  lemma OriginIsKept(t: Tables, log: ChainLog, id: Id)
    requires HandleLog(t, log).Some? && id in t.jobs
    ensures var u := HandleLog(t, log).value;
      && id in u.jobs && u.jobs[id].owner == t.jobs[id].owner && u.jobs[id].provider == t.jobs[id].provider
      && u.jobs[id].created == t.jobs[id].created
  {
    hide HasTransaction;
  }

  /** A request is what the last lock of its job says, with the low 64 bits of its time, and is there from
      the lock's creation to its deletion. */
  lemma RequestIs(t: Tables, log: ChainLog, id: Id)
    requires HandleLog(t, log).Some?
    ensures var u := HandleLog(t, log).value;
      match log.event
      case LockCreated(true, i, value, unlock) =>
        if i == id then id !in t.requests && id in u.requests
                        && u.requests[id].value == value && u.requests[id].updatesAt == unlock % 0x1_0000_0000_0000_0000
        else (id in u.requests <==> id in t.requests) && (id in t.requests ==> u.requests[id] == t.requests[id])
      case LockDeleted(true, i) =>
        if i == id then id !in u.requests
        else (id in u.requests <==> id in t.requests) && (id in t.requests ==> u.requests[id] == t.requests[id])
      case _ => u.requests == t.requests
  {
    hide HasTransaction;
  }

  /** What the indexer refuses: a second JobOpened, anything but a rate announcement or a deleted lock
      for a job that is not open, a second lock, a second row of one log, and data it cannot read. */
  lemma RefusedExactly(t: Tables, log: ChainLog)
    ensures HandleLog(t, log).None? <==>
      match log.event
      case JobOpened(id, _, _, _, _, _, _) => id in t.jobs || HasTransaction(t, log.block, log.idx)
      case JobDeposited(id, _) => !Open(t, id) || HasTransaction(t, log.block, log.idx)
      case JobWithdrew(id, _) => !Open(t, id) || HasTransaction(t, log.block, log.idx)
      case JobSettled(id, _, _) => !Open(t, id)
      case JobClosed(id) => !Open(t, id)
      case JobReviseRateFinalized(id, _) => !Open(t, id)
      case JobMetadataUpdated(id, _) => !Open(t, id)
      case LockCreated(true, id, _, _) => !Open(t, id) || id in t.requests
      case BadData => true
      case _ => false
  {
    hide HasTransaction;
    if log.event.JobOpened? {
      var e, at := log.event, LowLimb(log.event.timestamp);
      var jobs := t.jobs[e.id := JobRow(e.metadata, e.owner, e.provider, e.rate, e.balance, at, at, false)];
      SameRows(t, t.(jobs := jobs), log.block, log.idx);
    } else if log.event.JobDeposited? && Open(t, log.event.id) {
      var row := t.jobs[log.event.id];
      SameRows(t, t.(jobs := t.jobs[log.event.id := row.(balance := row.balance + log.event.amount)]),
               log.block, log.idx);
    } else if log.event.JobWithdrew? && Open(t, log.event.id) {
      var row := t.jobs[log.event.id];
      SameRows(t, t.(jobs := t.jobs[log.event.id := row.(balance := row.balance - log.event.amount)]),
               log.block, log.idx);
    }
  }

  lemma SameRows(t: Tables, u: Tables, block: nat, idx: nat)
    requires t.transactions == u.transactions
    ensures HasTransaction(t, block, idx) == HasTransaction(u, block, idx)
  {
  }

  /** A batch fails as soon as one of its logs is refused. */
  lemma {:induction false} RefusedStops(t: Tables, logs: seq<ChainLog>, i: nat)
    requires i <= |logs| && Fold(t, logs[..i]).None?
    ensures Fold(t, logs).None?
    decreases |logs|
  {
    if i < |logs| {
      assert logs[..|logs| - 1][..i] == logs[..i];
      RefusedStops(t, logs[..|logs| - 1], i);
    } else {
      assert logs[..i] == logs;
    }
  }

  /** Money conservation: after any successful run over the chain's logs every job's balance is
      accounted for and the tables refer to existing jobs only. */
  lemma {:induction false} FoldConserves(logs: seq<ChainLog>, id: Id)
    requires Fold(EMPTY, logs).Some?
    ensures Conserved(Fold(EMPTY, logs).value, logs, id)
    ensures Referential(Fold(EMPTY, logs).value)
    decreases |logs|
  {
    if logs != [] {
      var n := |logs| - 1;
      FoldConserves(logs[..n], id);
      var t := Fold(EMPTY, logs[..n]).value;
      HandleConserves(t, logs[..n], logs[n], id);
      HandleKeepsReferential(t, logs[n]);
      assert logs[..n] + [logs[n]] == logs;
    }
  }

  /** A closed job's row never changes again, and no row ever disappears. */
  lemma {:induction false} ClosedRowsAreFinal(t: Tables, logs: seq<ChainLog>, id: Id)
    requires Fold(t, logs).Some? && id in t.jobs
    ensures id in Fold(t, logs).value.jobs
    ensures t.jobs[id].isClosed ==> Fold(t, logs).value.jobs[id] == t.jobs[id]
    decreases |logs|
  {
    if logs != [] {
      ClosedRowsAreFinal(t, logs[..|logs| - 1], id);
    }
  }

  // ---- the loop ----

  /** The chain: the logs of each block. */
  type Chain = nat -> seq<ChainLog>

  /** The logs of blocks `from` up to but not including `until`. */
  function LogsIn(chain: Chain, from: nat, until: nat): seq<ChainLog>
    requires from <= until
    decreases until
  {
    if until == from then [] else LogsIn(chain, from, until - 1) + chain(until - 1)
  }

  lemma {:induction false} LogsInSplit(chain: Chain, from: nat, mid: nat, until: nat)
    requires from <= mid <= until
    ensures LogsIn(chain, from, until) == LogsIn(chain, from, mid) + LogsIn(chain, mid, until)
    decreases until
  {
    if mid < until {
      LogsInSplit(chain, from, mid, until - 1);
      assert LogsIn(chain, from, mid) + LogsIn(chain, mid, until - 1) + chain(until - 1)
          == LogsIn(chain, from, mid) + (LogsIn(chain, mid, until - 1) + chain(until - 1));
    }
  }

  /** The database holds exactly the logs from the start block to its sync block, inclusive. */
  ghost predicate Synced(chain: Chain, start: nat, t: Tables, sync: int) {
    sync >= -1 && start <= sync + 1 && Fold(EMPTY, LogsIn(chain, start, sync + 1)) == Some(t)
  }

  const MOD64: nat := 0x1_0000_0000_0000_0000

  datatype Decision = Behind | UpToDate | Fetch(start: nat, end: nat)

  /** What the loop does next, with the casts and wrap-around of 64-bit words. */
  function Decide(sync: int, latest: nat, rangeSize: nat): Decision {
    var last := sync % MOD64;
    if latest < last then Behind
    else if latest == last then UpToDate
    else
      var start := (last + 1) % MOD64;
      var upTo := (start + rangeSize - 1) % MOD64;
      Fetch(start, if upTo < latest then upTo else latest)
  }

  /** The next range is a non-empty one right after the sync block, within what exists, exactly
      when the sync block is an actual block behind the latest and the range size is at least
      one and does not overflow. In particular a database that was told to start at block 0
      keeps sync block -1, and never fetches anything. */
  lemma NextRangeExactly(sync: int, latest: nat, rangeSize: nat)
    requires -1 <= sync < MOD64 - 1 && latest < MOD64 - 1 && rangeSize < MOD64
    ensures
      var d := Decide(sync, latest, rangeSize);
      (d.Fetch? && d.start == sync + 1 && d.start <= d.end <= latest)
      <==> (0 <= sync < latest && rangeSize >= 1 && sync + rangeSize < MOD64)
    ensures sync == -1 ==> Decide(sync, latest, rangeSize) == Behind
  {
  }

  /** The sync block after passes in which the chain's latest block was read as in `seen`: each moves it by
      the range size, up to the latest block. */
  function SyncAfter(sync: int, seen: seq<Option<nat>>, rangeSize: nat): int {
    if seen == [] then sync
    else
      var s := SyncAfter(sync, seen[..|seen| - 1], rangeSize);
      match seen[|seen| - 1]
      case None => s
      case Some(latest) => if latest <= s then s else if s + rangeSize < latest then s + rangeSize else latest
  }

  /** Every pass got an answer, and none that is behind what has been synced by then. */
  predicate NoneBehind(sync: int, seen: seq<Option<nat>>, rangeSize: nat) {
    forall i :: 0 <= i < |seen| ==> seen[i].Some? && seen[i].value >= SyncAfter(sync, seen[..i], rangeSize)
  }

  /** All these passes went through and left the sync block at `now`. */
  predicate Passed(sync: int, now: int, seen: seq<Option<nat>>, rangeSize: nat) {
    NoneBehind(sync, seen, rangeSize) && now == SyncAfter(sync, seen, rangeSize)
  }

  /** All but the last did. */
  predicate PassedButLast(sync: int, now: int, seen: seq<Option<nat>>, rangeSize: nat) {
    seen != [] && Passed(sync, now, seen[..|seen| - 1], rangeSize)
  }

  /** The sync block gets to the latest block read first, in as many passes as it takes. */
  lemma {:induction false} CatchesUp(sync: int, seen: seq<Option<nat>>, rangeSize: nat, latest: nat)
    requires NoneBehind(sync, seen, rangeSize) && sync <= latest
    requires forall i :: 0 <= i < |seen| ==> seen[i].Some? && seen[i].value >= latest
    ensures var s := SyncAfter(sync, seen, rangeSize);
      s >= latest || s >= sync + |seen| * rangeSize
  {
    if seen != [] {
      var n := |seen| - 1;
      assert seen[n].Some? && seen[n].value >= latest && seen[n].value >= SyncAfter(sync, seen[..n], rangeSize);
      assert forall i :: 0 <= i < n ==> seen[..n][i] == seen[i] && seen[..n][..i] == seen[..i];
      assert NoneBehind(sync, seen[..n], rangeSize);
      hide NoneBehind;
      CatchesUp(sync, seen[..n], rangeSize, latest);
      OneMoreRange(sync, SyncAfter(sync, seen[..n], rangeSize), n, rangeSize, seen[n].value, latest);
    }
  }

  lemma OneMoreRange(sync: int, s: int, n: nat, rangeSize: nat, seen: nat, latest: nat)
    requires s >= latest || s >= sync + n * rangeSize
    requires seen >= latest && seen >= s
    ensures var t := if seen <= s then s else if s + rangeSize < seen then s + rangeSize else seen;
      t >= latest || t >= sync + (n + 1) * rangeSize
  {
    assert (n + 1) * rangeSize == n * rangeSize + rangeSize;
  }

  /** One committed batch moves a synced database to the end of the batch. */
  lemma BatchKeepsSynced(chain: Chain, start: nat, t: Tables, sync: int, end: nat)
    requires Synced(chain, start, t, sync) && sync <= end
    requires Fold(t, LogsIn(chain, sync + 1, end + 1)).Some?
    ensures Synced(chain, start, Fold(t, LogsIn(chain, sync + 1, end + 1)).value, end)
  {
    LogsInSplit(chain, start, sync + 1, end + 1);
    FoldAppend(EMPTY, LogsIn(chain, start, sync + 1), LogsIn(chain, sync + 1, end + 1));
  }
}
