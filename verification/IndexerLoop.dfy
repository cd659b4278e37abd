/** The indexer as it runs: handlers that update tables in place and may fail half way, a
    transaction per batch, the endless loop, and its restarts after crashes. */
module IndexerLoop {
  import opened Bytes
  import opened Market
  import opened Indexer

  class Database {
    var jobs: map<Id, JobRow>
    var transactions: seq<Transaction>
    var requests: map<Id, Request>
    var sync: int
    // how often the process has died in a transaction
    ghost var deaths: nat

    function View(): Tables reads this`jobs, this`transactions, this`requests {
      Tables(jobs, transactions, requests)
    }

    /** The tables as the migrations leave them. */
    constructor ()
      ensures View() == EMPTY && sync == -1
    {
      jobs, transactions, requests, sync, deaths := map[], [], map[], -1, 0;
    }

    /** UPDATE jobs SET ... WHERE id = `id` AND is_closed = false; the number of rows changed. */
    method UpdateOpenJob(id: Id, row: JobRow) returns (count: nat)
      modifies this`jobs
      ensures count == (if Open(old(View()), id) then 1 else 0)
      ensures jobs == (if count == 1 then old(jobs)[id := row] else old(jobs))
    {
      count := 0;
      if id in jobs && !jobs[id].isClosed {
        jobs, count := jobs[id := row], 1;
      }
    }

    /** INSERT INTO transactions ...; fails on a duplicate (block, idx). */
    method InsertTransaction(row: Transaction) returns (ok: bool)
      modifies this`transactions
      ensures ok == !HasTransaction(old(View()), row.block, row.idx)
      ensures transactions == (if ok then old(transactions) + [row] else old(transactions))
    {
      for i := 0 to |transactions|
        invariant transactions == old(transactions)
        invariant forall k :: 0 <= k < i ==> (transactions[k].block, transactions[k].idx) != (row.block, row.idx)
      {
        if transactions[i].block == row.block && transactions[i].idx == row.idx {
          return false;
        }
      }
      transactions := transactions + [row];
      ok := true;
    }

    function Row(id: Id): JobRow reads this`jobs {
      if id in jobs then jobs[id] else JobRow("", "", "", 0, 0, 0, 0, false)
    }

    method HandleJobOpened(log: ChainLog) returns (ok: bool)
      requires log.event.JobOpened?
      modifies this`jobs, this`transactions
      ensures ok <==> HandleLog(old(View()), log).Some?
      ensures ok ==> HandleLog(old(View()), log) == Some(View())
    {
      hide HasTransaction;
      var e := log.event;
      var at := LowLimb(e.timestamp);
      if e.id in jobs {
        return false;
      }
      jobs := jobs[e.id := JobRow(e.metadata, e.owner, e.provider, e.rate, e.balance, at, at, false)];
      SameTransactions(View(), old(View()), log);
      ok := InsertTransaction(Transaction(log.block, log.idx, e.id, e.balance, true));
    }

    /** `handle_job_deposited` and `handle_job_withdrew`: the balance, then the transaction row. */
    method HandleTransfer(log: ChainLog) returns (ok: bool)
      requires log.event.JobDeposited? || log.event.JobWithdrew?
      modifies this`jobs, this`transactions
      ensures ok <==> HandleLog(old(View()), log).Some?
      ensures ok ==> HandleLog(old(View()), log) == Some(View())
    {
      var id, amount, isDeposit := log.event.id, log.event.amount as int, log.event.JobDeposited?;
      var row := Row(id);
      var count := UpdateOpenJob(id, row.(balance := if isDeposit then row.balance + amount else row.balance - amount));
      if count != 1 {
        return false;
      }
      SameTransactions(View(), old(View()), log);
      ok := InsertTransaction(Transaction(log.block, log.idx, id, amount, isDeposit));
    }

    lemma SameTransactions(t: Tables, u: Tables, log: ChainLog)
      requires t.transactions == u.transactions
      ensures HasTransaction(t, log.block, log.idx) == HasTransaction(u, log.block, log.idx)
    {
    }

    method HandleLockCreated(log: ChainLog) returns (ok: bool)
      requires log.event.LockCreated?
      modifies this`requests
      ensures ok <==> HandleLog(old(View()), log).Some?
      ensures ok ==> HandleLog(old(View()), log) == Some(View())
    {
      var e := log.event;
      if !e.isRateLock {
        return true;
      }
      // INSERT INTO revise_rate_requests SELECT ... FROM jobs WHERE not closed AND id = ...
      var selected := e.id in jobs && !jobs[e.id].isClosed;
      if selected && e.id in requests {
        return false;
      }
      if selected {
        requests := requests[e.id := Request(e.value, LowLimb(e.unlock))];
      }
      var count := if selected then 1 else 0;
      ok := count == 1;
    }

    /** The dispatch of `handle_log`. */
    method Handle(log: ChainLog) returns (ok: bool)
      modifies this`jobs, this`transactions, this`requests
      ensures ok <==> HandleLog(old(View()), log).Some?
      ensures ok ==> HandleLog(old(View()), log) == Some(View())
    {
      hide HasTransaction;
      var count;
      match log.event {
        case JobOpened(_, _, _, _, _, _, _) => ok := HandleJobOpened(log);
        case JobSettled(id, amount, timestamp) =>
          var row := Row(id);
          count := UpdateOpenJob(id, row.(balance := row.balance - amount, lastSettled := LowLimb(timestamp)));
          ok := count == 1;
        case JobClosed(id) =>
          count := UpdateOpenJob(id, Row(id).(isClosed := true));
          ok := count == 1;
        case JobDeposited(_, _) => ok := HandleTransfer(log);
        case JobWithdrew(_, _) => ok := HandleTransfer(log);
        case JobReviseRateInitiated(_, _) => ok := true;
        case JobReviseRateCancelled(_) => ok := true;
        case JobReviseRateFinalized(id, rate) =>
          count := UpdateOpenJob(id, Row(id).(rate := rate));
          ok := count == 1;
        case JobMetadataUpdated(id, metadata) =>
          count := UpdateOpenJob(id, Row(id).(metadata := metadata));
          ok := count == 1;
        case LockCreated(_, _, _, _) => ok := HandleLockCreated(log);
        case LockDeleted(isRateLock, id) =>
          if isRateLock {
            requests := requests - {id};
          }
          ok := true;
        case BadData => ok := false;
        case Other => ok := true;
      }
    }

    method Die() returns (died: bool)
      modifies this`deaths
      ensures deaths == old(deaths) + if died then 1 else 0
    {
      died := *;
      deaths := deaths + if died then 1 else 0;
    }

    /** `conn.transaction`: all logs of a batch and the new sync block, or nothing. It fails only on a log
        that is refused or if the process dies inside, which leaves nothing. */
    method Transact(logs: seq<ChainLog>, end: nat) returns (ok: bool)
      modifies this
      ensures ok <==> deaths == old(deaths) && Fold(old(View()), logs).Some?
      ensures ok ==> Fold(old(View()), logs) == Some(View()) && sync == end
      ensures !ok ==> View() == old(View()) && sync == old(sync)
      ensures deaths >= old(deaths)
    {
      var jobs0, transactions0, requests0 := jobs, transactions, requests;
      for i := 0 to |logs|
        invariant Fold(old(View()), logs[..i]) == Some(View())
        invariant sync == old(sync) && jobs0 == old(jobs) && deaths == old(deaths)
        invariant transactions0 == old(transactions) && requests0 == old(requests)
      {
        var died := Die();
        var fine := Handle(logs[i]);
        assert logs[..i + 1][..i] == logs[..i];
        if died || !fine {
          // roll back
          jobs, transactions, requests := jobs0, transactions0, requests0;
          if !fine {
            RefusedStops(old(View()), logs, i + 1);
          }
          return false;
        }
      }
      assert logs[..|logs|] == logs;
      sync := end;
      ok := true;
    }

    /** `start_from`: UPDATE sync SET block = start - 1 WHERE block < start - 1. */
    method StartFrom(start: nat) returns (changed: bool)
      modifies this`sync
      ensures sync == (if old(sync) < start - 1 then start - 1 else old(sync))
      ensures changed == (old(sync) < start - 1)
    {
      changed := sync < start - 1;
      if changed {
        sync := start - 1;
      }
    }
  }

  /** `latest_block` and `logs` of the RPC, for a chain that only grows, up to `height` blocks: the
      latest block is any of them, a query for logs answers truly or fails. It remembers what it answered. */
  class Rpc {
    const chain: Chain
    const height: nat
    ghost var seen: seq<Option<nat>>
    ghost var failures: nat

    constructor (chain: Chain, height: nat)
      ensures this.chain == chain && this.height == height && seen == [] && failures == 0
    {
      this.chain, this.height := chain, height;
      seen, failures := [], 0;
    }

    method LatestBlock() returns (r: Option<nat>)
      requires height > 0
      modifies this`seen
      ensures seen == old(seen) + [r]
      ensures r.Some? ==> r.value < height
    {
      r := None;
      if * {
        var n: nat :| n < height;
        r := Some(n);
      }
      seen := seen + [r];
    }

    method QueryLogs(start: nat, end: nat) returns (r: Option<seq<ChainLog>>)
      requires start <= end + 1
      modifies this`failures
      ensures failures == old(failures) + if r.None? then 1 else 0
      ensures r.Some? ==> r.value == LogsIn(chain, start, end + 1)
    {
      r := None;
      if * {
        r := Some(LogsIn(chain, start, end + 1));
      }
      failures := failures + if r.None? then 1 else 0;
    }
  }

  /** A range size that no block of the chain makes overflow, as `NextRangeExactly` asks. */
  predicate RangeFits(height: nat, rangeSize: nat) {
    1 <= rangeSize && height + rangeSize <= MOD64
  }

  /** The next range, right after what has already been processed, capped using the range size. */
  method NextRange(last: nat, latest: nat, rangeSize: nat) returns (startBlock: nat, endBlock: nat)
    requires last < latest < MOD64 / 2 && 1 <= rangeSize && last + rangeSize < MOD64
    ensures startBlock == last + 1 <= endBlock <= latest
    ensures endBlock == if last + rangeSize < latest then last + rangeSize else latest
    ensures Decide(last, latest, rangeSize) == Fetch(startBlock, endBlock)
  {
    startBlock := (last + 1) % MOD64;
    var upTo := (startBlock + rangeSize - 1) % MOD64;
    endBlock := if upTo < latest then upTo else latest;
    NextRangeExactly(last, latest, rangeSize);
  }

  /** Fetch a range and commit it, exactly if the RPC answers, every log is handled and the process lives. */
  method ProcessRange(db: Database, rpc: Rpc, ghost start: nat, startBlock: nat, endBlock: nat) returns (ok: bool)
    requires Synced(rpc.chain, start, db.View(), db.sync)
    requires startBlock == db.sync + 1 <= endBlock
    modifies db, rpc`failures
    ensures Synced(rpc.chain, start, db.View(), db.sync)
    ensures db.sync == (if ok then endBlock else old(db.sync))
    ensures !ok ==> db.View() == old(db.View())
    ensures ok <==> !Broke(db.deaths, old(db.deaths), rpc.failures, old(rpc.failures))
                    && Fold(old(db.View()), LogsIn(rpc.chain, startBlock, endBlock + 1)).Some?
    ensures db.deaths >= old(db.deaths) && rpc.failures >= old(rpc.failures)
  {
    var logs := rpc.QueryLogs(startBlock, endBlock);
    if logs.None? {
      return false;
    }
    ghost var t, sync := db.View(), db.sync;
    ok := db.Transact(logs.value, endBlock);
    if ok {
      BatchKeepsSynced(rpc.chain, start, t, sync, endBlock);
    }
  }

  /** The process has died or a query has failed. */
  predicate Broke(deaths: nat, deathsBefore: nat, failures: nat, failuresBefore: nat) {
    deaths != deathsBefore || failures != failuresBefore
  }

  /** The indexer refuses a log of the range that comes after `sync` when the latest block is `latest`. */
  ghost predicate Refuses(chain: Chain, t: Tables, sync: int, latest: nat, rangeSize: nat) {
    && sync >= 0
    && var end := if sync + rangeSize < latest then sync + rangeSize else latest;
       end >= sync && Fold(t, LogsIn(chain, sync + 1, end + 1)).None?
  }

  /** `event_loop` for a number of passes, ending early in an error or a crash. Whatever happened, the
      database holds exactly the logs up to its sync block. Each pass moves that by the range size, up to
      the latest block; a pass fails only without an answer, on one that is behind, on a query that failed,
      on a log that is refused, or in a crash. */
  method EventLoop(db: Database, rpc: Rpc, rangeSize: nat, ghost start: nat, passes: nat) returns (ok: bool)
    requires 0 < rpc.height <= MOD64 / 2 && RangeFits(rpc.height, rangeSize) && db.sync < rpc.height
    requires db.sync >= -1 && Synced(rpc.chain, start, db.View(), db.sync)
    modifies db, rpc
    ensures Synced(rpc.chain, start, db.View(), db.sync) && db.sync < rpc.height
    ensures db.sync >= old(db.sync)
    // a database without a block to start after never moves
    ensures old(db.sync) < 0 ==> db.View() == old(db.View()) && db.sync == old(db.sync) && (passes > 0 ==> !ok)
    ensures old(rpc.seen) <= rpc.seen && db.deaths >= old(db.deaths) && rpc.failures >= old(rpc.failures)
    ensures ok ==> var seen := rpc.seen[|old(rpc.seen)|..];
      && |seen| == passes && Passed(old(db.sync), db.sync, seen, rangeSize)
      && !Broke(db.deaths, old(db.deaths), rpc.failures, old(rpc.failures))
    ensures !ok ==> var seen := rpc.seen[|old(rpc.seen)|..];
      && |seen| <= passes && PassedButLast(old(db.sync), db.sync, seen, rangeSize)
      && (|| seen[|seen| - 1].None? || seen[|seen| - 1].value < db.sync % MOD64
          || Broke(db.deaths, old(db.deaths), rpc.failures, old(rpc.failures))
          || Refuses(rpc.chain, db.View(), db.sync, seen[|seen| - 1].value, rangeSize))
  {
    hide Synced;
    hide Passed;
    hide PassedButLast;
    hide Refuses;
    hide Fold;
    hide LogsIn;
    hide Decide;
    var lastUpdated := db.sync % MOD64;
    ghost var asked := rpc.seen;
    NoPassYet(db.sync, rangeSize);
    assert rpc.seen[|asked|..] == [];
    for i := 0 to passes
      invariant Synced(rpc.chain, start, db.View(), db.sync) && old(db.sync) <= db.sync < rpc.height
      invariant lastUpdated == (if db.sync < 0 then MOD64 - 1 else db.sync)
      invariant old(db.sync) < 0 ==> i == 0 && db.View() == old(db.View()) && db.sync == old(db.sync)
      invariant asked <= rpc.seen && |rpc.seen| == |asked| + i
      invariant Passed(old(db.sync), db.sync, rpc.seen[|asked|..], rangeSize)
      invariant db.deaths == old(db.deaths) && rpc.failures == old(rpc.failures)
    {
      ghost var before := rpc.seen[|asked|..];
      var answer := rpc.LatestBlock();
      assert rpc.seen[|asked|..] == before + [answer];
      OnePassMore(old(db.sync), db.sync, before, answer, rangeSize);
      if answer.None? {
        return false;
      }
      var latestBlock := answer.value;
      // nothing to fetch: the answer is older than the tables
      if latestBlock < lastUpdated {
        return false;
      }
      if latestBlock == lastUpdated {
        continue;
      }
      var startBlock, endBlock := NextRange(lastUpdated, latestBlock, rangeSize);
      var done := ProcessRange(db, rpc, start, startBlock, endBlock);
      if !done {
        RefusedRange(rpc.chain, db.View(), db.sync, latestBlock, rangeSize);
        return false;
      }
      lastUpdated := endBlock;
    }
    ok := true;
  }

  lemma NoPassYet(sync: int, rangeSize: nat)
    ensures Passed(sync, sync, [], rangeSize)
  {
  }

  lemma RefusedRange(chain: Chain, t: Tables, sync: int, latest: nat, rangeSize: nat)
    requires 0 <= sync < latest
    ensures var end := if sync + rangeSize < latest then sync + rangeSize else latest;
      Refuses(chain, t, sync, latest, rangeSize) <==> Fold(t, LogsIn(chain, sync + 1, end + 1)).None?
  {
  }

  lemma OnePassMore(sync: int, now: int, seen: seq<Option<nat>>, answer: Option<nat>, rangeSize: nat)
    requires Passed(sync, now, seen, rangeSize)
    ensures PassedButLast(sync, now, seen + [answer], rangeSize)
    ensures answer.Some? && answer.value >= now ==>
      Passed(sync, if answer.value <= now then now else if now + rangeSize < answer.value then now + rangeSize
                   else answer.value,
             seen + [answer], rangeSize)
  {
    var all := seen + [answer];
    assert all[..|seen|] == seen && all[|seen|] == answer;
    assert SyncAfter(sync, all, rangeSize)
        == (match answer
            case None => now
            case Some(latest) =>
              if latest <= now then now else if now + rangeSize < latest then now + rangeSize else latest);
    hide SyncAfter;
    forall i | 0 <= i < |seen|
      ensures all[i] == seen[i] && SyncAfter(sync, all[..i], rangeSize) == SyncAfter(sync, seen[..i], rangeSize)
    {
      assert all[..i] == seen[..i];
    }
  }

  /** One run of the program: the start block, then the loop. */
  method RunIndexer(db: Database, rpc: Rpc, startBlock: nat, rangeSize: nat, ghost start: nat, passes: nat)
    returns (ok: bool)
    requires 0 < rpc.height <= MOD64 / 2 && RangeFits(rpc.height, rangeSize) && startBlock <= rpc.height
    requires -1 <= db.sync < rpc.height
    requires if db.sync < startBlock - 1 then start == startBlock && db.View() == EMPTY
             else Synced(rpc.chain, start, db.View(), db.sync)
    modifies db, rpc
    ensures Synced(rpc.chain, start, db.View(), db.sync) && db.sync < rpc.height
    ensures old(rpc.seen) <= rpc.seen
    ensures var from := if old(db.sync) < startBlock - 1 then startBlock - 1 else old(db.sync);
      var seen := rpc.seen[|old(rpc.seen)|..];
      && from <= db.sync && |seen| <= passes
      && (passes > 0 ==> seen != []) && (from < 0 ==> db.View() == old(db.View()) && db.sync == from)
      && (ok ==> |seen| == passes && Passed(from, db.sync, seen, rangeSize))
      && (!ok ==> PassedButLast(from, db.sync, seen, rangeSize))
  {
    assert LogsIn(rpc.chain, startBlock, startBlock) == [];
    var _ := db.StartFrom(startBlock);
    ok := EventLoop(db, rpc, rangeSize, start, passes);
  }

  /** The life of a database: any number of runs of the program, each with its own range size and a
      start block no later than the first's, which then changes nothing, each ending in an error or a
      crash at any point. Every run with a pass to make asks for the latest block. */
  method Life(chain: Chain, height: nat, starts: seq<nat>, rangeSizes: seq<nat>, passes: seq<nat>)
    returns (db: Database, rpc: Rpc)
    requires 0 < height <= MOD64 / 2 && |starts| == |rangeSizes| == |passes|
    requires forall i :: 0 <= i < |rangeSizes| ==> RangeFits(height, rangeSizes[i])
    requires forall i :: 0 <= i < |starts| ==> starts[i] <= starts[0] <= height
    ensures fresh(db) && fresh(rpc)
    ensures starts != [] ==> Synced(chain, starts[0], db.View(), db.sync)
    ensures starts != [] && starts[0] == 0 ==> db.View() == EMPTY && db.sync == -1
    ensures (forall i :: 0 <= i < |passes| ==> passes[i] > 0) ==> |rpc.seen| >= |starts|
  {
    db := new Database();
    rpc := new Rpc(chain, height);
    hide Passed;
    hide PassedButLast;
    for i := 0 to |starts|
      invariant fresh(db) && fresh(rpc) && -1 <= db.sync < height && rpc.chain == chain && rpc.height == height
      invariant if i == 0 then db.View() == EMPTY && db.sync == -1
                else starts[0] - 1 <= db.sync && Synced(chain, starts[0], db.View(), db.sync)
      invariant starts != [] && starts[0] == 0 ==> db.View() == EMPTY && db.sync == -1
      invariant (forall k :: 0 <= k < i ==> passes[k] > 0) ==> |rpc.seen| >= i
    {
      assert LogsIn(chain, starts[0], starts[0]) == [];
      var _ := RunIndexer(db, rpc, starts[i], rangeSizes[i], starts[0], passes[i]);
    }
  }
}
