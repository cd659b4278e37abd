/** How the control plane reads an append-only log without a gap or a repeat
    (operator/control-plane/src/market.rs:258-419): it subscribes, asks for the newest block, and
    puts the logs up to that block before those of the subscription above it; after a reconnect it
    skips as many jobs as it has already spawned managers for. */
module LogSplice {

  /** A matching log and the block it is in; `id` is what the log carries. */
  datatype Log = Log(id: nat, block: nat)

  /** An append-only chain's log: blocks never go back, and no log is repeated. */
  ghost predicate ChainLog(logs: seq<Log>) {
    && (forall i, j :: 0 <= i < j < |logs| ==> logs[i].block <= logs[j].block)
    && (forall i, j :: 0 <= i < j < |logs| ==> logs[i] != logs[j])
  }

  function UpTo(logs: seq<Log>, cutoff: nat): seq<Log> {
    if logs == [] then []
    else UpTo(logs[..|logs| - 1], cutoff) + if logs[|logs| - 1].block <= cutoff then [logs[|logs| - 1]] else []
  }

  function Above(logs: seq<Log>, cutoff: nat): seq<Log> {
    if logs == [] then []
    else Above(logs[..|logs| - 1], cutoff) + if logs[|logs| - 1].block > cutoff then [logs[|logs| - 1]] else []
  }

  /** One connection, in terms of the whole log as it will be: how many logs there were when the
      subscription was registered, the newest block as the node then answered, and how many logs
      there were when the subscription ended. */
  datatype Connection = Connection(subscribed: nat, cutoff: nat, ended: nat) {
    predicate In(logs: seq<Log>) { subscribed <= ended <= |logs| }

    /** The node's answer is not older than what it had at the subscription. */
    ghost predicate Consistent(logs: seq<Log>)
      requires In(logs)
    {
      forall i :: 0 <= i < subscribed ==> logs[i].block <= cutoff
    }
  }

  /** The stream that `new_jobs` and `job_logs` return. */
  function Splice(logs: seq<Log>, c: Connection): seq<Log>
    requires c.In(logs)
  {
    UpTo(logs, c.cutoff) + Above(logs[c.subscribed..c.ended], c.cutoff)
  }

  /** How many logs lie up to the cutoff. */
  function Count(logs: seq<Log>, cutoff: nat): nat { |UpTo(logs, cutoff)| }

  lemma {:induction false} UpToIsPrefix(logs: seq<Log>, cutoff: nat)
    requires ChainLog(logs)
    ensures Count(logs, cutoff) <= |logs| && UpTo(logs, cutoff) == logs[..Count(logs, cutoff)]
    ensures forall i :: 0 <= i < |logs| ==> (i < Count(logs, cutoff) <==> logs[i].block <= cutoff)
  {
    if logs != [] {
      UpToIsPrefix(logs[..|logs| - 1], cutoff);
    }
  }

  lemma {:induction false} AboveIsSuffix(logs: seq<Log>, cutoff: nat, k: nat)
    requires k <= |logs|
    requires forall i :: 0 <= i < |logs| ==> (i < k <==> logs[i].block <= cutoff)
    ensures Above(logs, cutoff) == logs[k..]
  {
    if logs != [] {
      var front := logs[..|logs| - 1];
      if k == |logs| {
        AboveIsSuffix(front, cutoff, k - 1);
      } else {
        AboveIsSuffix(front, cutoff, k);
        assert logs[k..] == front[k..] + [logs[|logs| - 1]];
      }
    }
  }

  function Max(a: nat, b: nat): nat { if a < b then b else a }

  /** What a connection delivers, in general: the logs up to the cutoff, then those of the
      subscription that are beyond both the cutoff and its own start. */
  lemma SpliceIs(logs: seq<Log>, c: Connection)
    requires ChainLog(logs) && c.In(logs)
    ensures Count(logs, c.cutoff) <= |logs|
    ensures var n := Count(logs, c.cutoff);
            Splice(logs, c) == logs[..n] + logs[Max(c.subscribed, n)..Max(c.ended, n)]
  {
    var n := Count(logs, c.cutoff);
    UpToIsPrefix(logs, c.cutoff);
    var window := logs[c.subscribed..c.ended];
    var k := if n <= c.subscribed then 0 else if n <= c.ended then n - c.subscribed else |window|;
    AboveIsSuffix(window, c.cutoff, k);
  }

  /** From a consistent node every log comes exactly once and in order, as far as the connection
      lasted. */
  lemma SpliceIsPrefix(logs: seq<Log>, c: Connection)
    requires ChainLog(logs) && c.In(logs) && c.Consistent(logs)
    ensures |Splice(logs, c)| == Max(c.ended, Count(logs, c.cutoff)) <= |logs|
    ensures Splice(logs, c) == logs[..|Splice(logs, c)|]
  {
    SpliceIs(logs, c);
    UpToIsPrefix(logs, c.cutoff);
    if c.subscribed > 0 {
      assert logs[c.subscribed - 1].block <= c.cutoff;
    }
  }

  /** The reliance on the node is exact: whenever the subscription brings anything at all, its
      answer must not be older. A log between cutoff and subscription is never seen. */
  lemma GapIffInconsistent(logs: seq<Log>, c: Connection)
    requires ChainLog(logs) && c.In(logs) && c.subscribed < c.ended
    ensures c.Consistent(logs) <==> Splice(logs, c) <= logs
  {
    SpliceIs(logs, c);
    UpToIsPrefix(logs, c.cutoff);
    var n := Count(logs, c.cutoff);
    if c.Consistent(logs) {
      SpliceIsPrefix(logs, c);
    } else {
      assert n < c.subscribed;
      assert Splice(logs, c)[n] == logs[c.subscribed];
      assert logs[n] != logs[c.subscribed];
    }
  }

  // ---- One manager per job ---------------------------------------------------------------------------

  /** `run_once`: a manager for every item of the stream. */
  method RunOnce(stream: seq<Log>, spawned: seq<nat>) returns (count: nat, now: seq<nat>)
    ensures count == |stream| && now == spawned + Ids(stream)
  {
    count, now := 0, spawned;
    while count < |stream|
      invariant count <= |stream|
      invariant now == spawned + Ids(stream[..count])
    {
      now := now + [stream[count].id];
      assert Ids(stream[..count + 1]) == Ids(stream[..count]) + [stream[count].id];
      count := count + 1;
    }
    assert stream[..count] == stream;
  }

  function Ids(logs: seq<Log>): (ids: seq<nat>)
    ensures |ids| == |logs| && forall i :: 0 <= i < |ids| ==> ids[i] == logs[i].id
  {
    seq(|logs|, i requires 0 <= i < |logs| => logs[i].id)
  }

  /** `StreamExt::skip`. */
  function Skip(stream: seq<Log>, n: nat): seq<Log> {
    if n <= |stream| then stream[n..] else []
  }

  /** The furthest any connection got. */
  function Furthest(logs: seq<Log>, cs: seq<Connection>): nat
    requires forall c :: c in cs ==> c.In(logs)
  {
    if cs == [] then 0 else Max(Furthest(logs, cs[..|cs| - 1]), |Splice(logs, cs[|cs| - 1])|)
  }

  /** Every connection's stream ends by then, and some connection's ends there. */
  lemma {:induction false} FurthestIsAttained(logs: seq<Log>, cs: seq<Connection>)
    requires forall c :: c in cs ==> c.In(logs)
    ensures forall c :: c in cs ==> |Splice(logs, c)| <= Furthest(logs, cs)
    ensures if cs == [] then Furthest(logs, cs) == 0
            else exists c :: c in cs && |Splice(logs, c)| == Furthest(logs, cs)
  {
    hide Splice;
    if cs != [] {
      var front, last := cs[..|cs| - 1], cs[|cs| - 1];
      FurthestIsAttained(logs, front);
      assert forall c :: c in cs ==> c in front || c == last;
      if Furthest(logs, cs) != |Splice(logs, last)| {
        var c :| c in front && |Splice(logs, c)| == Furthest(logs, front);
        assert c in cs;
      }
    }
  }

  /** `run`: over any number of connections, one manager for each of the first so many jobs of the
      log, in order. */
  method Run(logs: seq<Log>, cs: seq<Connection>) returns (jobCount: nat, spawned: seq<nat>)
    requires ChainLog(logs)
    requires forall c :: c in cs ==> c.In(logs) && c.Consistent(logs)
    ensures jobCount == Furthest(logs, cs) <= |logs|
    ensures spawned == Ids(logs[..jobCount])
  {
    hide ChainLog;
    hide Splice;
    jobCount, spawned := 0, [];
    var i := 0;
    while i < |cs|
      invariant i <= |cs|
      invariant jobCount == Furthest(logs, cs[..i]) <= |logs|
      invariant spawned == Ids(logs[..jobCount])
    {
      var stream := Splice(logs, cs[i]);
      SpliceIsPrefix(logs, cs[i]);
      var count;
      count, spawned := RunOnce(Skip(stream, jobCount), spawned);
      assert cs[..i + 1][..i] == cs[..i];
      SkipContinues(logs, |stream|, jobCount);
      jobCount := jobCount + count;
      i := i + 1;
    }
    assert cs[..i] == cs;
  }

  lemma SkipContinues(logs: seq<Log>, n: nat, done: nat)
    requires n <= |logs| && done <= |logs|
    ensures done + |Skip(logs[..n], done)| == Max(done, n)
    ensures Ids(logs[..done]) + Ids(Skip(logs[..n], done)) == Ids(logs[..Max(done, n)])
  {
  }
}
