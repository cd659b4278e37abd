/** The executor's pool of cgroups and the jobs that hold them
    (serverless/executor/src/cgroups.rs, job_handler.rs, workerd.rs). A job reserves a cgroup, runs
    its worker in it on a port taken from its name, and gives it back however it ends: by
    returning or by being dropped at any await point when its deadline passes. */
module Cgroups {
  import opened Bytes

  // ---- Ports -----------------------------------------------------------------------------------

  predicate IsDigit(c: char) { '0' <= c <= '9' }

  function DigitOf(c: char): nat
    requires IsDigit(c)
  {
    c as int - '0' as int
  }

  predicate AllDigits(s: string) { forall c :: c in s ==> IsDigit(c) }

  function ValueOf(s: string): nat
    requires AllDigits(s)
  {
    if s == "" then 0 else ValueOf(s[..|s| - 1]) * 10 + DigitOf(s[|s| - 1])
  }

  /** `u16::from_str_radix(s, 10)`: a plus sign is allowed, and so are leading zeros. */
  function ParseU16(s: string): Option<nat> {
    var digits := if s != "" && s[0] == '+' then s[1..] else s;
    if digits == "" || !AllDigits(digits) || ValueOf(digits) > 65535 then None else Some(ValueOf(digits))
  }

  /** `get_port`: the number after "workerd_", moved up by 11000 in 16-bit arithmetic. */
  function GetPort(cgroup: string): Option<nat> {
    if |cgroup| < 8 then None
    else
      match ParseU16(cgroup[8..])
      case None => None
      case Some(n) => Some((n + 11000) % 0x1_0000)
  }

  const PREFIX := "workerd_"

  function Decimal(n: nat): (s: string)
    ensures s != "" && AllDigits(s)
  {
    var last := ['0' + (n % 10) as char];
    if n < 10 then last else Decimal(n / 10) + last
  }

  /** The name the set-up script gives the `n`-th cgroup. */
  function Name(n: nat): string { PREFIX + Decimal(n) }

  lemma {:induction false} DecimalRoundTrip(n: nat)
    ensures ValueOf(Decimal(n)) == n
  {
    var last := ['0' + (n % 10) as char];
    if n < 10 {
      assert Decimal(n)[..0] == "";
    } else {
      DecimalRoundTrip(n / 10);
      assert Decimal(n)[..|Decimal(n)| - 1] == Decimal(n / 10);
    }
  }

  /** Ports and 16-bit numbers correspond one to one: a name's port says which cgroup it is. */
  lemma PortOfName(n: nat)
    ensures GetPort(Name(n)) == if n <= 65535 then Some((n + 11000) % 0x1_0000) else None
  {
    DecimalRoundTrip(n);
    assert Name(n)[8..] == Decimal(n);
    assert Decimal(n)[0] in Decimal(n);
  }

  lemma PortsOfNamesDiffer(m: nat, n: nat)
    requires GetPort(Name(m)).Some? && GetPort(Name(n)).Some?
    ensures GetPort(Name(m)) == GetPort(Name(n)) <==> m == n
  {
    PortOfName(m);
    PortOfName(n);
    hide GetPort;
    hide Name;
    if m <= 65535 && n <= 65535 {
      ShiftIsInjective(m, n);
    }
  }

  lemma ShiftIsInjective(m: nat, n: nat)
    requires m < 0x1_0000 && n < 0x1_0000
    ensures (m + 11000) % 0x1_0000 == (n + 11000) % 0x1_0000 <==> m == n
  {
  }

  /** Two names with ports, however they are spelled, share one exactly when what follows the prefix is
      the same number. */
  lemma PortsAreNumbers(s: string, t: string)
    requires GetPort(s).Some? && GetPort(t).Some?
    ensures |s| >= 8 && |t| >= 8
    ensures GetPort(s) == GetPort(t) <==> ParseU16(s[8..]) == ParseU16(t[8..])
  {
    ParsedFits(s[8..]);
    ParsedFits(t[8..]);
    hide ParseU16;
    ShiftIsInjective(ParseU16(s[8..]).value, ParseU16(t[8..]).value);
  }

  lemma ParsedFits(s: string)
    ensures ParseU16(s).Some? ==> ParseU16(s).value < 0x1_0000
  {
  }

  /** Other spellings of a number share its port. */
  lemma SpellingsCollide()
    ensures GetPort("workerd_1") == GetPort("workerd_01") == GetPort("workerd_+1") == Some(11001)
  {
    assert "workerd_1"[8..] == "1" && "workerd_01"[8..] == "01" && "workerd_+1"[8..] == "+1" && "+1"[1..] == "1";
    assert "1"[..0] == "" && "01"[..1] == "0" && "0"[..0] == "";
    assert ValueOf("0") == 0 && ValueOf("1") == 1 && ValueOf("01") == 1;
  }

  // ---- The pool ------------------------------------------------------------------------------------

  /** `Vec::swap_remove(0)`: the last element takes the first's place. */
  function SwapRemoveFirst(free: seq<string>): seq<string>
    requires free != []
  {
    if |free| == 1 then [] else [free[|free| - 1]] + free[1..|free| - 1]
  }

  class Cgroups {
    var free: seq<string>

    constructor (names: seq<string>)
      ensures free == names
    {
      free := names;
    }

    method Reserve() returns (r: Option<string>)
      modifies this
      ensures r.None? <==> old(free) == []
      ensures r.None? ==> free == old(free)
      ensures r.Some? ==> r.value == old(free)[0] && free == SwapRemoveFirst(old(free))
      ensures r.Some? ==> multiset(old(free)) == multiset(free) + multiset{r.value}
    {
      if |free| == 0 {
        return None;
      }
      r := Some(free[0]);
      SwapRemoveKeeps(free);
      var last := free[|free| - 1];
      free := free[..|free| - 1];
      if free != [] {
        free := free[0 := last];
      }
      assert free == SwapRemoveFirst(old(free));
    }

    method Release(cgroup: string)
      modifies this
      ensures free == old(free) + [cgroup]
    {
      free := free + [cgroup];
    }
  }

  /** What is left is in its old order, but for the last, which comes first. */
  lemma SwapRemoveIs(free: seq<string>, i: nat)
    requires i + 1 < |free|
    ensures |SwapRemoveFirst(free)| == |free| - 1
    ensures SwapRemoveFirst(free)[i] == if i == 0 then free[|free| - 1] else free[i]
  {
  }

  lemma SwapRemoveKeeps(free: seq<string>)
    requires free != []
    ensures multiset(free) == multiset(SwapRemoveFirst(free)) + multiset{free[0]}
  {
    if |free| == 1 {
      assert free == [free[0]];
    } else {
      var middle := free[1..|free| - 1];
      assert free == [free[0]] + middle + [free[|free| - 1]];
    }
  }

  // ---- Jobs ----------------------------------------------------------------------------------------

  /** Where a job is in `execute_job`: before the reservation, holding a cgroup, with a worker alive
      in it, or over. */
  datatype Job = Coding | Holding(cgroup: string) | Working(cgroup: string, port: nat) | Over

  datatype State = State(free: seq<string>, jobs: seq<Job>)

  datatype Event =
    | Begin
    | Reserve(job: nat)
    | Spawn(job: nat)
    | End(job: nat)  // a return, or the deadline

  /** What the deferred calls do as a job is dropped, last one first: the worker is killed, then its
      cgroup is released. */
  function Dropped(s: State, job: nat): State
    requires job < |s.jobs|
  {
    var j := s.jobs[job];
    State(if j.Holding? || j.Working? then s.free + [j.cgroup] else s.free, s.jobs[job := Over])
  }

  function Step(s: State, e: Event): State {
    match e
    case Begin => s.(jobs := s.jobs + [Coding])
    case Reserve(job) =>
      if job < |s.jobs| && s.jobs[job].Coding? then
        if s.free == [] then Dropped(s, job)
        else State(SwapRemoveFirst(s.free), s.jobs[job := Holding(s.free[0])])
      else s
    case Spawn(job) =>
      if job < |s.jobs| && s.jobs[job].Holding? then
        match GetPort(s.jobs[job].cgroup)
        case None => Dropped(s, job)
        case Some(port) => s.(jobs := s.jobs[job := Working(s.jobs[job].cgroup, port)])
      else s
    case End(job) =>
      if job < |s.jobs| && !s.jobs[job].Over? then Dropped(s, job) else s
  }

  function Run(s: State, es: seq<Event>): State {
    if es == [] then s else Step(Run(s, es[..|es| - 1]), es[|es| - 1])
  }

  function HeldBy(j: Job): multiset<string> {
    if j.Holding? || j.Working? then multiset{j.cgroup} else multiset{}
  }

  function Held(jobs: seq<Job>): multiset<string> {
    if jobs == [] then multiset{} else Held(jobs[..|jobs| - 1]) + HeldBy(jobs[|jobs| - 1])
  }

  lemma Exchange(x: multiset<string>, y: multiset<string>, a: multiset<string>, b: multiset<string>,
                 more: multiset<string>)
    requires x + a == y + b
    ensures x + more + a == y + more + b
  {
    assert x + more + a == x + a + more;
    assert y + more + b == y + b + more;
  }

  lemma {:induction false} HeldChanges(jobs: seq<Job>, i: nat, j: Job)
    requires i < |jobs|
    ensures Held(jobs[i := j]) + HeldBy(jobs[i]) == Held(jobs) + HeldBy(j)
    decreases |jobs|
  {
    hide HeldBy;
    var front, last := jobs[..|jobs| - 1], jobs[|jobs| - 1];
    if i == |jobs| - 1 {
      assert jobs[i := j][..|jobs| - 1] == front;
      var f, a, b := Held(front), HeldBy(last), HeldBy(j);
      assert Held(jobs[i := j]) == f + b && Held(jobs) == f + a;
      hide Held;
      assert f + b + a == f + a + b;
    } else {
      HeldChanges(front, i, j);
      assert jobs[i := j][..|jobs| - 1] == front[i := j];
      Exchange(Held(front[i := j]), Held(front), HeldBy(jobs[i]), HeldBy(j), HeldBy(last));
    }
  }

  lemma {:induction false} HeldIncludes(jobs: seq<Job>, i: nat)
    requires i < |jobs|
    ensures HeldBy(jobs[i]) <= Held(jobs)
  {
    hide HeldBy;
    if i < |jobs| - 1 {
      HeldIncludes(jobs[..|jobs| - 1], i);
    }
  }

  lemma {:induction false} HeldIncludesTwo(jobs: seq<Job>, i: nat, k: nat)
    requires i < k < |jobs|
    ensures HeldBy(jobs[i]) + HeldBy(jobs[k]) <= Held(jobs)
  {
    hide HeldBy;
    var front, last := jobs[..|jobs| - 1], HeldBy(jobs[|jobs| - 1]);
    assert Held(jobs) == Held(front) + last;
    if k < |jobs| - 1 {
      HeldIncludesTwo(front, i, k);
      hide Held;
    } else {
      HeldIncludes(front, i);
      hide Held;
      assert HeldBy(jobs[i]) <= Held(front);
    }
  }

  function Pool(s: State): multiset<string> {
    multiset(s.free) + Held(s.jobs)
  }

  lemma DroppedConserves(s: State, job: nat)
    requires job < |s.jobs|
    ensures Pool(Dropped(s, job)) == Pool(s)
  {
    hide Held;
    HeldChanges(s.jobs, job, Over);
    var h := Held(s.jobs[job := Over]);
    assert h + HeldBy(s.jobs[job]) == Held(s.jobs);
    assert Pool(Dropped(s, job)) == multiset(s.free) + (h + HeldBy(s.jobs[job]));
  }

  lemma ReserveConserves(s: State, job: nat)
    requires job < |s.jobs| && s.jobs[job].Coding? && s.free != []
    ensures Pool(State(SwapRemoveFirst(s.free), s.jobs[job := Holding(s.free[0])])) == Pool(s)
  {
    hide Held;
    hide SwapRemoveFirst;
    HeldChanges(s.jobs, job, Holding(s.free[0]));
    SwapRemoveKeeps(s.free);
    assert Held(s.jobs[job := Holding(s.free[0])]) == Held(s.jobs) + multiset{s.free[0]};
  }

  lemma BeginConserves(s: State)
    ensures Pool(s.(jobs := s.jobs + [Coding])) == Pool(s)
  {
    assert (s.jobs + [Coding])[..|s.jobs|] == s.jobs;
    assert Held(s.jobs + [Coding]) == Held(s.jobs) + multiset{};
  }

  lemma StepConserves(s: State, e: Event)
    ensures Pool(Step(s, e)) == Pool(s)
  {
    hide Pool;
    hide Held;
    hide SwapRemoveFirst;
    hide GetPort;
    hide Dropped;
    match e
    case Begin =>
      BeginConserves(s);
    case Reserve(job) =>
      if job < |s.jobs| && s.jobs[job].Coding? {
        if s.free == [] {
          DroppedConserves(s, job);
        } else {
          ReserveConserves(s, job);
        }
      }
    case Spawn(job) =>
      if job < |s.jobs| && s.jobs[job].Holding? {
        match GetPort(s.jobs[job].cgroup)
        case None => DroppedConserves(s, job);
        case Some(port) => SpawnConserves(s, job, port);
      }
    case End(job) =>
      if job < |s.jobs| {
        DroppedConserves(s, job);
      }
  }

  lemma SpawnConserves(s: State, job: nat, port: nat)
    requires job < |s.jobs| && s.jobs[job].Holding?
    ensures Pool(s.(jobs := s.jobs[job := Working(s.jobs[job].cgroup, port)])) == Pool(s)
  {
    hide Held;
    HeldChanges(s.jobs, job, Working(s.jobs[job].cgroup, port));
    var c := multiset{s.jobs[job].cgroup};
    var before, after := Held(s.jobs), Held(s.jobs[job := Working(s.jobs[job].cgroup, port)]);
    assert forall x :: (after + c)[x] == after[x] + c[x] && (before + c)[x] == before[x] + c[x];
    assert after == before;
  }

  /** Over any run, with jobs dropped anywhere: free and held cgroups together are the initial
      ones. */
  lemma {:induction false} PoolIsConserved(names: seq<string>, es: seq<Event>)
    ensures Pool(Run(State(names, []), es)) == multiset(names)
  {
    if es != [] {
      PoolIsConserved(names, es[..|es| - 1]);
      StepConserves(Run(State(names, []), es[..|es| - 1]), es[|es| - 1]);
    }
  }

  lemma {:induction false} AllOverHeldNone(jobs: seq<Job>)
    requires forall j :: j in jobs ==> j.Over?
    ensures Held(jobs) == multiset{}
  {
    if jobs != [] {
      AllOverHeldNone(jobs[..|jobs| - 1]);
      assert jobs[|jobs| - 1] in jobs;
    }
  }

  /** When every job is over, every cgroup is free again. */
  lemma NothingLeaks(names: seq<string>, es: seq<Event>)
    requires forall j :: j in Run(State(names, []), es).jobs ==> j.Over?
    ensures multiset(Run(State(names, []), es).free) == multiset(names)
  {
    PoolIsConserved(names, es);
    AllOverHeldNone(Run(State(names, []), es).jobs);
  }

  lemma {:induction false} PortsComeFromNames(names: seq<string>, es: seq<Event>)
    ensures forall j :: j in Run(State(names, []), es).jobs && j.Working? ==> GetPort(j.cgroup) == Some(j.port)
  {
    if es != [] {
      PortsComeFromNames(names, es[..|es| - 1]);
    }
  }

  /** With cgroups named as the set-up script names them, two jobs never hold the same cgroup, a held
      one is not free, and two live workers never listen on the same port. */
  lemma JobsAreIsolated(numbers: seq<nat>, es: seq<Event>, i: nat, k: nat)
    requires forall a, b :: 0 <= a < b < |numbers| ==> numbers[a] != numbers[b]
    requires i < k < |Run(State(Names(numbers), []), es).jobs|
    ensures var s := Run(State(Names(numbers), []), es);
            var p, q := s.jobs[i], s.jobs[k];
            && HeldBy(p) !! HeldBy(q)
            && HeldBy(p) !! multiset(s.free)
            && (p.Working? && q.Working? ==> p.port != q.port)
  {
    var names := Names(numbers);
    var s := Run(State(names, []), es);
    var p, q := s.jobs[i], s.jobs[k];
    PoolIsConserved(names, es);
    NamesAreDistinct(numbers);
    HeldIncludesTwo(s.jobs, i, k);
    if p.Working? && q.Working? {
      PortsComeFromNames(names, es);
      assert p in s.jobs && q in s.jobs;
      assert p.cgroup in multiset(names) && q.cgroup in multiset(names);
      var a :| 0 <= a < |names| && names[a] == p.cgroup;
      var b :| 0 <= b < |names| && names[b] == q.cgroup;
      PortsOfNamesDiffer(numbers[a], numbers[b]);
    }
  }

  function Names(numbers: seq<nat>): (names: seq<string>)
    ensures |names| == |numbers| && forall i :: 0 <= i < |names| ==> names[i] == Name(numbers[i])
  {
    seq(|numbers|, i requires 0 <= i < |numbers| => Name(numbers[i]))
  }

  lemma {:induction false} NamesAreDistinct(numbers: seq<nat>)
    requires forall a, b :: 0 <= a < b < |numbers| ==> numbers[a] != numbers[b]
    ensures forall c :: multiset(Names(numbers))[c] <= 1
  {
    if numbers != [] {
      var front, last := numbers[..|numbers| - 1], numbers[|numbers| - 1];
      NamesAreDistinct(front);
      assert Names(numbers) == Names(front) + [Name(last)];
      if Name(last) in Names(front) {
        var a :| 0 <= a < |front| && Names(front)[a] == Name(last);
        NamesDiffer(front[a], last);
      }
    }
  }

  lemma NamesDiffer(m: nat, n: nat)
    ensures Name(m) == Name(n) <==> m == n
  {
    DecimalRoundTrip(m);
    DecimalRoundTrip(n);
    assert Name(m)[8..] == Decimal(m) && Name(n)[8..] == Decimal(n);
  }

  // ---- The executor, in place -----------------------------------------------------------------------

  /** The shared pool and the jobs under way; each method is what one job does between two await
      points. */
  class Executor {
    const pool: Cgroups
    var jobs: seq<Job>

    constructor (pool: Cgroups)
      ensures this.pool == pool && jobs == []
    {
      this.pool := pool;
      jobs := [];
    }

    function Now(): State
      reads this, pool
    {
      State(pool.free, jobs)
    }

    method BeginJob() returns (job: nat)
      modifies this
      ensures job == |old(jobs)| && Now() == Step(old(Now()), Begin)
    {
      job := |jobs|;
      jobs := jobs + [Coding];
    }

    method ReserveFor(job: nat) returns (ok: bool)
      requires job < |jobs| && jobs[job].Coding?
      modifies this, pool
      ensures Now() == Step(old(Now()), Event.Reserve(job))
      ensures ok == jobs[job].Holding?
    {
      var cgroup := pool.Reserve();
      if cgroup.None? {
        jobs := jobs[job := Over];
        return false;
      }
      jobs := jobs[job := Holding(cgroup.value)];
      ok := true;
    }

    method SpawnFor(job: nat) returns (ok: bool)
      requires job < |jobs| && jobs[job].Holding?
      modifies this, pool
      ensures Now() == Step(old(Now()), Spawn(job))
      ensures ok == jobs[job].Working?
    {
      var cgroup := jobs[job].cgroup;
      match GetPort(cgroup)
      case None =>
        EndJob(job);
        ok := false;
      case Some(port) =>
        jobs := jobs[job := Working(cgroup, port)];
        ok := true;
    }

    /** The deferred calls of a job that returns or is dropped. */
    method EndJob(job: nat)
      requires job < |jobs| && !jobs[job].Over?
      modifies this, pool
      ensures Now() == Step(old(Now()), End(job)) == Dropped(old(Now()), job)
    {
      var j := jobs[job];
      jobs := jobs[job := Over];
      if j.Holding? || j.Working? {
        pool.Release(j.cgroup);
      }
    }

    /** Any interleaving of any jobs, each with a return or a deadline anywhere, is the run of its events,
        and conserves the pool; events that a job is not at are skipped. */
    method Interleave(script: seq<Event>)
      modifies this, pool
      ensures Now() == Run(old(Now()), script)
      ensures Pool(Now()) == old(Pool(Now()))
    {
      hide Pool;
      for i := 0 to |script|
        invariant Now() == Run(old(Now()), script[..i])
        invariant Pool(Now()) == old(Pool(Now()))
      {
        assert script[..i + 1][..i] == script[..i];
        StepConserves(Now(), script[i]);
        Perform(script[i]);
      }
      assert script[..|script|] == script;
    }

    method Perform(e: Event)
      modifies this, pool
      ensures Now() == Step(old(Now()), e)
    {
      match e {
        case Begin =>
          var _ := BeginJob();
        case Reserve(job) =>
          if job < |jobs| && jobs[job].Coding? {
            var _ := ReserveFor(job);
          }
        case Spawn(job) =>
          if job < |jobs| && jobs[job].Holding? {
            var _ := SpawnFor(job);
          }
        case End(job) =>
          if job < |jobs| && !jobs[job].Over? {
            EndJob(job);
          }
      }
    }
  }
}
