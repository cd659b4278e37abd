/** The executor's transaction sender and resender: two tasks that share a nonce counter and a
    deque, one atomic section at a time, against a chain that mines, drops and refuses. */
module NonceQueue {

  /** Where the sender stands: waiting for a job, at the head of its retry loop (`update` asks for
      a fresh nonce), with a fetched count, about to read the counter, with a transaction at the
      RPC, with an accepted one, and with it queued but the counter not yet incremented. */
  datatype Sender =
    | Waiting
    | Retrying(update: bool)
    | Fetched(count: nat)
    | Reading
    | Sending(nonce: nat)
    | Sent(nonce: nat)
    | Pushed(nonce: nat)

  /** Where the resender stands with the entry it took off the front of the deque. */
  datatype Resender =
    | Empty
    | Watching(nonce: nat)
    | Resending(nonce: nat)
    | Resent(nonce: nat)
    | Dummy(nonce: nat)

  /** `mined` is the account's transaction count; `mempool` what the chain may mine next. */
  datatype State = State(
    nonceToSend: nat, pending: seq<nat>, sender: Sender, resender: Resender, mined: nat, mempool: set<nat>)

  /** Atomic sections. `lost` marks an error reply for a transaction that got through anyway. */
  datatype Action =
    | Receive | DeadlinePasses | FetchFails | FetchCount | StoreNonce | ReadNonce
    | SendOk | SendNonceTooLow | SendRetryable(lost: bool) | SendGivesUp(lost: bool) | PushBack | Increment
    | PopFront | ReceiptFound | ReceiptMissing | ResendDeadlinePasses
    | ResendOk | ResendNonceTooLow | ResendRetryable(lost: bool) | ResendGivesUp(lost: bool) | PushFront
    | DummySent | DummyRefused(lost: bool) | DummyNonceTooLow | DummyConfirmed
    | Mine | Drop(nonce: nat)

  function Init(nonce: nat): State { State(nonce, [], Waiting, Empty, nonce, {}) }

  /** The RPC accepts what is not mined yet, and says NonceTooLow of mined nonces only. */
  predicate Enabled(s: State, a: Action) {
    match a
    case Receive => s.sender.Waiting?
    case DeadlinePasses => s.sender.Retrying?
    case FetchFails => s.sender == Retrying(true)
    case FetchCount => s.sender == Retrying(true)
    case StoreNonce => s.sender.Fetched?
    case ReadNonce => s.sender == Retrying(false) || s.sender.Reading?
    case SendOk => s.sender.Sending? && s.sender.nonce >= s.mined
    case SendNonceTooLow => s.sender.Sending? && s.sender.nonce < s.mined
    case SendRetryable(lost) => s.sender.Sending? && (lost ==> s.sender.nonce >= s.mined)
    case SendGivesUp(lost) => s.sender.Sending? && (lost ==> s.sender.nonce >= s.mined)
    case PushBack => s.sender.Sent?
    case Increment => s.sender.Pushed?
    case PopFront => s.resender.Empty? && s.pending != []
    case ReceiptFound => s.resender.Watching? && s.resender.nonce < s.mined
    case ReceiptMissing => s.resender.Watching?
    case ResendDeadlinePasses => s.resender.Resending?
    case ResendOk => s.resender.Resending? && s.resender.nonce >= s.mined
    case ResendNonceTooLow => s.resender.Resending? && s.resender.nonce < s.mined
    case ResendRetryable(lost) => s.resender.Resending? && (lost ==> s.resender.nonce >= s.mined)
    case ResendGivesUp(lost) => s.resender.Resending? && (lost ==> s.resender.nonce >= s.mined)
    case PushFront => s.resender.Resent?
    case DummySent => s.resender.Dummy? && s.resender.nonce >= s.mined
    case DummyRefused(lost) => s.resender.Dummy? && (lost ==> s.resender.nonce >= s.mined)
    case DummyNonceTooLow => s.resender.Dummy? && s.resender.nonce < s.mined
    case DummyConfirmed => s.resender.Dummy? && s.resender.nonce < s.mined
    case Mine => s.mined in s.mempool
    case Drop(nonce) => nonce in s.mempool
  }

  function Submit(mempool: set<nat>, nonce: nat, through: bool): set<nat> {
    if through then mempool + {nonce} else mempool
  }

  function Next(s: State, a: Action): State
    requires Enabled(s, a)
  {
    match a
    case Receive => s.(sender := Retrying(false))
    case DeadlinePasses => s.(sender := Waiting)
    case FetchFails => s
    case FetchCount => s.(sender := Fetched(s.mined))
    case StoreNonce => s.(nonceToSend := s.sender.count, sender := Reading)
    case ReadNonce => s.(sender := Sending(s.nonceToSend))
    case SendOk => s.(mempool := s.mempool + {s.sender.nonce}, sender := Sent(s.sender.nonce))
    case SendNonceTooLow => s.(sender := Retrying(true))
    case SendRetryable(lost) => s.(mempool := Submit(s.mempool, s.sender.nonce, lost), sender := Retrying(false))
    case SendGivesUp(lost) => s.(mempool := Submit(s.mempool, s.sender.nonce, lost), sender := Waiting)
    case PushBack => s.(pending := s.pending + [s.sender.nonce], sender := Pushed(s.sender.nonce))
    case Increment => s.(nonceToSend := s.nonceToSend + 1, sender := Waiting)
    case PopFront => s.(resender := Watching(s.pending[0]), pending := s.pending[1..])
    case ReceiptFound => s.(resender := Empty)
    case ReceiptMissing => s.(resender := Resending(s.resender.nonce))
    case ResendDeadlinePasses => s.(resender := Dummy(s.resender.nonce))
    case ResendOk => s.(mempool := s.mempool + {s.resender.nonce}, resender := Resent(s.resender.nonce))
    case ResendNonceTooLow => s.(resender := Empty)
    case ResendRetryable(lost) => s.(mempool := Submit(s.mempool, s.resender.nonce, lost))
    case ResendGivesUp(lost) =>
      s.(mempool := Submit(s.mempool, s.resender.nonce, lost), resender := Dummy(s.resender.nonce))
    case PushFront => s.(pending := [s.resender.nonce] + s.pending, resender := Empty)
    case DummySent => s.(mempool := s.mempool + {s.resender.nonce})
    case DummyRefused(lost) => s.(mempool := Submit(s.mempool, s.resender.nonce, lost))
    case DummyNonceTooLow => s.(resender := Empty)
    case DummyConfirmed => s.(resender := Empty)
    case Mine => s.(mined := s.mined + 1, mempool := s.mempool - {s.mined})
    case Drop(nonce) => s.(mempool := s.mempool - {nonce})
  }

  // ---- what every reachable state satisfies ----

  /** The nonce in the resender's hands comes before the whole deque, which is increasing. */
  ghost predicate Ordered(s: State) {
    && (forall i, j :: 0 <= i < j < |s.pending| ==> s.pending[i] < s.pending[j])
    && (!s.resender.Empty? ==> forall i :: 0 <= i < |s.pending| ==> s.resender.nonce < s.pending[i])
  }

  /** Everything queued was handed out by the counter. */
  ghost predicate BelowCounter(s: State) {
    var bound := if s.sender.Pushed? then s.nonceToSend + 1 else s.nonceToSend;
    && (forall i :: 0 <= i < |s.pending| ==> s.pending[i] < bound)
    && (!s.resender.Empty? ==> s.resender.nonce < bound)
  }

  /** What the sender knows about the counter and the chain. */
  predicate SenderKnows(s: State) {
    match s.sender
    case Retrying(true) => s.nonceToSend < s.mined
    case Fetched(count) => s.nonceToSend < count <= s.mined
    case Sending(nonce) => nonce == s.nonceToSend
    case Sent(nonce) => nonce == s.nonceToSend
    case Pushed(nonce) => nonce == s.nonceToSend
    case _ => true
  }

  ghost predicate Tracked(s: State, n: nat) {
    || n < s.mined
    || n in s.pending
    || (!s.resender.Empty? && s.resender.nonce == n)
  }

  ghost predicate Inv(initial: nat, s: State) {
    && initial <= s.mined && initial <= s.nonceToSend
    && Ordered(s) && BelowCounter(s) && SenderKnows(s)
    && (forall n :: initial <= n < s.nonceToSend ==> Tracked(s, n))
    && (s.sender.Pushed? ==> Tracked(s, s.nonceToSend))
    && (forall n :: n in s.mempool ==> n <= s.nonceToSend)
    && s.mined <= s.nonceToSend + 1
  }

  lemma StepKeepsOrder(initial: nat, s: State, a: Action)
    requires Inv(initial, s) && Enabled(s, a)
    ensures Ordered(Next(s, a)) && BelowCounter(Next(s, a)) && SenderKnows(Next(s, a))
  {
    if SenderAction(a) {
      SenderKeepsOrder(initial, s, a);
    } else if ResenderAction(a) {
      ResenderKeepsOrder(initial, s, a);
    } else {
      ChainKeepsOrder(initial, s, a);
    }
  }

  lemma SenderKeepsOrder(initial: nat, s: State, a: Action)
    requires Inv(initial, s) && Enabled(s, a) && SenderAction(a)
    ensures Ordered(Next(s, a)) && BelowCounter(Next(s, a)) && SenderKnows(Next(s, a))
  {
    hide Tracked;
  }

  lemma ResenderKeepsOrder(initial: nat, s: State, a: Action)
    requires Inv(initial, s) && Enabled(s, a) && ResenderAction(a)
    ensures Ordered(Next(s, a)) && BelowCounter(Next(s, a)) && SenderKnows(Next(s, a))
  {
    hide Tracked;
  }

  lemma ChainKeepsOrder(initial: nat, s: State, a: Action)
    requires Inv(initial, s) && Enabled(s, a) && !SenderAction(a) && !ResenderAction(a)
    ensures Ordered(Next(s, a)) && BelowCounter(Next(s, a)) && SenderKnows(Next(s, a))
  {
    hide Tracked;
  }

  /** A nonce once tracked stays tracked: only mined ones leave the deque and the tasks' hands. */
  lemma StepKeepsTracked(s: State, a: Action, n: nat)
    requires Enabled(s, a) && Tracked(s, n)
    ensures Tracked(Next(s, a), n)
  {
    var t := Next(s, a);
    if n in s.pending && t.pending != s.pending {
      var i :| 0 <= i < |s.pending| && s.pending[i] == n;
      match a
      case PopFront => assert i > 0 ==> t.pending[i - 1] == n;
      case PushFront => assert t.pending[i + 1] == n;
      case PushBack => assert t.pending[i] == n;
    }
  }

  lemma StepKeepsInv(initial: nat, s: State, a: Action)
    requires Inv(initial, s) && Enabled(s, a)
    ensures Inv(initial, Next(s, a))
  {
    var t := Next(s, a);
    StepKeepsOrder(initial, s, a);
    StepKeepsCounts(initial, s, a);
    forall n | initial <= n < t.nonceToSend ensures Tracked(t, n) {
      if n < s.nonceToSend || (a == Increment && n == s.nonceToSend) {
        StepKeepsTracked(s, a, n);
      } else {
        assert a == StoreNonce && n < s.mined;
      }
    }
    if t.sender.Pushed? {
      if a == PushBack {
        assert t.pending[|s.pending|] == t.nonceToSend;
      } else {
        StepKeepsTracked(s, a, s.nonceToSend);
      }
    }
  }

  lemma StepKeepsCounts(initial: nat, s: State, a: Action)
    requires Inv(initial, s) && Enabled(s, a)
    ensures
      var t := Next(s, a);
      && initial <= t.mined <= t.nonceToSend + 1 && s.nonceToSend <= t.nonceToSend
      && (forall n :: n in t.mempool ==> n <= t.nonceToSend)
  {
    hide Tracked;
    hide Ordered;
  }

  /** A run: each action is enabled where it is taken. */
  ghost predicate Run(initial: nat, ss: seq<State>, actions: seq<Action>) {
    && |ss| == |actions| + 1 && ss[0] == Init(initial)
    && forall i :: 0 <= i < |actions| ==> Enabled(ss[i], actions[i]) && ss[i + 1] == Next(ss[i], actions[i])
  }

  lemma {:induction false} Reachable(initial: nat, ss: seq<State>, actions: seq<Action>, n: nat)
    requires Run(initial, ss, actions) && n < |ss|
    ensures Inv(initial, ss[n])
  {
    if n > 0 {
      Reachable(initial, ss, actions, n - 1);
      StepKeepsInv(initial, ss[n - 1], actions[n - 1]);
    }
  }

  /** No nonce gap, in every reachable state: a nonce the counter has passed is mined, queued,
      or in the resender's hands; and the first unmined one is what the resender will come to
      next, nothing unmined being ahead of it. */
  lemma NoNonceGap(initial: nat, ss: seq<State>, actions: seq<Action>, k: nat)
    requires Run(initial, ss, actions) && k < |ss|
    ensures forall n :: initial <= n < ss[k].nonceToSend ==> Tracked(ss[k], n)
    ensures
      var s := ss[k];
      s.mined < s.nonceToSend ==>
        || (!s.resender.Empty? && s.resender.nonce == s.mined)
        || exists i :: 0 <= i < |s.pending| && s.pending[i] == s.mined
                       && (forall j :: 0 <= j < i ==> s.pending[j] < s.mined)
                       && (!s.resender.Empty? ==> s.resender.nonce < s.mined)
  {
    Reachable(initial, ss, actions, k);
    var s := ss[k];
    if s.mined < s.nonceToSend {
      assert Tracked(s, s.mined);
    }
  }

  /** The deque is strictly increasing from front to back, and the counter never decreases, not
      even when it is refreshed after NonceTooLow. */
  lemma QueueIsOrdered(initial: nat, ss: seq<State>, actions: seq<Action>, k: nat)
    requires Run(initial, ss, actions) && k < |ss|
    ensures forall i, j :: 0 <= i < j < |ss[k].pending| ==> ss[k].pending[i] < ss[k].pending[j]
    ensures k > 0 ==> ss[k - 1].nonceToSend <= ss[k].nonceToSend
    ensures ss[k].mined <= ss[k].nonceToSend + 1
  {
    Reachable(initial, ss, actions, k);
    if k > 0 {
      Reachable(initial, ss, actions, k - 1);
      StepKeepsCounts(initial, ss[k - 1], actions[k - 1]);
    }
  }

  /** A resender that cannot resend, because of the deadline, the gas or the contract, turns to
      a dummy transaction, and lets the nonce go only once it is mined. */
  lemma ResenderReleasesOnlyMined(s: State, a: Action)
    requires Enabled(s, a) && !s.resender.Empty?
    ensures Next(s, a).resender.Empty? ==>
              s.resender.nonce < s.mined || Next(s, a).pending == [s.resender.nonce] + s.pending
    ensures a == ResendDeadlinePasses || a.ResendGivesUp? ==> Next(s, a).resender == Dummy(s.resender.nonce)
    ensures s.resender.Dummy? ==> Next(s, a).resender == s.resender || s.resender.nonce < s.mined
  {
  }

  // ---- getting through ----

  /** What each action does to what the chain has and may come to have: a transaction that is accepted, or
      lost on the way back, may be mined, and only the chain itself drops one. */
  lemma ChainSees(s: State, a: Action)
    requires Enabled(s, a)
    ensures var t := Next(s, a);
      match a
      case SendOk => t.mempool == s.mempool + {s.sender.nonce} && t.mined == s.mined
      case ResendOk => t.mempool == s.mempool + {s.resender.nonce} && t.mined == s.mined
      case DummySent => t.mempool == s.mempool + {s.resender.nonce} && t.mined == s.mined
      case SendRetryable(lost) =>
        t.mined == s.mined && t.mempool == if lost then s.mempool + {s.sender.nonce} else s.mempool
      case SendGivesUp(lost) =>
        t.mined == s.mined && t.mempool == if lost then s.mempool + {s.sender.nonce} else s.mempool
      case ResendRetryable(lost) =>
        t.mined == s.mined && t.mempool == if lost then s.mempool + {s.resender.nonce} else s.mempool
      case ResendGivesUp(lost) =>
        t.mined == s.mined && t.mempool == if lost then s.mempool + {s.resender.nonce} else s.mempool
      case DummyRefused(lost) =>
        t.mined == s.mined && t.mempool == if lost then s.mempool + {s.resender.nonce} else s.mempool
      case Mine => s.mined in s.mempool && t.mined == s.mined + 1 && t.mempool == s.mempool - {s.mined}
      case Drop(nonce) => t.mined == s.mined && t.mempool == s.mempool - {nonce}
      case _ => t.mined == s.mined && t.mempool == s.mempool
  {
  }

  /** The state after a script; actions not possible where it has them are skipped. */
  function After(s: State, script: seq<Action>): State {
    if script == [] then s
    else
      var t := After(s, script[..|script| - 1]);
      if Enabled(t, script[|script| - 1]) then Next(t, script[|script| - 1]) else t
  }

  lemma AfterOne(s: State, a: Action)
    requires Enabled(s, a)
    ensures After(s, [a]) == Next(s, a)
  {
    assert [a][..0] == [];
  }

  lemma {:induction false} AfterBoth(s: State, first: seq<Action>, rest: seq<Action>)
    ensures After(s, first + rest) == After(After(s, first), rest)
    decreases |rest|
  {
    if rest == [] {
      assert first + rest == first;
    } else {
      var n := |rest| - 1;
      assert (first + rest)[..|first| + n] == first + rest[..n];
      AfterBoth(s, first, rest[..n]);
    }
  }

  /** What the resender has before it, in steps. */
  function Backlog(s: State): nat {
    2 * |s.pending| + if s.resender.Empty? then 0 else if s.resender.Resent? then 3 else 1
  }

  /** The queue always gets through: from every reachable state in which a nonce that was sent is not mined
      yet, whatever was refused, lost or dropped before, resender and chain alone can get the next mined. */
  lemma {:induction false} AlwaysGetsThrough(initial: nat, s: State) returns (script: seq<Action>)
    requires Inv(initial, s) && s.mined < s.nonceToSend
    ensures forall a :: a in script ==> !SenderAction(a)
    ensures After(s, script).mined > s.mined
    decreases Backlog(s)
  {
    hide After;
    assert Tracked(s, s.mined);
    if !s.resender.Empty? && s.resender.nonce == s.mined {
      script := Unblock(s);
    } else {
      var a := if s.resender.Empty? then PopFront
               else if s.resender.Watching? then ReceiptFound
               else if s.resender.Resending? then ResendNonceTooLow
               else if s.resender.Resent? then PushFront else DummyNonceTooLow;
      assert !s.resender.Empty? ==> s.resender.nonce < s.mined;
      StepKeepsInv(initial, s, a);
      hide Inv;
      var rest := AlwaysGetsThrough(initial, Next(s, a));
      AfterOne(s, a);
      AfterBoth(s, [a], rest);
      script := [a] + rest;
    }
  }

  /** The resender has the next nonce in hand: it sends it once more, and the chain mines it. */
  lemma Unblock(s: State) returns (script: seq<Action>)
    requires !s.resender.Empty? && s.resender.nonce == s.mined
    ensures forall a :: a in script ==> !SenderAction(a)
    ensures After(s, script).mined > s.mined
  {
    hide After;
    if s.resender.Dummy? {
      script := SendAndMine(s, DummySent);
    } else if s.resender.Resending? {
      script := SendAndMine(s, ResendOk);
    } else {
      var a := if s.resender.Watching? then ReceiptMissing else PushFront;
      var t := Next(s, a);
      AfterOne(s, a);
      if a == ReceiptMissing {
        script := SendAndMine(t, ResendOk);
      } else {
        var u := Next(t, PopFront);
        var v := Next(u, ReceiptMissing);
        script := SendAndMine(v, ResendOk);
        AfterOne(u, ReceiptMissing);
        AfterBoth(u, [ReceiptMissing], script);
        AfterOne(t, PopFront);
        AfterBoth(t, [PopFront], [ReceiptMissing] + script);
        script := [PopFront] + ([ReceiptMissing] + script);
      }
      AfterBoth(s, [a], script);
      script := [a] + script;
    }
  }

  lemma SendAndMine(s: State, a: Action) returns (script: seq<Action>)
    requires (a == ResendOk && s.resender.Resending?) || (a == DummySent && s.resender.Dummy?)
    requires s.resender.nonce == s.mined
    ensures script == [a, Mine] && After(s, script).mined == s.mined + 1
  {
    AfterOne(s, a);
    AfterOne(Next(s, a), Mine);
    AfterBoth(s, [a], [Mine]);
    script := [a, Mine];
    assert script == [a] + [Mine];
  }

  /** The state as the two tasks share it, updated in place. */
  class Executor {
    var nonceToSend: nat
    var pendingTxns: seq<nat>
    var sender: Sender
    var resender: Resender
    var mined: nat
    var mempool: set<nat>

    function View(): State reads this {
      State(nonceToSend, pendingTxns, sender, resender, mined, mempool)
    }

    constructor (nonce: nat)
      ensures View() == Init(nonce)
    {
      nonceToSend, pendingTxns, sender, resender, mined, mempool := nonce, [], Waiting, Empty, nonce, {};
    }

    method SenderStep(a: Action)
      requires Enabled(View(), a) && SenderAction(a)
      modifies this`nonceToSend, this`pendingTxns, this`sender, this`mempool
      ensures View() == Next(old(View()), a)
    {
      match a {
        case Receive => sender := Retrying(false);
        case DeadlinePasses => sender := Waiting;
        case FetchFails =>
        case FetchCount => sender := Fetched(mined);
        case StoreNonce =>
          // update the nonce in the app state
          nonceToSend := sender.count;
          sender := Reading;
        case ReadNonce => sender := Sending(nonceToSend);
        case SendOk =>
          mempool := mempool + {sender.nonce};
          sender := Sent(sender.nonce);
        case SendNonceTooLow => sender := Retrying(true);
        case SendRetryable(lost) =>
          mempool := Submit(mempool, sender.nonce, lost);
          sender := Retrying(false);
        case SendGivesUp(lost) =>
          mempool := Submit(mempool, sender.nonce, lost);
          sender := Waiting;
        case PushBack =>
          pendingTxns := pendingTxns + [sender.nonce];
          sender := Pushed(sender.nonce);
        case Increment =>
          nonceToSend := nonceToSend + 1;
          sender := Waiting;
      }
    }

    method ResenderStep(a: Action)
      requires Enabled(View(), a) && ResenderAction(a)
      modifies this`pendingTxns, this`resender, this`mempool
      ensures View() == Next(old(View()), a)
    {
      match a {
        case PopFront =>
          resender := Watching(pendingTxns[0]);
          pendingTxns := pendingTxns[1..];
        case ReceiptMissing => resender := Resending(resender.nonce);
        case ResendDeadlinePasses => resender := Dummy(resender.nonce);
        case ResendOk =>
          mempool := mempool + {resender.nonce};
          resender := Resent(resender.nonce);
        case ResendRetryable(lost) => mempool := Submit(mempool, resender.nonce, lost);
        case ResendGivesUp(lost) =>
          mempool := Submit(mempool, resender.nonce, lost);
          resender := Dummy(resender.nonce);
        case PushFront =>
          pendingTxns := [resender.nonce] + pendingTxns;
          resender := Empty;
        case DummySent => mempool := mempool + {resender.nonce};
        case DummyRefused(lost) => mempool := Submit(mempool, resender.nonce, lost);
        case ReceiptFound => resender := Empty;
        case ResendNonceTooLow => resender := Empty;
        case DummyNonceTooLow => resender := Empty;
        case DummyConfirmed => resender := Empty;
      }
    }

    method ChainStep(a: Action)
      requires Enabled(View(), a) && !SenderAction(a) && !ResenderAction(a)
      modifies this`mined, this`mempool
      ensures View() == Next(old(View()), a)
    {
      match a {
        case Mine =>
          mempool := mempool - {mined};
          mined := mined + 1;
        case Drop(nonce) => mempool := mempool - {nonce};
      }
    }

    /** Any interleaving of the two tasks and the chain; actions not possible where the script
        has them are skipped. */
    method Interleave(script: seq<Action>, ghost initial: nat)
      requires Inv(initial, View())
      modifies this
      ensures Inv(initial, View()) && old(nonceToSend) <= nonceToSend && old(mined) <= mined
      ensures View() == After(old(View()), script)
    {
      hide Inv;
      for i := 0 to |script|
        invariant Inv(initial, View()) && old(nonceToSend) <= nonceToSend && old(mined) <= mined
        invariant View() == After(old(View()), script[..i])
      {
        assert script[..i + 1][..i] == script[..i];
        var a := script[i];
        if Enabled(View(), a) {
          StepKeepsInv(initial, View(), a);
          StepKeepsCounts(initial, View(), a);
          if SenderAction(a) {
            SenderStep(a);
          } else if ResenderAction(a) {
            ResenderStep(a);
          } else {
            ChainStep(a);
          }
        }
      }
      assert script[..|script|] == script;
    }
  }

  predicate SenderAction(a: Action) {
    || a.Receive? || a.DeadlinePasses? || a.FetchFails? || a.FetchCount? || a.StoreNonce? || a.ReadNonce? || a.SendOk?
    || a.SendNonceTooLow? || a.SendRetryable? || a.SendGivesUp? || a.PushBack? || a.Increment?
  }

  predicate ResenderAction(a: Action) {
    || a.PopFront? || a.ReceiptFound? || a.ReceiptMissing? || a.ResendDeadlinePasses? || a.ResendOk?
    || a.ResendNonceTooLow? || a.ResendRetryable? || a.ResendGivesUp? || a.PushFront? || a.DummySent?
    || a.DummyRefused? || a.DummyNonceTooLow? || a.DummyConfirmed?
  }
}
