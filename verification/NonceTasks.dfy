/** The executor's sender and resender as they run: their retry loops with their local flags, emitting
    the atomic actions of `NonceQueue` while the other task and the chain act in between
    (serverless/executor/src/event_handler.rs:195-305, 519-732). */
module NonceTasks {
  import opened Bytes
  import opened NonceQueue

  datatype Task = TheSender | TheResender

  predicate Of(task: Task, a: Action) {
    match task case TheSender => SenderAction(a) case TheResender => ResenderAction(a)
  }

  /** What the RPC can answer to a transaction; `lost` marks an error for one that got through. */
  datatype Reply = Accepted | NonceTooLow | Retryable(lost: bool) | GivesUp(lost: bool)

  /** One action of one of the tasks or of the chain. */
  method Perform(ex: Executor, a: Action, ghost initial: nat)
    requires Inv(initial, ex.View()) && Enabled(ex.View(), a)
    modifies ex
    ensures Inv(initial, ex.View()) && ex.View() == Next(old(ex.View()), a)
    ensures old(ex.nonceToSend) <= ex.nonceToSend && old(ex.mined) <= ex.mined
  {
    StepKeepsInv(initial, ex.View(), a);
    StepKeepsCounts(initial, ex.View(), a);
    hide Inv;
    if SenderAction(a) {
      ex.SenderStep(a);
    } else if ResenderAction(a) {
      ex.ResenderStep(a);
    } else {
      ex.ChainStep(a);
    }
  }

  /** While `task` awaits: any actions of the other task and the chain. */
  method Meanwhile(ex: Executor, task: Task, ghost initial: nat)
    requires Inv(initial, ex.View())
    modifies ex
    ensures Inv(initial, ex.View())
    ensures old(ex.nonceToSend) <= ex.nonceToSend && old(ex.mined) <= ex.mined
    ensures task.TheSender? ==> ex.sender == old(ex.sender) && ex.nonceToSend == old(ex.nonceToSend)
    ensures task.TheResender? ==> ex.resender == old(ex.resender)
  {
    hide Inv;
    var script: seq<Action> := *;
    for i := 0 to |script|
      invariant Inv(initial, ex.View())
      invariant old(ex.nonceToSend) <= ex.nonceToSend && old(ex.mined) <= ex.mined
      invariant task.TheSender? ==> ex.sender == old(ex.sender) && ex.nonceToSend == old(ex.nonceToSend)
      invariant task.TheResender? ==> ex.resender == old(ex.resender)
    {
      if !Of(task, script[i]) && Enabled(ex.View(), script[i]) {
        OthersKeepOut(ex.View(), script[i]);
        Perform(ex, script[i], initial);
      }
    }
  }

  lemma OthersKeepOut(s: State, a: Action)
    requires Enabled(s, a)
    ensures !SenderAction(a) ==> Next(s, a).sender == s.sender && Next(s, a).nonceToSend == s.nonceToSend
    ensures !ResenderAction(a) ==> Next(s, a).resender == s.resender
  {
  }

  // ---- The RPC, and what it answered ----------------------------------------------------------------

  /** A transaction that was sent, a job output or a dummy, and the answer to it. */
  datatype Submission = Submission(dummy: bool, nonce: nat, reply: Reply)

  /** One task's client. It remembers what the task sent through it and what was fetched. */
  class Rpc {
    ghost var sent: seq<Submission>
    ghost var counts: seq<Option<nat>>
    ghost var receipts: seq<bool>

    constructor ()
      ensures sent == [] && counts == [] && receipts == []
    {
      sent, counts, receipts := [], [], [];
    }

    /** NonceTooLow is said of mined nonces only, and nothing of a mined nonce gets through. */
    method Send(dummy: bool, nonce: nat, mined: nat) returns (reply: Reply)
      modifies this`sent
      ensures sent == old(sent) + [Submission(dummy, nonce, reply)]
      ensures reply.Accepted? ==> nonce >= mined
      ensures reply.NonceTooLow? ==> nonce < mined
      ensures (reply.Retryable? || reply.GivesUp?) && reply.lost ==> nonce >= mined
    {
      var lost: bool := *;
      lost := lost && nonce >= mined;
      if {
        case nonce >= mined => reply := Accepted;
        case nonce < mined => reply := NonceTooLow;
        case true => reply := Retryable(lost);
        case true => reply := GivesUp(lost);
      }
      sent := sent + [Submission(dummy, nonce, reply)];
    }

    /** `get_transaction_count`, if it answers. */
    method Count(mined: nat) returns (count: Option<nat>)
      modifies this`counts
      ensures counts == old(counts) + [count]
      ensures count.Some? ==> count.value == mined
    {
      count := None;
      if * {
        count := Some(mined);
      }
      counts := counts + [count];
    }

    /** `get_transaction_receipt`, or the confirmation that was waited for: only of what is mined. */
    method Receipt(nonce: nat, mined: nat) returns (found: bool)
      modifies this`receipts
      ensures receipts == old(receipts) + [found]
      ensures found ==> nonce < mined
    {
      found := *;
      found := found && nonce < mined;
      receipts := receipts + [found];
    }
  }

  predicate AllRetryable(sent: seq<Submission>) {
    forall i :: 0 <= i < |sent| ==> sent[i].reply.Retryable?
  }

  /** All but the last were to be tried again. */
  predicate LastWas(sent: seq<Submission>, reply: Reply) {
    sent != [] && sent[|sent| - 1].reply == reply && AllRetryable(sent[..|sent| - 1])
  }

  predicate AllOf(sent: seq<Submission>, dummy: bool, nonce: nat) {
    forall i :: 0 <= i < |sent| ==> sent[i].dummy == dummy && sent[i].nonce == nonce
  }

  lemma OneMore(sent: seq<Submission>, s: Submission)
    requires AllRetryable(sent) && AllOf(sent, s.dummy, s.nonce)
    ensures AllOf(sent + [s], s.dummy, s.nonce) && LastWas(sent + [s], s.reply)
    ensures AllRetryable(sent + [s]) <==> s.reply.Retryable?
    ensures forall r :: LastWas(sent + [s], r) ==> r == s.reply
  {
    assert (sent + [s])[..|sent|] == sent;
    assert (sent + [s])[|sent|] == s;
  }

  // ---- The sender -----------------------------------------------------------------------------------

  /** How one attempt to send ended. */
  datatype Attempt = Queued(nonce: nat) | Again(update: bool) | Over

  function Failures(counts: seq<Option<nat>>): nat {
    if counts == [] then 0
    else Failures(counts[..|counts| - 1]) + if counts[|counts| - 1].None? then 1 else 0
  }

  /** A job output is tried again under the same nonce, or after NonceTooLow under a later one. */
  predicate Retries(first: Submission, next: Submission) {
    if first.reply.NonceTooLow? then first.nonce < next.nonce else first.reply.Retryable? && first.nonce == next.nonce
  }

  predicate TriedAgain(sent: seq<Submission>) {
    forall i :: 0 <= i < |sent| - 1 ==> Retries(sent[i], sent[i + 1])
  }

  predicate AllOutputs(sent: seq<Submission>) {
    forall i :: 0 <= i < |sent| ==> !sent[i].dummy
  }

  /** Whatever was sent asks to be tried again, after a new count or not; all turns went into that. */
  predicate Unsettled(sent: seq<Submission>, counts: seq<Option<nat>>, update: bool, nonce: nat, turns: nat) {
    && AllOutputs(sent) && TriedAgain(sent) && |sent| + Failures(counts) == turns
    && (sent == [] ==> !update)
    && (sent != [] ==>
          var last := sent[|sent| - 1];
          last.nonce == nonce && if update then last.reply.NonceTooLow? else last.reply.Retryable?)
  }

  /** Queued exactly if the last answer was that it is accepted, under the nonce it was sent with; given up
      on an answer that leaves no hope, or when the deadline has used up all the turns. */
  predicate SendOutcome(queued: Option<nat>, sent: seq<Submission>, counts: seq<Option<nat>>, deadline: nat) {
    && AllOutputs(sent) && TriedAgain(sent)
    && (queued.Some? <==> sent != [] && sent[|sent| - 1].reply.Accepted?)
    && (queued.Some? ==> queued.value == sent[|sent| - 1].nonce)
    && (queued.None? ==>
          (sent != [] && sent[|sent| - 1].reply.GivesUp?) || |sent| + Failures(counts) == deadline)
  }

  /** One job response in `send_execution_output`: retried until the deadline, with a fresh nonce after
      NonceTooLow. It is queued exactly if the last answer was that it is accepted, under the nonce it was
      sent with, and the counter is then moved past that. It is given up exactly on the last answer, or
      when all the turns there were time for have gone into retries and counts that were not answered. */
  method SendExecutionOutput(ex: Executor, rpc: Rpc, deadline: nat, ghost initial: nat)
    returns (queued: Option<nat>)
    requires Inv(initial, ex.View()) && ex.sender.Waiting?
    modifies ex, rpc
    ensures Inv(initial, ex.View()) && ex.sender.Waiting?
    ensures old(ex.nonceToSend) <= ex.nonceToSend
    ensures queued.Some? ==>
      && initial <= old(ex.nonceToSend) <= queued.value && ex.nonceToSend == queued.value + 1
      && Tracked(ex.View(), queued.value)
    ensures old(rpc.sent) <= rpc.sent && old(rpc.counts) <= rpc.counts && rpc.receipts == old(rpc.receipts)
    ensures SendOutcome(queued, rpc.sent[|old(rpc.sent)|..], rpc.counts[|old(rpc.counts)|..], deadline)
  {
    PassedIsTracked(initial, ex.View());
    hide Inv;
    hide Tracked;
    hide Unsettled;
    hide SendOutcome;
    ghost var sent0, counts0 := rpc.sent, rpc.counts;
    ghost var sent: seq<Submission>, counts: seq<Option<nat>> := [], [];
    Perform(ex, Receive, initial);
    var updateNonce := false;
    var left: nat := deadline;
    NothingSent(ex.nonceToSend);
    while left > 0
      invariant Inv(initial, ex.View()) && ex.sender == Retrying(updateNonce)
      invariant old(ex.nonceToSend) <= ex.nonceToSend && left <= deadline
      invariant rpc.sent == sent0 + sent && rpc.counts == counts0 + counts && rpc.receipts == old(rpc.receipts)
      invariant Unsettled(sent, counts, updateNonce, ex.nonceToSend, deadline - left)
    {
      ghost var nonce, update := ex.nonceToSend, updateNonce;
      left := left - 1;
      if updateNonce {
        var fetched := UpdateNonce(ex, rpc, initial);
        ghost var count := rpc.counts[|rpc.counts| - 1];
        assert rpc.counts == counts0 + (counts + [count]);
        CountedMore(sent, counts, nonce, deadline - left - 1, count);
        counts := counts + [count];
        if !fetched {
          continue;
        }
        updateNonce := false;
      }
      var attempt := SendOnce(ex, rpc, initial);
      ghost var last := rpc.sent[|rpc.sent| - 1];
      assert rpc.sent == sent0 + (sent + [last]);
      SentMore(sent, counts, update, nonce, deadline - left - 1, last, deadline);
      sent := sent + [last];
      assert rpc.sent[|sent0|..] == sent && rpc.counts[|counts0|..] == counts;
      match attempt
      case Queued(queuedNonce) =>
        return Some(queuedNonce);
      case Over =>
        return None;
      case Again(again) =>
        updateNonce := again;
    }
    Perform(ex, DeadlinePasses, initial);
    OutOfTime(sent, counts, updateNonce, ex.nonceToSend, deadline);
    assert rpc.sent[|sent0|..] == sent && rpc.counts[|counts0|..] == counts;
    queued := None;
  }

  lemma NothingSent(nonce: nat)
    ensures Unsettled([], [], false, nonce, 0)
  {
  }

  lemma CountedMore(sent: seq<Submission>, counts: seq<Option<nat>>, nonce: nat, turns: nat, count: Option<nat>)
    requires Unsettled(sent, counts, true, nonce, turns)
    ensures Unsettled(sent, counts + [count], true, nonce, turns + if count.None? then 1 else 0)
  {
    assert (counts + [count])[..|counts|] == counts;
  }

  lemma OutOfTime(sent: seq<Submission>, counts: seq<Option<nat>>, update: bool, nonce: nat, deadline: nat)
    requires Unsettled(sent, counts, update, nonce, deadline)
    ensures SendOutcome(None, sent, counts, deadline)
  {
  }

  lemma SentMore(sent: seq<Submission>, counts: seq<Option<nat>>, update: bool, nonce: nat, turns: nat,
                 s: Submission, deadline: nat)
    requires Unsettled(sent, counts, update, nonce, turns)
    requires !s.dummy && (if update then nonce < s.nonce else nonce == s.nonce)
    ensures s.reply.NonceTooLow? ==> Unsettled(sent + [s], counts, true, s.nonce, turns + 1)
    ensures s.reply.Retryable? ==> Unsettled(sent + [s], counts, false, s.nonce, turns + 1)
    ensures s.reply.Accepted? ==> SendOutcome(Some(s.nonce), sent + [s], counts, deadline)
    ensures s.reply.GivesUp? ==> SendOutcome(None, sent + [s], counts, deadline)
  {
    var all := sent + [s];
    forall i | 0 <= i < |all| - 1 ensures Retries(all[i], all[i + 1]) {
      assert all[i] == sent[i];
      if i + 1 < |sent| {
        assert all[i + 1] == sent[i + 1] && Retries(sent[i], sent[i + 1]);
      }
    }
    assert forall i :: 0 <= i < |sent| ==> all[i] == sent[i];
  }

  /** A fresh nonce from the network, exactly if it answers: the count it gives, which is later than the
      one that was too low. */
  method UpdateNonce(ex: Executor, rpc: Rpc, ghost initial: nat) returns (ok: bool)
    requires Inv(initial, ex.View()) && ex.sender == Retrying(true)
    modifies ex, rpc`counts
    ensures Inv(initial, ex.View()) && old(ex.nonceToSend) <= ex.nonceToSend
    ensures ex.sender == if ok then Reading else Retrying(true)
    ensures |rpc.counts| == |old(rpc.counts)| + 1 && old(rpc.counts) <= rpc.counts
    ensures var count := rpc.counts[|rpc.counts| - 1];
      && (ok <==> count.Some?)
      && (if ok then ex.nonceToSend == count.value > old(ex.nonceToSend) else ex.nonceToSend == old(ex.nonceToSend))
  {
    TooLowIsMined(initial, ex.View());
    hide Inv;
    var count := rpc.Count(ex.mined);
    ok := count.Some?;
    if !ok {
      Perform(ex, FetchFails, initial);
      Meanwhile(ex, TheSender, initial);
      return;
    }
    Perform(ex, FetchCount, initial);
    Meanwhile(ex, TheSender, initial);
    Perform(ex, StoreNonce, initial);
    Meanwhile(ex, TheSender, initial);
  }

  lemma TooLowIsMined(initial: nat, s: State)
    requires Inv(initial, s) && s.sender == Retrying(true)
    ensures s.nonceToSend < s.mined
  {
  }

  /** From reading the counter to the RPC's answer and what follows from it: one job output is sent, with
      the counter as its nonce. */
  method SendOnce(ex: Executor, rpc: Rpc, ghost initial: nat) returns (attempt: Attempt)
    requires Inv(initial, ex.View()) && (ex.sender == Retrying(false) || ex.sender == Reading)
    modifies ex, rpc`sent
    ensures Inv(initial, ex.View())
    ensures |rpc.sent| == |old(rpc.sent)| + 1 && old(rpc.sent) <= rpc.sent
    ensures var last, nonce := rpc.sent[|rpc.sent| - 1], old(ex.nonceToSend);
      && !last.dummy && last.nonce == nonce
      && match last.reply
         case Accepted =>
           && attempt == Queued(nonce) && ex.sender.Waiting? && ex.nonceToSend == nonce + 1
           && (initial <= nonce ==> Tracked(ex.View(), nonce))
         case NonceTooLow => attempt == Again(true) && ex.sender == Retrying(true) && ex.nonceToSend == nonce
         case Retryable(_) => attempt == Again(false) && ex.sender == Retrying(false) && ex.nonceToSend == nonce
         case GivesUp(_) => attempt == Over && ex.sender.Waiting? && ex.nonceToSend == nonce
  {
    hide Inv;
    hide Tracked;
    Perform(ex, ReadNonce, initial);
    var currentNonce := ex.sender.nonce;
    Meanwhile(ex, TheSender, initial);
    var reply := rpc.Send(false, currentNonce, ex.mined);
    match reply
    case NonceTooLow =>
      Perform(ex, SendNonceTooLow, initial);
      attempt := Again(true);
    case Retryable(lost) =>
      Perform(ex, SendRetryable(lost), initial);
      Meanwhile(ex, TheSender, initial);
      attempt := Again(false);
    case GivesUp(lost) =>
      Perform(ex, SendGivesUp(lost), initial);
      attempt := Over;
    case Accepted =>
      Perform(ex, SendOk, initial);
      QueueSent(ex, initial);
      attempt := Queued(currentNonce);
  }

  /** An accepted transaction is queued, then the counter is moved past it. */
  method QueueSent(ex: Executor, ghost initial: nat)
    requires Inv(initial, ex.View()) && ex.sender.Sent?
    modifies ex
    ensures Inv(initial, ex.View()) && ex.sender.Waiting?
    ensures old(ex.sender.nonce) == old(ex.nonceToSend) && ex.nonceToSend == old(ex.nonceToSend) + 1
    ensures initial <= old(ex.nonceToSend) ==> Tracked(ex.View(), old(ex.nonceToSend))
  {
    NonceInHand(initial, ex.View());
    hide Inv;
    hide Tracked;
    Meanwhile(ex, TheSender, initial);
    Perform(ex, PushBack, initial);
    Meanwhile(ex, TheSender, initial);
    Perform(ex, Increment, initial);
    PassedIsTracked(initial, ex.View());
  }

  lemma NonceInHand(initial: nat, s: State)
    requires Inv(initial, s) && s.sender.Sent?
    ensures s.sender.nonce == s.nonceToSend
  {
  }

  lemma PassedIsTracked(initial: nat, s: State)
    requires Inv(initial, s)
    ensures initial <= s.nonceToSend && forall n :: initial <= n < s.nonceToSend ==> Tracked(s, n)
  {
  }

  // ---- The resender ---------------------------------------------------------------------------------

  /** One turn of `resend_pending_transaction`: the front of the deque is found mined, sent again and put
      back in front, or replaced by a dummy until that is settled. The task lets go of the nonce only
      when it is mined or back in the deque. Nothing is sent if the receipt is found; otherwise the first
      `replaced` of what is sent are replacements of the job output, and there is a dummy only if these
      ended without settling the nonce. */
  method ResendPending(ex: Executor, rpc: Rpc, deadline: nat, patience: nat, ghost initial: nat)
    returns (nonce: Option<nat>, ghost replaced: nat)
    requires Inv(initial, ex.View()) && ex.resender.Empty?
    modifies ex, rpc
    ensures Inv(initial, ex.View())
    ensures nonce == if old(ex.pendingTxns) == [] then None else Some(old(ex.pendingTxns)[0])
    ensures nonce.None? ==> ex.resender.Empty? && rpc.sent == old(rpc.sent) && rpc.receipts == old(rpc.receipts)
    ensures nonce.Some? && ex.resender.Empty? ==> nonce.value < ex.mined || nonce.value in ex.pendingTxns
    ensures nonce.Some? && !ex.resender.Empty? ==> ex.resender == Dummy(nonce.value)
    ensures old(rpc.sent) <= rpc.sent && old(rpc.receipts) <= rpc.receipts
    ensures nonce.Some? ==>
      var sent, receipts := rpc.sent[|old(rpc.sent)|..], rpc.receipts[|old(rpc.receipts)|..];
      && receipts != []
      && (receipts[0] ==> sent == [] && ex.resender.Empty?)
      && (!receipts[0] ==>
            && replaced <= |sent| && AllOf(sent[..replaced], false, nonce.value)
            && AllOf(sent[replaced..], true, nonce.value)
            && if GivesWay(sent[..replaced], deadline) then
                 DummyOutcome(ex.resender.Empty?, sent[replaced..], receipts[1..], patience)
               else
                 && replaced == |sent| && receipts == [false] && ex.resender.Empty?
                 && (LastWas(sent, Accepted) || LastWas(sent, NonceTooLow))
                 && sent != []
                 && if sent[|sent| - 1].reply.Accepted? then ex.pendingTxns != [] && ex.pendingTxns[0] == nonce.value
                    else nonce.value < ex.mined)
  {
    hide Inv;
    hide AllOf;
    hide GivesWay;
    hide DummyOutcome;
    replaced := 0;
    if ex.pendingTxns == [] {
      return None, 0;
    }
    ghost var sent0, receipts0 := rpc.sent, rpc.receipts;
    Perform(ex, PopFront, initial);
    var mine := ex.resender.nonce;
    nonce := Some(mine);
    Meanwhile(ex, TheResender, initial);
    var receipt := rpc.Receipt(mine, ex.mined);
    assert rpc.receipts[|receipts0|..] == [receipt];
    if receipt {
      Perform(ex, ReceiptFound, initial);
      return;
    }
    Perform(ex, ReceiptMissing, initial);
    var sendDummy := Resend(ex, rpc, mine, deadline, initial);
    replaced := |rpc.sent| - |sent0|;
    ghost var replacements := rpc.sent[|sent0|..];
    assert replacements[..replaced] == replacements && replacements[replaced..] == [];
    NoneOf(true, mine);
    if !sendDummy {
      return;
    }
    ghost var sent1 := rpc.sent;
    SendDummy(ex, rpc, mine, patience, initial);
    ghost var dummies := rpc.sent[|sent1|..];
    assert rpc.sent[|sent0|..] == replacements + dummies;
    assert rpc.receipts[|receipts0|..] == [receipt] + rpc.receipts[|receipts0| + 1..];
    assert rpc.receipts[|receipts0|..][1..] == rpc.receipts[|receipts0| + 1..];
  }

  lemma NoneOf(dummy: bool, nonce: nat)
    ensures AllOf([], dummy, nonce) && AllRetryable([])
  {
  }

  /** The replacements end without settling the nonce: on an answer that leaves no hope, or with the
      deadline. */
  predicate GivesWay(sent: seq<Submission>, deadline: nat) {
    || (|sent| == deadline && AllRetryable(sent))
    || LastWas(sent, GivesUp(true)) || LastWas(sent, GivesUp(false))
  }

  /** What a replacement loop sends, and whether it is to be followed by dummies: only if it gives way, and
      otherwise the last answer was that the replacement is accepted or that its nonce is mined. */
  predicate ResendOutcome(sendDummy: bool, sent: seq<Submission>, nonce: nat, deadline: nat) {
    && AllOf(sent, false, nonce)
    && (sendDummy <==> GivesWay(sent, deadline))
    && (!sendDummy ==> LastWas(sent, Accepted) || LastWas(sent, NonceTooLow))
  }

  lemma ReplacedMore(sent: seq<Submission>, s: Submission, deadline: nat)
    requires AllRetryable(sent) && AllOf(sent, false, s.nonce) && !s.dummy && |sent| < deadline
    ensures s.reply.Retryable? ==> AllRetryable(sent + [s]) && AllOf(sent + [s], false, s.nonce)
    ensures !s.reply.Retryable? ==> ResendOutcome(s.reply.GivesUp?, sent + [s], s.nonce, deadline)
  {
    OneMore(sent, s);
  }

  lemma ReplacedInVain(sent: seq<Submission>, nonce: nat, deadline: nat)
    requires AllRetryable(sent) && AllOf(sent, false, nonce) && |sent| == deadline
    ensures ResendOutcome(true, sent, nonce, deadline)
  {
  }

  lemma Appended<T>(before: seq<T>, more: seq<T>, x: T)
    ensures before + more + [x] == before + (more + [x])
    ensures (before + (more + [x]))[|before|..] == more + [x]
  {
  }

  /** The replacement loop; true exactly if it ends without having settled the nonce. A replacement that
      is accepted is put back in front, and no dummy is sent for it. */
  method Resend(ex: Executor, rpc: Rpc, nonce: nat, deadline: nat, ghost initial: nat) returns (sendDummy: bool)
    requires Inv(initial, ex.View()) && ex.resender == Resending(nonce)
    modifies ex, rpc`sent
    ensures Inv(initial, ex.View())
    ensures sendDummy ==> ex.resender == Dummy(nonce)
    ensures old(rpc.sent) <= rpc.sent && |rpc.sent| <= |old(rpc.sent)| + deadline
    ensures var sent := rpc.sent[|old(rpc.sent)|..];
      && ResendOutcome(sendDummy, sent, nonce, deadline)
      && (!sendDummy ==>
            && ex.resender.Empty? && sent != []
            && if sent[|sent| - 1].reply.Accepted? then ex.pendingTxns != [] && ex.pendingTxns[0] == nonce
               else nonce < ex.mined)
  {
    hide Inv;
    hide AllOf;
    hide AllRetryable;
    hide LastWas;
    hide ResendOutcome;
    hide GivesWay;
    hide Tracked;
    ghost var sent0 := rpc.sent;
    ghost var sent: seq<Submission> := [];
    var left: nat := deadline;
    NoneOf(false, nonce);
    while left > 0
      invariant Inv(initial, ex.View()) && ex.resender == Resending(nonce)
      invariant rpc.sent == sent0 + sent && |sent| == deadline - left
      invariant AllOf(sent, false, nonce) && AllRetryable(sent)
    {
      left := left - 1;
      Meanwhile(ex, TheResender, initial);
      var reply := rpc.Send(false, nonce, ex.mined);
      ReplacedMore(sent, Submission(false, nonce, reply), deadline);
      Appended(sent0, sent, Submission(false, nonce, reply));
      sent := sent + [Submission(false, nonce, reply)];
      match reply
      case NonceTooLow =>
        Perform(ex, ResendNonceTooLow, initial);
        return false;
      case Retryable(lost) =>
        Perform(ex, ResendRetryable(lost), initial);
      case GivesUp(lost) =>
        Perform(ex, ResendGivesUp(lost), initial);
        return true;
      case Accepted =>
        PutBack(ex, nonce, initial);
        return false;
    }
    assert rpc.sent[|sent0|..] == sent;
    ReplacedInVain(sent, nonce, deadline);
    Perform(ex, ResendDeadlinePasses, initial);
    sendDummy := true;
  }

  /** A replacement that is accepted goes back to the front of the deque. */
  method PutBack(ex: Executor, nonce: nat, ghost initial: nat)
    requires Inv(initial, ex.View()) && ex.resender == Resending(nonce) && nonce >= ex.mined
    modifies ex
    ensures Inv(initial, ex.View()) && ex.resender.Empty?
    ensures ex.pendingTxns != [] && ex.pendingTxns[0] == nonce
  {
    hide Inv;
    Perform(ex, ResendOk, initial);
    Meanwhile(ex, TheResender, initial);
    Perform(ex, PushFront, initial);
  }

  /** The dummy's answers: one is confirmed, or the last is NonceTooLow, or all the time there was went
      into dummies, every one of them not accepted or not confirmed. */
  predicate DummyOutcome(settled: bool, sent: seq<Submission>, confirmed: seq<bool>, patience: nat) {
    && |sent| <= patience
    && (settled <==> (confirmed != [] && confirmed[|confirmed| - 1])
                     || (sent != [] && sent[|sent| - 1].reply.NonceTooLow?))
    && (forall i :: 0 <= i < |confirmed| - 1 ==> !confirmed[i])
    && (forall i :: 0 <= i < |sent| - 1 ==> !sent[i].reply.NonceTooLow?)
    && (!settled ==> |sent| == patience)
  }

  /** The dummy loop, for as long as it is watched. */
  method SendDummy(ex: Executor, rpc: Rpc, nonce: nat, patience: nat, ghost initial: nat)
    requires Inv(initial, ex.View()) && ex.resender == Dummy(nonce)
    modifies ex, rpc`sent, rpc`receipts
    ensures Inv(initial, ex.View())
    ensures ex.resender == Dummy(nonce) || (ex.resender.Empty? && nonce < ex.mined)
    ensures old(rpc.sent) <= rpc.sent && old(rpc.receipts) <= rpc.receipts
    ensures AllOf(rpc.sent[|old(rpc.sent)|..], true, nonce)
    ensures DummyOutcome(ex.resender.Empty?, rpc.sent[|old(rpc.sent)|..], rpc.receipts[|old(rpc.receipts)|..],
                         patience)
  {
    hide Inv;
    hide AllOf;
    hide Open;
    hide DummyOutcome;
    ghost var sent0, receipts0 := rpc.sent, rpc.receipts;
    ghost var sent: seq<Submission>, receipts: seq<bool> := [], [];
    var left: nat := patience;
    NoDummyYet(nonce);
    while left > 0
      invariant Inv(initial, ex.View()) && ex.resender == Dummy(nonce)
      invariant rpc.sent == sent0 + sent && rpc.receipts == receipts0 + receipts && left <= patience
      invariant Open(sent, nonce, receipts, patience - left)
    {
      left := left - 1;
      Meanwhile(ex, TheResender, initial);
      var reply := rpc.Send(true, nonce, ex.mined);
      DummyMore(sent, nonce, receipts, patience - left - 1, Submission(true, nonce, reply), patience);
      Appended(sent0, sent, Submission(true, nonce, reply));
      sent := sent + [Submission(true, nonce, reply)];
      assert rpc.receipts[|receipts0|..] == receipts;
      match reply
      case NonceTooLow =>
        Perform(ex, DummyNonceTooLow, initial);
        return;
      case Retryable(lost) =>
        Perform(ex, DummyRefused(lost), initial);
      case GivesUp(lost) =>
        Perform(ex, DummyRefused(lost), initial);
      case Accepted =>
        var confirmed := AwaitDummy(ex, rpc, nonce, initial);
        AwaitedMore(sent, nonce, receipts, patience - left, confirmed, patience);
        Appended(receipts0, receipts, confirmed);
        receipts := receipts + [confirmed];
        if confirmed {
          return;
        }
    }
    NoneSettled(sent, nonce, receipts, patience);
    assert rpc.sent[|sent0|..] == sent && rpc.receipts[|receipts0|..] == receipts;
  }

  /** So far no dummy has been confirmed or found too low. */
  predicate Open(sent: seq<Submission>, nonce: nat, confirmed: seq<bool>, turns: nat) {
    && |sent| == turns && AllOf(sent, true, nonce)
    && (forall i :: 0 <= i < |confirmed| ==> !confirmed[i])
    && (forall i :: 0 <= i < |sent| ==> !sent[i].reply.NonceTooLow?)
  }

  lemma NoDummyYet(nonce: nat)
    ensures Open([], nonce, [], 0)
  {
  }

  lemma DummyMore(sent: seq<Submission>, nonce: nat, confirmed: seq<bool>, turns: nat, s: Submission, patience: nat)
    requires Open(sent, nonce, confirmed, turns) && turns < patience && s.dummy && s.nonce == nonce
    ensures AllOf(sent + [s], true, nonce)
    ensures s.reply.NonceTooLow? ==> DummyOutcome(true, sent + [s], confirmed, patience)
    ensures !s.reply.NonceTooLow? ==> Open(sent + [s], nonce, confirmed, turns + 1)
  {
    assert forall i :: 0 <= i < |sent| ==> (sent + [s])[i] == sent[i];
  }

  lemma AwaitedMore(sent: seq<Submission>, nonce: nat, confirmed: seq<bool>, turns: nat, b: bool, patience: nat)
    requires Open(sent, nonce, confirmed, turns) && turns <= patience
    ensures if b then DummyOutcome(true, sent, confirmed + [b], patience) && AllOf(sent, true, nonce)
            else Open(sent, nonce, confirmed + [b], turns)
  {
    assert forall i :: 0 <= i < |confirmed| ==> (confirmed + [b])[i] == confirmed[i];
  }

  lemma NoneSettled(sent: seq<Submission>, nonce: nat, confirmed: seq<bool>, patience: nat)
    requires Open(sent, nonce, confirmed, patience)
    ensures DummyOutcome(false, sent, confirmed, patience) && AllOf(sent, true, nonce)
  {
  }

  /** A dummy that is accepted, and its confirmation if it comes. */
  method AwaitDummy(ex: Executor, rpc: Rpc, nonce: nat, ghost initial: nat) returns (confirmed: bool)
    requires Inv(initial, ex.View()) && ex.resender == Dummy(nonce) && nonce >= ex.mined
    modifies ex, rpc`receipts
    ensures Inv(initial, ex.View())
    ensures rpc.receipts == old(rpc.receipts) + [confirmed]
    ensures if confirmed then ex.resender.Empty? && nonce < ex.mined else ex.resender == Dummy(nonce)
  {
    hide Inv;
    Perform(ex, DummySent, initial);
    Meanwhile(ex, TheResender, initial);
    confirmed := rpc.Receipt(nonce, ex.mined);
    if confirmed {
      Perform(ex, DummyConfirmed, initial);
    }
  }
}
