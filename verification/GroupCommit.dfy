/** The leader-only-gate group commit of the cluster messaging coordinator: the queue
    of publish jobs, the batch a gate-holder drains, and the protocol run by any
    number of concurrent publishers, some of which are dropped on the way. */
module GroupCommit {
  import opened Text

  type Op = int

  /** The budget of operations coalesced into one proposal. */
  const GROUP_COMMIT_MAX := 512

  /** One publisher's operations; the `caller`th publisher to push made it. */
  datatype Job = Job(caller: nat, ops: seq<Op>)

  // ---- sequences of jobs ----

  function GroupOps(batch: seq<Job>): seq<Op> {
    if batch == [] then [] else GroupOps(batch[..|batch| - 1]) + batch[|batch| - 1].ops
  }

  function Flatten(batches: seq<seq<Job>>): seq<Job> {
    if batches == [] then [] else Flatten(batches[..|batches| - 1]) + batches[|batches| - 1]
  }

  lemma FlattenSnoc(batches: seq<seq<Job>>, batch: seq<Job>)
    ensures Flatten(batches + [batch]) == Flatten(batches) + batch
  {
    assert (batches + [batch])[..|batches|] == batches;
  }

  lemma {:induction false} FlattenMember(batches: seq<seq<Job>>, job: Job)
    ensures job in Flatten(batches) <==> exists j :: 0 <= j < |batches| && job in batches[j]
  {
    if batches != [] {
      var front := batches[..|batches| - 1];
      FlattenMember(front, job);
      assert forall j :: 0 <= j < |front| ==> front[j] == batches[j];
    }
  }

  lemma {:induction false} GroupOpsMonotone(batch: seq<Job>, n: nat)
    requires n <= |batch|
    ensures |GroupOps(batch[..n])| <= |GroupOps(batch)|
  {
    if n < |batch| {
      GroupOpsMonotone(batch[..|batch| - 1], n);
      assert batch[..|batch| - 1][..n] == batch[..n];
    } else {
      assert batch[..n] == batch;
    }
  }

  /** A job's operations lie together and in order in the proposal of its batch. */
  lemma {:induction false} OpsAreContiguous(batch: seq<Job>, k: nat) returns (before: seq<Op>, after: seq<Op>)
    requires k < |batch|
    ensures GroupOps(batch) == before + batch[k].ops + after
    ensures before == GroupOps(batch[..k])
  {
    var front := batch[..|batch| - 1];
    if k == |batch| - 1 {
      before, after := GroupOps(front), [];
    } else {
      before, after := OpsAreContiguous(front, k);
      assert front[..k] == batch[..k];
      after := after + batch[|batch| - 1].ops;
    }
  }

  /** `n` jobs are the greedy maximal prefix within the budget, at least one job. */
  ghost predicate Greedy(queue: seq<Job>, n: nat) {
    && 0 < n <= |queue|
    && (n == 1 || |GroupOps(queue[..n])| <= GROUP_COMMIT_MAX)
    && (n == |queue| || |GroupOps(queue[..n + 1])| > GROUP_COMMIT_MAX)
  }

  lemma GreedyUnique(queue: seq<Job>, m: nat, n: nat)
    requires Greedy(queue, m) && Greedy(queue, n)
    ensures m == n
  {
    if m < n {
      assert queue[..n][..m + 1] == queue[..m + 1];
      GroupOpsMonotone(queue[..n], m + 1);
    } else if n < m {
      assert queue[..m][..n + 1] == queue[..n + 1];
      GroupOpsMonotone(queue[..m], n + 1);
    }
  }

  /** The longest prefix within the budget, or one job if even that is over it. */
  lemma GreedyIsLongest(queue: seq<Job>, n: nat)
    requires queue != []
    ensures Greedy(queue, n) <==>
              && 1 <= n <= |queue| && (n > 1 ==> |GroupOps(queue[..n])| <= GROUP_COMMIT_MAX)
              && forall m :: n < m <= |queue| ==> |GroupOps(queue[..m])| > GROUP_COMMIT_MAX
  {
    if Greedy(queue, n) {
      forall m | n < m <= |queue| ensures |GroupOps(queue[..m])| > GROUP_COMMIT_MAX {
        assert queue[..m][..n + 1] == queue[..n + 1];
        GroupOpsMonotone(queue[..m], n + 1);
      }
    }
  }

  /** The queue that every publisher pushes to and the gate-holder drains. */
  class CommitQueue {
    var jobs: seq<Job>

    constructor ()
      ensures jobs == []
    {
      jobs := [];
    }

    method Push(job: Job)
      modifies this
      ensures jobs == old(jobs) + [job]
    {
      jobs := jobs + [job];
    }

    /** Remove the next batch. */
    method Drain() returns (batch: seq<Job>)
      modifies this
      ensures old(jobs) == batch + jobs
      ensures if old(jobs) == [] then batch == [] else Greedy(old(jobs), |batch|)
    {
      if jobs == [] { return []; }
      var n, count := 0, 0;
      while n < |jobs|
        invariant 0 <= n <= |jobs| && count == |GroupOps(jobs[..n])|
        invariant n <= 1 || count <= GROUP_COMMIT_MAX
      {
        assert jobs[..n + 1][..n] == jobs[..n];
        if n > 0 && count + |jobs[n].ops| > GROUP_COMMIT_MAX { break; }
        count := count + |jobs[n].ops|;
        n := n + 1;
      }
      batch := jobs[..n];
      jobs := jobs[n..];
    }
  }

  /** The operations of one proposal and the one-shots it will resolve. */
  method Assemble(batch: seq<Job>) returns (ops: seq<Op>, dones: seq<nat>)
    ensures ops == GroupOps(batch)
    ensures |dones| == |batch| && forall k :: 0 <= k < |batch| ==> dones[k] == batch[k].caller
  {
    ops, dones := [], [];
    for k := 0 to |batch|
      invariant ops == GroupOps(batch[..k])
      invariant |dones| == k && forall j :: 0 <= j < k ==> dones[j] == batch[j].caller
    {
      assert batch[..k + 1][..k] == batch[..k];
      ops := ops + batch[k].ops;
      dones := dones + [batch[k].caller];
    }
    assert batch[..|batch|] == batch;
  }

  // ---- the protocol ----

  /** What a one-shot resolves to: the proposal succeeded, it reported an error (and may
      still have committed), or the sender was dropped with its leader. */
  datatype Reply = Committed | Failed | Canceled

  /** Where a publisher is: in the `select` over the gate and its one-shot, holding the
      gate between proposals, awaiting a proposal, past the gate and awaiting its
      one-shot, returned, or dropped by its caller. */
  datatype Phase = Waiting | Leading | Proposing | Finishing | Returned(reply: Reply) | Dropped

  /** `pushed` and `outcome` are history: every job in push order, and the reply given to
      each settled batch of `proposed`. `log` is the replicated log, as the numbers of the
      proposals whose entries landed in it. */
  datatype State = State(
    pushed: seq<Job>,
    queue: seq<Job>,
    phase: seq<Phase>,
    gate: Option<nat>,
    reply: map<nat, Reply>,
    proposed: seq<seq<Job>>,
    outcome: seq<Reply>,
    log: seq<nat>)

  const INITIAL := State([], [], [], None, map[], [], [], [])

  /** `Land` is a copy of a proposal reaching the replicated log: a retried or abandoned
      proposal may land late or more than once. */
  datatype Step =
    | Push(ops: seq<Op>)
    | TakeGate(i: nat)
    | SeeReply(i: nat)
    | Drain(i: nat, n: nat)
    | LeaveLoop(i: nat)
    | Land(j: nat)
    | Finish(i: nat, ok: bool)
    | Drop(i: nat)

  ghost predicate Enabled(s: State, step: Step) {
    match step
    case Push(_) => true
    case TakeGate(i) => i < |s.phase| && s.phase[i] == Waiting && s.gate == None
    case SeeReply(i) => i < |s.phase| && (s.phase[i] == Waiting || s.phase[i] == Finishing) && i in s.reply
    case Drain(i, n) => i < |s.phase| && s.phase[i] == Leading && Greedy(s.queue, n)
    case LeaveLoop(i) => i < |s.phase| && s.phase[i] == Leading && s.queue == []
    case Land(j) => j < |s.proposed|
    // a proposal reports success only after a copy of it committed
    case Finish(i, ok) => i < |s.phase| && s.phase[i] == Proposing && |s.proposed| > 0
                          && (ok ==> |s.proposed| - 1 in s.log)
    case Drop(i) => i < |s.phase| && !s.phase[i].Returned? && s.phase[i] != Dropped
                    && (s.phase[i] == Proposing ==> |s.proposed| > 0)
  }

  /** Every one-shot of the batch in flight resolves to `r`. */
  function Settle(s: State, r: Reply): State
    requires |s.proposed| > 0
  {
    var batch := s.proposed[|s.proposed| - 1];
    s.(reply := s.reply + map job | job in batch :: job.caller := r, outcome := s.outcome + [r])
  }

  function After(s: State, step: Step): State
    requires Enabled(s, step)
  {
    match step
    case Push(ops) =>
      var job := Job(|s.pushed|, ops);
      s.(pushed := s.pushed + [job], queue := s.queue + [job], phase := s.phase + [Waiting])
    case TakeGate(i) => s.(phase := s.phase[i := Leading], gate := Some(i))
    case SeeReply(i) => s.(phase := s.phase[i := Returned(s.reply[i])])
    case Drain(i, n) =>
      s.(phase := s.phase[i := Proposing], queue := s.queue[n..], proposed := s.proposed + [s.queue[..n]])
    case LeaveLoop(i) => s.(phase := s.phase[i := Finishing], gate := None)
    case Land(j) => s.(log := s.log + [j])
    case Finish(i, ok) => Settle(s, if ok then Committed else Failed).(phase := s.phase[i := Leading])
    case Drop(i) =>
      var s' := if s.phase[i] == Proposing then Settle(s, Canceled) else s;
      s'.(phase := s.phase[i := Dropped],
          gate := if s.phase[i] == Leading || s.phase[i] == Proposing then None else s.gate)
  }

  // ---- the invariant ----

  predicate InFlight(s: State) {
    s.gate.Some? && s.gate.value < |s.phase| && s.phase[s.gate.value] == Proposing
  }

  /** Push order is kept: what was proposed, batch after batch, then what is queued, is
      what was pushed. */
  ghost predicate InPushOrder(s: State) {
    && |s.phase| == |s.pushed|
    && (forall i :: 0 <= i < |s.pushed| ==> s.pushed[i].caller == i)
    && s.pushed == Flatten(s.proposed) + s.queue
  }

  ghost predicate GateIsExclusive(s: State) {
    && (s.gate.Some? ==> s.gate.value < |s.phase|)
    && forall i :: 0 <= i < |s.phase| ==> (s.phase[i] == Leading || s.phase[i] == Proposing <==> s.gate == Some(i))
  }

  /** How many publishers, the first to push, belong to settled batches. */
  function Settled(s: State): nat
    requires |s.outcome| <= |s.proposed|
  {
    |Flatten(s.proposed[..|s.outcome|])|
  }

  ghost predicate RepliedWith(reply: map<nat, Reply>, batch: seq<Job>, r: Reply) {
    forall k :: 0 <= k < |batch| ==> batch[k].caller in reply && reply[batch[k].caller] == r
  }

  /** All but the batch in flight are settled, and exactly their members have replies,
      the same for the whole batch. */
  ghost predicate RepliesFollowBatches(s: State) {
    && |s.proposed| == |s.outcome| + (if InFlight(s) then 1 else 0)
    && (forall i: nat :: i in s.reply <==> i < Settled(s))
    && (forall j :: 0 <= j < |s.outcome| ==> RepliedWith(s.reply, s.proposed[j], s.outcome[j]))
  }

  ghost predicate PublishersAwaitReplies(s: State) {
    forall i :: 0 <= i < |s.phase| ==>
      && (s.phase[i] == Finishing ==> i in s.reply)
      && (s.phase[i].Returned? ==> i in s.reply && s.reply[i] == s.phase[i].reply)
  }

  /** Some copy of proposal `j` landed before every copy of every later proposal. */
  ghost predicate LandedInOrder(s: State, j: nat) {
    exists k :: 0 <= k < |s.log| && s.log[k] == j && forall k' :: 0 <= k' < |s.log| && s.log[k'] > j ==> k < k'
  }

  ghost predicate CommittedLanded(s: State) {
    && (forall k :: 0 <= k < |s.log| ==> s.log[k] < |s.proposed|)
    && (forall j :: 0 <= j < |s.outcome| && s.outcome[j] == Committed ==> LandedInOrder(s, j))
  }

  ghost predicate BatchesAreBounded(s: State) {
    forall j :: 0 <= j < |s.proposed| ==>
      |s.proposed[j]| == 1 || (|s.proposed[j]| > 1 && |GroupOps(s.proposed[j])| <= GROUP_COMMIT_MAX)
  }

  ghost predicate Inv(s: State) {
    InPushOrder(s) && GateIsExclusive(s) && RepliesFollowBatches(s) && PublishersAwaitReplies(s)
    && CommittedLanded(s) && BatchesAreBounded(s)
  }

  lemma OrderKept(s: State, step: Step)
    requires InPushOrder(s) && Enabled(s, step)
    ensures InPushOrder(After(s, step))
  {
    match step
    case Push(ops) =>
      var job := Job(|s.pushed|, ops);
      assert Flatten(s.proposed) + s.queue + [job] == Flatten(s.proposed) + (s.queue + [job]);
    case Drain(i, n) =>
      FlattenSnoc(s.proposed, s.queue[..n]);
      assert Flatten(s.proposed) + s.queue == Flatten(s.proposed) + s.queue[..n] + s.queue[n..];
    case _ =>
  }

  lemma GateKept(s: State, step: Step)
    requires GateIsExclusive(s) && BatchesAreBounded(s) && Enabled(s, step)
    ensures GateIsExclusive(After(s, step)) && BatchesAreBounded(After(s, step))
  {
  }

  /** Settled publishers pushed before those of the batch in flight. */
  lemma CallersInOrder(s: State)
    requires InPushOrder(s) && |s.proposed| > 0
    ensures var f := |Flatten(s.proposed[..|s.proposed| - 1])|; var batch := s.proposed[|s.proposed| - 1];
            && (forall j, k :: 0 <= j < |s.proposed| - 1 && 0 <= k < |s.proposed[j]| ==> s.proposed[j][k].caller < f)
            && (forall k :: 0 <= k < |batch| ==> batch[k].caller == f + k)
  {
    var front := s.proposed[..|s.proposed| - 1];
    forall j, k | 0 <= j < |front| && 0 <= k < |s.proposed[j]| ensures s.proposed[j][k].caller < |Flatten(front)| {
      assert s.proposed[j][k] in front[j];
      FlattenMember(front, s.proposed[j][k]);
      var p :| 0 <= p < |Flatten(front)| && Flatten(front)[p] == s.proposed[j][k];
      assert s.pushed[p] == Flatten(front)[p];
    }
    var batch := s.proposed[|s.proposed| - 1];
    forall k | 0 <= k < |batch| ensures batch[k].caller == |Flatten(front)| + k {
      assert s.pushed[|Flatten(front)| + k] == batch[k];
    }
  }

  /** Settling gives exactly the batch in flight a reply and changes no other. */
  lemma SettleReplies(s: State, r: Reply)
    requires InPushOrder(s) && RepliesFollowBatches(s) && InFlight(s)
    ensures forall i: nat :: i in Settle(s, r).reply <==> i < |Flatten(s.proposed)|
    ensures forall i: nat :: i < |Flatten(s.proposed)| ==>
              Settle(s, r).reply[i] == if i in s.reply then s.reply[i] else r
  {
    CallersInOrder(s);
    var front, batch := s.proposed[..|s.proposed| - 1], s.proposed[|s.proposed| - 1];
    var reply := Settle(s, r).reply;
    forall i: nat | |Flatten(front)| <= i < |Flatten(s.proposed)| ensures i in reply && reply[i] == r {
      assert batch[i - |Flatten(front)|].caller == i;
    }
  }

  lemma SettleFollowsBatches(s: State, r: Reply, s': State)
    requires InPushOrder(s) && RepliesFollowBatches(s) && InFlight(s)
    requires s' == Settle(s, r).(phase := s'.phase, gate := s'.gate) && !InFlight(s')
    ensures RepliesFollowBatches(s')
  {
    SettleReplies(s, r);
    CallersInOrder(s);
    assert s'.proposed[..|s'.outcome|] == s.proposed;
    forall j | 0 <= j < |s'.outcome| ensures RepliedWith(s'.reply, s'.proposed[j], s'.outcome[j]) {
      if j < |s.outcome| { assert RepliedWith(s.reply, s.proposed[j], s.outcome[j]); }
    }
  }

  lemma RepliesKept(s: State, step: Step)
    requires InPushOrder(s) && GateIsExclusive(s) && RepliesFollowBatches(s) && Enabled(s, step)
    ensures RepliesFollowBatches(After(s, step))
  {
    var s' := After(s, step);
    match step
    case Finish(i, ok) => SettleFollowsBatches(s, if ok then Committed else Failed, s');
    case Drop(i) =>
      if s.phase[i] == Proposing { SettleFollowsBatches(s, Canceled, s'); }
    case Drain(i, n) => assert s'.proposed[..|s.outcome|] == s.proposed[..|s.outcome|];
    case _ =>
  }

  /** A leader that finds the queue empty has already been replied to. */
  lemma LeaverHasReply(s: State, i: nat)
    requires InPushOrder(s) && GateIsExclusive(s) && RepliesFollowBatches(s) && Enabled(s, LeaveLoop(i))
    ensures i in s.reply
  {
    assert s.proposed[..|s.outcome|] == s.proposed;
  }

  lemma PublishersKept(s: State, step: Step)
    requires InPushOrder(s) && GateIsExclusive(s) && RepliesFollowBatches(s) && PublishersAwaitReplies(s) && Enabled(s, step)
    ensures PublishersAwaitReplies(After(s, step))
  {
    match step
    case LeaveLoop(i) => LeaverHasReply(s, i);
    case Finish(i, ok) => SettleReplies(s, if ok then Committed else Failed);
    case Drop(i) =>
      if s.phase[i] == Proposing { SettleReplies(s, Canceled); }
    case _ =>
  }

  lemma LandingKept(s: State, step: Step)
    requires GateIsExclusive(s) && RepliesFollowBatches(s) && CommittedLanded(s) && Enabled(s, step)
    ensures CommittedLanded(After(s, step))
  {
    var s' := After(s, step);
    forall j | 0 <= j < |s'.outcome| && s'.outcome[j] == Committed ensures LandedInOrder(s', j) {
      if j < |s.outcome| {
        var k :| 0 <= k < |s.log| && s.log[k] == j && forall k' :: 0 <= k' < |s.log| && s.log[k'] > j ==> k < k';
        assert s'.log[k] == j;
      } else {
        var k :| 0 <= k < |s.log| && s.log[k] == j;
        assert s'.log[k] == j;
      }
    }
  }

  lemma InvKept(s: State, step: Step)
    requires Inv(s) && Enabled(s, step)
    ensures Inv(After(s, step))
  {
    OrderKept(s, step);
    GateKept(s, step);
    RepliesKept(s, step);
    PublishersKept(s, step);
    LandingKept(s, step);
  }

  /** `states` is a run of the protocol under some interleaving `steps`. */
  ghost predicate Run(states: seq<State>, steps: seq<Step>) {
    && |states| == |steps| + 1
    && states[0] == INITIAL
    && forall t {:trigger steps[t]} :: 0 <= t < |steps| ==>
         Enabled(states[t], steps[t]) && states[t + 1] == After(states[t], steps[t])
  }

  lemma {:induction false} InvAlways(states: seq<State>, steps: seq<Step>, t: nat)
    requires Run(states, steps) && t < |states|
    ensures Inv(states[t])
  {
    if t > 0 {
      InvAlways(states, steps, t - 1);
      InvKept(states[t - 1], steps[t - 1]);
    } else {
      assert Settled(INITIAL) == 0;
    }
  }

  // ---- what every interleaving guarantees ----

  /** A publisher that returned success has its operations, together and in order, in a
      proposal that committed, and that proposal committed before any later one did. */
  lemma SuccessIsCommitted(states: seq<State>, steps: seq<Step>, t: nat, i: nat)
    returns (j: nat, before: seq<Op>, after: seq<Op>)
    requires Run(states, steps) && t < |states|
    requires i < |states[t].phase| && states[t].phase[i] == Returned(Committed)
    ensures var s := states[t];
            && i < |s.pushed| && j < |s.proposed| && s.pushed[i] in s.proposed[j]
            && GroupOps(s.proposed[j]) == before + s.pushed[i].ops + after
            && LandedInOrder(s, j)
  {
    InvAlways(states, steps, t);
    var s := states[t];
    var settled := s.proposed[..|s.outcome|];
    assert s.proposed == settled + s.proposed[|s.outcome|..];
    PrefixFlattens(s.proposed, |s.outcome|);
    assert Flatten(settled)[i] == s.pushed[i];
    FlattenMember(settled, s.pushed[i]);
    j :| 0 <= j < |settled| && s.pushed[i] in settled[j];
    var k :| 0 <= k < |s.proposed[j]| && s.proposed[j][k] == s.pushed[i];
    assert RepliedWith(s.reply, s.proposed[j], s.outcome[j]);
    before, after := OpsAreContiguous(s.proposed[j], k);
  }

  lemma {:induction false} PrefixFlattens(batches: seq<seq<Job>>, n: nat)
    requires n <= |batches|
    ensures Flatten(batches[..n]) <= Flatten(batches)
  {
    if n < |batches| {
      PrefixFlattens(batches[..|batches| - 1], n);
      assert batches[..|batches| - 1][..n] == batches[..n];
    } else {
      assert batches[..n] == batches;
    }
  }

  // ---- who is told what ----

  /** A reply once given stays. */
  lemma ReplyKept(s: State, step: Step, i: nat)
    requires Inv(s) && Enabled(s, step) && i in s.reply
    ensures i in After(s, step).reply && After(s, step).reply[i] == s.reply[i]
  {
    match step
    case Finish(_, ok) => SettleReplies(s, if ok then Committed else Failed);
    case Drop(l) => if s.phase[l] == Proposing { SettleReplies(s, Canceled); }
    case _ =>
  }

  lemma {:induction false} ReplyStays(states: seq<State>, steps: seq<Step>, t: nat, v: nat, i: nat)
    requires Run(states, steps) && t <= v < |states| && i in states[t].reply
    ensures i in states[v].reply && states[v].reply[i] == states[t].reply[i]
  {
    if t < v {
      ReplyStays(states, steps, t, v - 1, i);
      InvAlways(states, steps, v - 1);
      ReplyKept(states[v - 1], steps[v - 1], i);
    }
  }

  /** Step u ends the proposal that publisher i's job is in: it succeeded, it failed, or its
      leader was dropped. */
  ghost predicate Ends(states: seq<State>, steps: seq<Step>, u: nat, i: nat, r: Reply) {
    && u < |steps| < |states| && i < |states[u].pushed| && |states[u].proposed| > 0
    && states[u].pushed[i] in states[u].proposed[|states[u].proposed| - 1]
    && match steps[u]
       case Finish(_, ok) => r == if ok then Committed else Failed
       case Drop(l) => l < |states[u].phase| && states[u].phase[l] == Proposing && r == Canceled
       case _ => false
  }

  /** Every member of the batch is told, right then, what became of the proposal. */
  lemma EndIsTold(states: seq<State>, steps: seq<Step>, u: nat, i: nat, r: Reply)
    requires Run(states, steps) && Ends(states, steps, u, i, r)
    ensures i in states[u + 1].reply && states[u + 1].reply[i] == r
  {
    InvAlways(states, steps, u);
    var s := states[u];
    var batch := s.proposed[|s.proposed| - 1];
    assert states[u + 1] == After(s, steps[u]);
    var k :| 0 <= k < |batch| && batch[k] == s.pushed[i];
    assert batch[k].caller == i;
    assert i in Settle(s, r).reply && Settle(s, r).reply[i] == r;
  }

  /** Nobody is told anything else. */
  lemma {:induction false} TellingHasEnd(states: seq<State>, steps: seq<Step>, t: nat, i: nat) returns (u: nat)
    requires Run(states, steps) && t < |states| && i in states[t].reply
    ensures u < t && Ends(states, steps, u, i, states[t].reply[i])
  {
    var s, step := states[t - 1], steps[t - 1];
    InvAlways(states, steps, t - 1);
    assert states[t] == After(s, step);
    if i in s.reply {
      ReplyKept(s, step, i);
      u := TellingHasEnd(states, steps, t - 1, i);
    } else {
      u := t - 1;
      var r := if step.Finish? then (if step.ok then Committed else Failed) else Canceled;
      assert InFlight(s) && states[t].reply == Settle(s, r).reply;
      SettledCallerIsInBatch(s, r, i);
    }
  }

  lemma SettledCallerIsInBatch(s: State, r: Reply, i: nat)
    requires Inv(s) && |s.proposed| > 0 && i in Settle(s, r).reply && i !in s.reply
    ensures Settle(s, r).reply[i] == r && i < |s.pushed| && s.pushed[i] in s.proposed[|s.proposed| - 1]
  {
    CallersInOrder(s);
    var front, batch := s.proposed[..|s.proposed| - 1], s.proposed[|s.proposed| - 1];
    var job :| job in batch && job.caller == i;
    var k :| 0 <= k < |batch| && batch[k] == job;
    assert s.pushed[|Flatten(front)| + k] == batch[k];
  }

  /** A publisher returns success exactly if the proposal its job was in reported success, an error
      exactly if it reported one, and a cancellation exactly if its leader was dropped. */
  lemma ReplyIsOutcome(states: seq<State>, steps: seq<Step>, t: nat, i: nat, r: Reply)
    requires Run(states, steps) && t < |states| && i < |states[t].phase| && states[t].phase[i].Returned?
    ensures states[t].phase[i] == Returned(r) <==> exists u :: 0 <= u < t && Ends(states, steps, u, i, r)
  {
    InvAlways(states, steps, t);
    var u := TellingHasEnd(states, steps, t, i);
    forall v, q | 0 <= v < t && Ends(states, steps, v, i, q) ensures q == states[t].reply[i] {
      EndIsTold(states, steps, v, i, q);
      ReplyStays(states, steps, v + 1, t, i);
    }
  }

  /** Every pushed job is in exactly one place: queued, in the batch in flight, or
      resolved. */
  lemma OnePlace(states: seq<State>, steps: seq<Step>, t: nat, i: nat)
    requires Run(states, steps) && t < |states| && i < |states[t].pushed|
    ensures var s := states[t];
            var queued, resolved := s.pushed[i] in s.queue, i in s.reply;
            var inFlight := InFlight(s) && |s.proposed| > 0 && s.pushed[i] in s.proposed[|s.proposed| - 1];
            (queued && !inFlight && !resolved) || (!queued && inFlight && !resolved) || (!queued && !inFlight && resolved)
  {
    InvAlways(states, steps, t);
    var s := states[t];
    var f := |Flatten(s.proposed)|;
    assert forall k :: 0 <= k < |s.queue| ==> s.queue[k] == s.pushed[f + k];
    assert i >= f ==> s.queue[i - f] == s.pushed[i];
    if InFlight(s) {
      CallersInOrder(s);
      var front, batch := s.proposed[..|s.proposed| - 1], s.proposed[|s.proposed| - 1];
      assert s.proposed[..|s.outcome|] == front;
      assert |Flatten(front)| <= i < f ==> batch[i - |Flatten(front)|] == s.pushed[i];
    } else {
      assert s.proposed[..|s.outcome|] == s.proposed;
    }
  }

  /** The steps the publishers themselves take, as opposed to arrivals, callers giving up,
      and copies landing in the log. */
  predicate Internal(step: Step) {
    !step.Push? && !step.Drop? && !step.Land?
  }

  function Weight(p: Phase): nat {
    match p
    case Waiting => 3
    case Proposing => 3
    case Leading => 2
    case Finishing => 1
    case Returned(_) => 0
    case Dropped => 0
  }

  function TotalWeight(phase: seq<Phase>): nat {
    if phase == [] then 0 else TotalWeight(phase[..|phase| - 1]) + Weight(phase[|phase| - 1])
  }

  /** The work left. */
  function Measure(s: State): nat {
    2 * |s.queue| + TotalWeight(s.phase)
  }

  lemma {:induction false} WeightOfUpdate(phase: seq<Phase>, i: nat, p: Phase)
    requires i < |phase|
    ensures TotalWeight(phase[i := p]) == TotalWeight(phase) - Weight(phase[i]) + Weight(p)
  {
    var n := |phase| - 1;
    if i == n {
      assert phase[i := p][..n] == phase[..n];
    } else {
      WeightOfUpdate(phase[..n], i, p);
      assert phase[i := p][..n] == phase[..n][i := p];
    }
  }

  /** Once arrivals stop, the publishers' own steps run out: each shrinks the measure. */
  lemma InternalStepsShrink(s: State, step: Step)
    requires Enabled(s, step) && Internal(step)
    ensures Measure(After(s, step)) < Measure(s)
  {
    WeightOfUpdate(s.phase, step.i, After(s, step).phase[step.i]);
  }

  /** While a publisher has neither returned nor been dropped, some publisher can step. */
  lemma SomeStep(s: State, i: nat) returns (step: Step)
    requires Inv(s) && i < |s.phase| && !s.phase[i].Returned? && s.phase[i] != Dropped
    ensures Internal(step) && Enabled(s, step)
  {
    match s.gate
    case None => step := if s.phase[i] == Waiting then TakeGate(i) else SeeReply(i);
    case Some(g) =>
      if s.phase[g] == Proposing {
        step := Finish(g, false);
      } else if s.queue == [] {
        step := LeaveLoop(g);
      } else {
        var n := GreedyExists(s.queue);
        step := Drain(g, n);
      }
  }

  /** Nobody is stranded: while a publisher has neither returned nor been dropped, some
      publisher can take a step, and if its job is still queued it holds the gate or waits
      for it. */
  lemma NobodyIsStranded(states: seq<State>, steps: seq<Step>, t: nat, i: nat) returns (step: Step)
    requires Run(states, steps) && t < |states|
    requires i < |states[t].phase| && !states[t].phase[i].Returned? && states[t].phase[i] != Dropped
    ensures Internal(step) && Enabled(states[t], step)
    ensures i < |states[t].pushed|
    ensures states[t].pushed[i] in states[t].queue ==>
              states[t].phase[i] == Waiting || states[t].gate == Some(i)
  {
    InvAlways(states, steps, t);
    OnePlace(states, steps, t, i);
    step := SomeStep(states[t], i);
  }

  /** From `s`, the publishers' own steps alone lead to `t`. */
  ghost predicate OwnSteps(s: State, steps: seq<Step>, t: State)
    decreases |steps|
  {
    if steps == [] then s == t
    else Internal(steps[0]) && Enabled(s, steps[0]) && OwnSteps(After(s, steps[0]), steps[1..], t)
  }

  lemma {:induction false} OwnStepsShrink(s: State, steps: seq<Step>, t: State)
    requires OwnSteps(s, steps, t)
    ensures |steps| + Measure(t) <= Measure(s)
    decreases |steps|
  {
    if steps != [] {
      InternalStepsShrink(s, steps[0]);
      OwnStepsShrink(After(s, steps[0]), steps[1..], t);
    }
  }

  lemma {:induction false} OwnStepsKeepInv(s: State, steps: seq<Step>, t: State)
    requires Inv(s) && OwnSteps(s, steps, t)
    ensures Inv(t)
    decreases |steps|
  {
    if steps != [] {
      InvKept(s, steps[0]);
      OwnStepsKeepInv(After(s, steps[0]), steps[1..], t);
    }
  }

  lemma {:induction false} OwnStepsKeepReplies(s: State, steps: seq<Step>, t: State, i: nat)
    requires Inv(s) && OwnSteps(s, steps, t) && i in s.reply
    ensures i in t.reply && t.reply[i] == s.reply[i]
    decreases |steps|
  {
    if steps != [] {
      ReplyKept(s, steps[0], i);
      InvKept(s, steps[0]);
      OwnStepsKeepReplies(After(s, steps[0]), steps[1..], t, i);
    }
  }

  /** Everyone is served: from any moment of any run, once arrivals stop and nobody else gives
      up, the publishers take at most as many steps as the work left, and when none of them
      can take another, each has returned with its reply, the one it had been given if it had
      one, or was dropped. */
  lemma EveryoneIsServed(states: seq<State>, steps: seq<Step>, n: nat, own: seq<Step>, t: State)
    requires Run(states, steps) && n < |states| && OwnSteps(states[n], own, t)
    ensures |own| <= Measure(states[n])
    ensures (forall step :: Internal(step) ==> !Enabled(t, step)) ==>
              forall i :: 0 <= i < |t.phase| ==>
                t.phase[i] == Dropped || (t.phase[i].Returned? && i in t.reply && t.reply[i] == t.phase[i].reply)
    ensures forall i :: i in states[n].reply ==> i in t.reply && t.reply[i] == states[n].reply[i]
  {
    InvAlways(states, steps, n);
    OwnStepsShrink(states[n], own, t);
    OwnStepsKeepInv(states[n], own, t);
    forall i | i in states[n].reply ensures i in t.reply && t.reply[i] == states[n].reply[i] {
      OwnStepsKeepReplies(states[n], own, t, i);
    }
    if forall step :: Internal(step) ==> !Enabled(t, step) {
      forall i | 0 <= i < |t.phase| ensures t.phase[i] == Dropped || t.phase[i].Returned? {
        if t.phase[i] != Dropped && !t.phase[i].Returned? { var step := SomeStep(t, i); }
      }
    }
  }

  lemma GreedyExists(queue: seq<Job>) returns (n: nat)
    requires queue != []
    ensures Greedy(queue, n)
  {
    n := 1;
    while n < |queue| && |GroupOps(queue[..n + 1])| <= GROUP_COMMIT_MAX
      invariant 1 <= n <= |queue| && (n == 1 || |GroupOps(queue[..n])| <= GROUP_COMMIT_MAX)
    {
      n := n + 1;
    }
  }

  // ---- the queue's operations are these steps ----

  /** The next publisher's push is a `Push`. */
  method PushJob(queue: CommitQueue, ghost s: State, caller: nat, ops: seq<Op>)
    requires queue.jobs == s.queue && caller == |s.pushed|
    modifies queue
    ensures queue.jobs == After(s, Push(ops)).queue
    ensures After(s, Push(ops)).pushed == s.pushed + [Job(caller, ops)]
  {
    queue.Push(Job(caller, ops));
  }

  /** A turn of the gate-holder's loop is a `Drain` whose batch is the new proposal, or, on an
      empty queue, a `LeaveLoop`. */
  method NextProposal(queue: CommitQueue, ghost s: State, leader: nat) returns (batch: seq<Job>, ops: seq<Op>, dones: seq<nat>)
    requires queue.jobs == s.queue && leader < |s.phase| && s.phase[leader] == Leading
    modifies queue
    ensures batch == [] ==> Enabled(s, LeaveLoop(leader)) && queue.jobs == After(s, LeaveLoop(leader)).queue
    ensures batch != [] ==>
              var step := Drain(leader, |batch|);
              && Enabled(s, step) && queue.jobs == After(s, step).queue
              && After(s, step).proposed == s.proposed + [batch]
    ensures ops == GroupOps(batch) && |dones| == |batch| && forall k :: 0 <= k < |batch| ==> dones[k] == batch[k].caller
  {
    batch := queue.Drain();
    ops, dones := Assemble(batch);
  }

  /** What the proposals were: all pushed jobs but those still queued, in push order, in
      batches of one job or within the budget. */
  lemma ProposalsInPushOrder(states: seq<State>, steps: seq<Step>, t: nat)
    requires Run(states, steps) && t < |states|
    ensures Flatten(states[t].proposed) + states[t].queue == states[t].pushed
    ensures BatchesAreBounded(states[t])
  {
    InvAlways(states, steps, t);
  }
}
