/** Multi-step approval of a request: a chain of approvers who decide one after the other. */
module ApprovalChain {
  import opened Base

  type Id = nat

  datatype Status = Pending | Approved | Rejected

  /** A row of approval_steps; its step order is its place in the sequence. */
  datatype Step = Step(approver: Id, status: Status)

  datatype ChainError = NoApprovers | InsertFailed | NoPendingStep | WrongApprover(expected: Id) | CommitFailed

  function AllPending(approvers: seq<Id>): seq<Step> {
    seq(|approvers|, i requires 0 <= i < |approvers| => Step(approvers[i], Pending))
  }

  /** The first pending step at or after i, or the number of steps. */
  function CurrentFrom(steps: seq<Step>, i: nat): (k: nat)
    requires i <= |steps|
    ensures i <= k <= |steps| && (k < |steps| ==> steps[k].status == Pending)
    ensures forall j :: i <= j < k ==> steps[j].status != Pending
    decreases |steps| - i
  {
    if i == |steps| || steps[i].status == Pending then i else CurrentFrom(steps, i + 1)
  }

  /**
   One call: the first pending step is decided by its own approver. The Boolean says that no
   step is left pending after an approval. A rejection does not look at its commit's error.
   */
  function Advance(steps: seq<Step>, approver: Id, approve: bool, commit: Commit): (seq<Step>, Result<bool, ChainError>) {
    var k := CurrentFrom(steps, 0);
    if k == |steps| then (steps, Err(NoPendingStep))
    else if steps[k].approver != approver then (steps, Err(WrongApprover(steps[k].approver)))
    else
      var later := steps[k := steps[k].(status := if approve then Approved else Rejected)];
      (if commit.Lost? then steps else later,
       if !approve then Ok(false) else if commit.Done? then Ok(CurrentFrom(later, 0) == |later|) else Err(CommitFailed))
  }

  class Chain {
    const users: set<Id>
    var steps: seq<Step>

    constructor (users: set<Id>)
      ensures this.users == users && steps == []
    {
      this.users := users;
      steps := [];
    }

    /** All steps or none: an approver who is no user, or a step order already taken, undoes the inserts before it. */
    method CreateApprovalChain(approvers: seq<Id>, commit: Commit) returns (r: Result<(), ChainError>)
      modifies this
      ensures r.Ok? <==> approvers != [] && old(steps) == [] && (forall a :: a in approvers ==> a in users) && commit.Done?
      ensures r.Ok? ==> steps == AllPending(approvers)
      ensures r.Err? ==> steps == old(steps) || (r.error == CommitFailed && commit.DoneButFailed? && steps == AllPending(approvers))
    {
      if approvers == [] {
        return Err(NoApprovers);
      }
      var before := steps;
      if steps != [] {
        return Err(InsertFailed);
      }
      for i := 0 to |approvers|
        invariant steps == AllPending(approvers[..i])
        invariant forall j :: 0 <= j < i ==> approvers[j] in users
      {
        if approvers[i] !in users {
          steps := before;
          return Err(InsertFailed);
        }
        steps := steps + [Step(approvers[i], Pending)];
        assert approvers[..i + 1] == approvers[..i] + [approvers[i]];
      }
      assert approvers[..|approvers|] == approvers;
      if commit.Lost? {
        steps := before;
      }
      r := if commit.Done? then Ok(()) else Err(CommitFailed);
    }

    method AdvanceChain(approver: Id, approve: bool, commit: Commit) returns (r: Result<bool, ChainError>)
      modifies this
      ensures (steps, r) == Advance(old(steps), approver, approve, commit)
    {
      var before := steps;
      var k := 0;
      while k < |steps| && steps[k].status != Pending
        invariant 0 <= k <= |steps| && CurrentFrom(steps, 0) == CurrentFrom(steps, k)
      {
        k := k + 1;
      }
      if k == |steps| {
        return Err(NoPendingStep);
      }
      if steps[k].approver != approver {
        return Err(WrongApprover(steps[k].approver));
      }
      steps := steps[k := steps[k].(status := if approve then Approved else Rejected)];
      if !approve {
        if commit.Lost? {
          steps := before;
        }
        return Ok(false);
      }
      var pending := 0;
      for i := 0 to |steps|
        invariant 0 <= pending && (pending == 0 <==> forall j :: 0 <= j < i ==> steps[j].status != Pending)
      {
        if steps[i].status == Pending {
          pending := pending + 1;
        }
      }
      if commit.Lost? {
        steps := before;
      }
      r := if commit.Done? then Ok(pending == 0) else Err(CommitFailed);
    }
  }

  // ---- Any run of calls -----------------------------------------------------------

  datatype Call = Call(approver: Id, approve: bool, commit: Commit)

  function Steps(approvers: seq<Id>, calls: seq<Call>): (steps: seq<Step>)
    ensures |steps| == |approvers|
  {
    if calls == [] then AllPending(approvers)
    else
      var call := calls[|calls| - 1];
      Advance(Steps(approvers, calls[..|calls| - 1]), call.approver, call.approve, call.commit).0
  }

  function Answer(approvers: seq<Id>, calls: seq<Call>, i: nat): Result<bool, ChainError>
    requires i < |calls|
  {
    Advance(Steps(approvers, calls[..i]), calls[i].approver, calls[i].approve, calls[i].commit).1
  }

  /** The reference: a call counts when it is the next approver's and its commit took effect, and decides that approver's step. */
  function Decisions(approvers: seq<Id>, calls: seq<Call>): (d: seq<bool>)
    ensures |d| <= |approvers|
  {
    if calls == [] then []
    else
      var d, call := Decisions(approvers, calls[..|calls| - 1]), calls[|calls| - 1];
      if |d| < |approvers| && call.approver == approvers[|d|] && !call.commit.Lost? then d + [call.approve] else d
  }

  /** The chain after some decisions: they fill it from the front. */
  function Decided(approvers: seq<Id>, d: seq<bool>): seq<Step>
    requires |d| <= |approvers|
  {
    seq(|approvers|, i requires 0 <= i < |approvers| =>
      Step(approvers[i], if i >= |d| then Pending else if d[i] then Approved else Rejected))
  }

  /** From any decided step on, the first pending one is the next to decide. */
  lemma {:induction false} CurrentIsNext(approvers: seq<Id>, d: seq<bool>, i: nat)
    requires i <= |d| <= |approvers|
    ensures CurrentFrom(Decided(approvers, d), i) == |d|
    decreases |d| - i
  {
    if i < |d| {
      CurrentIsNext(approvers, d, i + 1);
    }
  }

  /** One call on a chain filled from the front. */
  lemma AdvanceDecided(approvers: seq<Id>, d: seq<bool>, approver: Id, approve: bool, commit: Commit)
    requires |d| <= |approvers|
    ensures Advance(Decided(approvers, d), approver, approve, commit) ==
      if |d| == |approvers| then (Decided(approvers, d), Err(NoPendingStep))
      else if approvers[|d|] != approver then (Decided(approvers, d), Err(WrongApprover(approvers[|d|])))
      else (Decided(approvers, if commit.Lost? then d else d + [approve]),
            if !approve then Ok(false) else if commit.Done? then Ok(|d| + 1 == |approvers|) else Err(CommitFailed))
  {
    CurrentIsNext(approvers, d, 0);
    if |d| < |approvers| && approvers[|d|] == approver {
      var later := Advance(Decided(approvers, d), approver, approve, Done).0;
      assert later == Decided(approvers, d + [approve]);
      CurrentIsNext(approvers, d + [approve], 0);
    }
  }

  /**
   Whatever calls are made, in whatever order and by whomever, the decided steps are the
   first ones, each decided as its own approver said.
   */
  lemma {:induction false} ChainIsDecided(approvers: seq<Id>, calls: seq<Call>)
    ensures Steps(approvers, calls) == Decided(approvers, Decisions(approvers, calls))
  {
    if calls == [] {
      assert AllPending(approvers) == Decided(approvers, []);
    } else {
      ChainIsDecided(approvers, calls[..|calls| - 1]);
      AdvanceDecided(approvers, Decisions(approvers, calls[..|calls| - 1]), calls[|calls| - 1].approver, calls[|calls| - 1].approve, calls[|calls| - 1].commit);
    }
  }

  /** Calls that return without an error. */
  function Successes(approvers: seq<Id>, calls: seq<Call>): nat {
    if calls == [] then 0
    else Successes(approvers, calls[..|calls| - 1]) + if Answer(approvers, calls, |calls| - 1).Ok? then 1 else 0
  }

  /** The calls of next approvers that return without an error and decide nothing, or decide and return one. */
  function Misreported(approvers: seq<Id>, calls: seq<Call>, lost: bool): nat {
    if calls == [] then 0
    else
      var d, call := Decisions(approvers, calls[..|calls| - 1]), calls[|calls| - 1];
      var counts := |d| < |approvers| && call.approver == approvers[|d|]
                    && if lost then !call.approve && call.commit.Lost? else call.approve && call.commit.DoneButFailed?;
      Misreported(approvers, calls[..|calls| - 1], lost) + if counts then 1 else 0
  }

  /** Of n steps at most n are decided; successful calls are as many, but for rejections whose commit was lost and approvals whose commit only seemed to be. */
  lemma {:induction false} SuccessesAreDecisions(approvers: seq<Id>, calls: seq<Call>)
    ensures |Decisions(approvers, calls)| <= |approvers|
    ensures Successes(approvers, calls) + Misreported(approvers, calls, false)
         == |Decisions(approvers, calls)| + Misreported(approvers, calls, true)
  {
    if calls != [] {
      var before := calls[..|calls| - 1];
      SuccessesAreDecisions(approvers, before);
      ChainIsDecided(approvers, before);
      AdvanceDecided(approvers, Decisions(approvers, before), calls[|calls| - 1].approver, calls[|calls| - 1].approve, calls[|calls| - 1].commit);
    }
  }

  /** With commits that all succeed, a chain of n steps takes at most n successful calls, one for each decided step. */
  lemma {:induction false} CommittedSuccesses(approvers: seq<Id>, calls: seq<Call>)
    requires forall i :: 0 <= i < |calls| ==> calls[i].commit.Done?
    ensures Successes(approvers, calls) == |Decisions(approvers, calls)| <= |approvers|
  {
    NothingMisreported(approvers, calls, true);
    NothingMisreported(approvers, calls, false);
    SuccessesAreDecisions(approvers, calls);
  }

  lemma {:induction false} NothingMisreported(approvers: seq<Id>, calls: seq<Call>, lost: bool)
    requires forall i :: 0 <= i < |calls| ==> calls[i].commit.Done?
    ensures Misreported(approvers, calls, lost) == 0
  {
    if calls != [] {
      NothingMisreported(approvers, calls[..|calls| - 1], lost);
    }
  }

  /** A call answers true exactly when it approves the last step; then every step is approved if and only if none was rejected. */
  lemma TrueIffLastApproved(approvers: seq<Id>, calls: seq<Call>)
    requires calls != []
    ensures var n := |calls| - 1; var d := Decisions(approvers, calls[..n]);
      Answer(approvers, calls, n) == Ok(true) <==> |d| + 1 == |approvers| && calls[n] == Call(approvers[|d|], true, Done)
    ensures Answer(approvers, calls, |calls| - 1) == Ok(true) ==>
      ((forall i :: 0 <= i < |approvers| ==> Steps(approvers, calls)[i].status == Approved)
       <==> (forall i :: 0 <= i < |approvers| ==> Steps(approvers, calls)[i].status != Rejected))
  {
    var n := |calls| - 1;
    ChainIsDecided(approvers, calls[..n]);
    ChainIsDecided(approvers, calls);
    AdvanceDecided(approvers, Decisions(approvers, calls[..n]), calls[n].approver, calls[n].approve, calls[n].commit);
  }

  /** A rejection does not end the chain: the next approver's call is taken, and the last one can still answer true. */
  lemma RejectionDoesNotStop(first: Id, second: Id)
    ensures var calls := [Call(first, false, Done), Call(second, true, Done)];
      Answer([first, second], calls, 0) == Ok(false) && Answer([first, second], calls, 1) == Ok(true)
      && Steps([first, second], calls)[0].status == Rejected
  {
    var approvers, calls := [first, second], [Call(first, false, Done), Call(second, true, Done)];
    assert calls[..1] == [Call(first, false, Done)] && calls[..0] == [];
    ChainIsDecided(approvers, calls[..0]);
    ChainIsDecided(approvers, calls[..1]);
    ChainIsDecided(approvers, calls);
    assert Decisions(approvers, calls[..0]) == [];
    assert calls[..1][..0] == [];
    assert Decisions(approvers, calls[..1]) == [false];
    assert Decisions(approvers, calls) == [false, true];
    AdvanceDecided(approvers, [], first, false, Done);
    AdvanceDecided(approvers, [false], second, true, Done);
  }
}
