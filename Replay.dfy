/** The converter's replay state: the configuration it reads, the branch list
    `CheckoutBranch` caches across calls, and the commands issued so far. The
    methods do what the script's functions do, step by step, and each is
    proved to have the effect its plan function describes. */
module Replay {
  import opened Base
  import opened Text
  import opened DepotPaths
  import opened Transactions
  import opened Chunking
  import opened Classifier
  import opened Metadata
  import opened Dispatch
  import opened GitHelpers
  import opened Promotion

  /** What became of one transaction: no handler for its type (an error is
      logged), a handler that only logs it, or the promotion handler with its
      outcome. */
  datatype Dispatched = Unhandled(kind: string) | Ignored(handler: Handler) | Promoted(outcome: PromoteOutcome)

  /** The transaction ended the run: the script raised or exited. */
  predicate Halts(d: Dispatched) {
    d.Promoted? && Aborts(d.outcome)
  }

  /** The effect of one `ProcessAccuRevTransaction`. */
  datatype TransactionStep = TransactionStep(commands: seq<Command>, cache: Option<seq<Branch>>, result: Dispatched)

  /** `ProcessAccuRevTransaction` as a function: look the type up in the
      handler table; only `OnPromote` issues commands. */
  function TransactionPlan(t: Transaction, streamList: Option<seq<string>>, usermaps: seq<UserMap>,
                           cache: Option<seq<Branch>>, r: Replies): TransactionStep
    requires WellFormedVersions(t.versions)
  {
    match HandlerFor(t.kind)
    case None => TransactionStep([], cache, Unhandled(t.kind))
    case Some(h) =>
      if h == OnPromote then
        var p := PromotePlan(t, streamList, usermaps, cache, r);
        TransactionStep(p.commands, p.cache, Promoted(p.outcome))
      else TransactionStep([], cache, Ignored(h))
  }

  predicate AllWellFormed(ts: seq<Transaction>) {
    forall i :: 0 <= i < |ts| ==> WellFormedVersions(ts[i].versions)
  }

  lemma AllWellFormedSuffix(ts: seq<Transaction>, n: nat)
    requires AllWellFormed(ts) && n <= |ts|
    ensures AllWellFormed(ts[n..])
  {
    assert forall k :: 0 <= k < |ts[n..]| ==> ts[n..][k] == ts[n + k];
  }

  /** The effect of processing a list of transactions. */
  datatype RangeStep = RangeStep(commands: seq<Command>, cache: Option<seq<Branch>>, results: seq<Dispatched>)

  /** The loop of `ProcessAccuRevTransactionRange`: each transaction in turn,
      with the branch cache carried from one to the next, until the list ends
      or one of them halts the script. */
  function RangePlan(ts: seq<Transaction>, replies: seq<Replies>, streamList: Option<seq<string>>,
                     usermaps: seq<UserMap>, cache: Option<seq<Branch>>): RangeStep
    requires |replies| == |ts| && AllWellFormed(ts)
    decreases |ts|
  {
    if |ts| == 0 then RangeStep([], cache, [])
    else
      var step := TransactionPlan(ts[0], streamList, usermaps, cache, replies[0]);
      if Halts(step.result) then RangeStep(step.commands, step.cache, [step.result])
      else
        var rest := RangePlan(ts[1..], replies[1..], streamList, usermaps, step.cache);
        RangeStep(step.commands + rest.commands, rest.cache, [step.result] + rest.results)
  }

  /** The result a transaction gets is the one its type's handler gives:
      no handler, a logging-only handler, or a promotion outcome exactly for
      type "promote". */
  predicate FollowsTable(t: Transaction, d: Dispatched) {
    && (d == Unhandled(t.kind) <==> HandlerFor(t.kind).None?)
    && (d.Ignored? <==> HandlerFor(t.kind).Some? && HandlerFor(t.kind).value != OnPromote)
    && (d.Ignored? ==> HandlerFor(t.kind) == Some(d.handler))
    && (d.Promoted? <==> t.kind == "promote")
  }

  lemma TransactionFollowsTable(t: Transaction, streamList: Option<seq<string>>, usermaps: seq<UserMap>,
                                cache: Option<seq<Branch>>, r: Replies)
    requires WellFormedVersions(t.versions)
    ensures FollowsTable(t, TransactionPlan(t, streamList, usermaps, cache, r).result)
    ensures !TransactionPlan(t, streamList, usermaps, cache, r).result.Promoted? ==>
      TransactionPlan(t, streamList, usermaps, cache, r).commands == [] &&
      TransactionPlan(t, streamList, usermaps, cache, r).cache == cache
  {
  }

  /** `RangePlan` on the suffix from `i`, one transaction at a time. */
  lemma RangePlanSuffixStep(ts: seq<Transaction>, replies: seq<Replies>, streamList: Option<seq<string>>,
                            usermaps: seq<UserMap>, cache: Option<seq<Branch>>, i: nat)
    requires |replies| == |ts| && AllWellFormed(ts) && i < |ts|
    ensures AllWellFormed(ts[i + 1..])
    ensures var step := TransactionPlan(ts[i], streamList, usermaps, cache, replies[i]);
      var q := RangePlan(ts[i..], replies[i..], streamList, usermaps, cache);
      if Halts(step.result) then q == RangeStep(step.commands, step.cache, [step.result])
      else
        var rest := RangePlan(ts[i + 1..], replies[i + 1..], streamList, usermaps, step.cache);
        q == RangeStep(step.commands + rest.commands, rest.cache, [step.result] + rest.results)
  {
    AllWellFormedSuffix(ts, i);
    AllWellFormedSuffix(ts, i + 1);
    assert ts[i..][1..] == ts[i + 1..] && replies[i..][1..] == replies[i + 1..];
  }

  /** The range handles the transactions in order, one result each, and
      stops right after the first one that halts: every transaction is
      handled when none halts. */
  lemma {:induction false} RangeHaltsAtFirstAbort(ts: seq<Transaction>, replies: seq<Replies>, streamList: Option<seq<string>>,
                                                  usermaps: seq<UserMap>, cache: Option<seq<Branch>>)
    requires |replies| == |ts| && AllWellFormed(ts)
    ensures var p := RangePlan(ts, replies, streamList, usermaps, cache);
      && |p.results| <= |ts|
      && (forall i :: 0 <= i < |p.results| - 1 ==> !Halts(p.results[i]))
      && (|p.results| < |ts| ==> |p.results| > 0 && Halts(p.results[|p.results| - 1]))
      && (|ts| > 0 ==> |p.results| > 0)
    decreases |ts|
  {
    if |ts| > 0 {
      var step := TransactionPlan(ts[0], streamList, usermaps, cache, replies[0]);
      if !Halts(step.result) {
        AllWellFormedSuffix(ts, 1);
        var rest := RangePlan(ts[1..], replies[1..], streamList, usermaps, step.cache);
        RangeHaltsAtFirstAbort(ts[1..], replies[1..], streamList, usermaps, step.cache);
        var p := RangePlan(ts, replies, streamList, usermaps, cache);
        assert p.results == [step.result] + rest.results;
        assert forall i :: 0 < i < |p.results| ==> p.results[i] == rest.results[i - 1];
      }
    }
  }

  /** Each result of the range is the one the handler table gives its
      transaction. */
  lemma {:induction false} RangeFollowsTable(ts: seq<Transaction>, replies: seq<Replies>, streamList: Option<seq<string>>,
                                             usermaps: seq<UserMap>, cache: Option<seq<Branch>>)
    requires |replies| == |ts| && AllWellFormed(ts)
    ensures var p := RangePlan(ts, replies, streamList, usermaps, cache);
      forall i :: 0 <= i < |p.results| && i < |ts| ==> FollowsTable(ts[i], p.results[i])
    decreases |ts|
  {
    if |ts| > 0 {
      var step := TransactionPlan(ts[0], streamList, usermaps, cache, replies[0]);
      TransactionFollowsTable(ts[0], streamList, usermaps, cache, replies[0]);
      if !Halts(step.result) {
        AllWellFormedSuffix(ts, 1);
        var rest := RangePlan(ts[1..], replies[1..], streamList, usermaps, step.cache);
        RangeFollowsTable(ts[1..], replies[1..], streamList, usermaps, step.cache);
        var p := RangePlan(ts, replies, streamList, usermaps, cache);
        assert p.results == [step.result] + rest.results;
        assert forall i :: 0 < i < |p.results| && i < |ts| ==> p.results[i] == rest.results[i - 1] && ts[i] == ts[1..][i - 1];
      }
    }
  }

  /** A range without promotions leaves the repository and the cache alone. */
  lemma {:induction false} RangeWithoutPromotions(ts: seq<Transaction>, replies: seq<Replies>, streamList: Option<seq<string>>,
                                                  usermaps: seq<UserMap>, cache: Option<seq<Branch>>)
    requires |replies| == |ts| && AllWellFormed(ts)
    requires forall i :: 0 <= i < |ts| ==> ts[i].kind != "promote"
    ensures RangePlan(ts, replies, streamList, usermaps, cache).commands == []
    ensures RangePlan(ts, replies, streamList, usermaps, cache).cache == cache
    ensures |RangePlan(ts, replies, streamList, usermaps, cache).results| == |ts|
    decreases |ts|
  {
    if |ts| > 0 {
      AllWellFormedSuffix(ts, 1);
      assert forall i :: 0 <= i < |ts[1..]| ==> ts[1..][i] == ts[i + 1];
      RangeWithoutPromotions(ts[1..], replies[1..], streamList, usermaps, cache);
    }
  }

  lemma AppendAssociates<T>(a: seq<T>, b: seq<T>, c: seq<T>)
    ensures (a + b) + c == a + (b + c)
  {
  }

  class Converter {
    /** `config.accurev.streamList`. */
    const streamList: Option<seq<string>>
    /** `config.usermaps`. */
    const usermaps: seq<UserMap>
    /** The module-level `branchList`: None until the first checkout loads it. */
    var branchList: Option<seq<Branch>>
    /** Every command issued to AccuRev and git so far, oldest first. */
    var calls: seq<Command>

    constructor (streamList: Option<seq<string>>, usermaps: seq<UserMap>)
      ensures this.streamList == streamList && this.usermaps == usermaps
      ensures branchList == None && calls == []
    {
      this.streamList := streamList;
      this.usermaps := usermaps;
      branchList := None;
      calls := [];
    }

    /** `CheckoutBranch(gitRepo, branchName)`. */
    method CheckoutBranch(branchName: string, r: Replies) returns (result: Result<Branch, string>)
      modifies this
      ensures var p := CheckoutPlan(old(branchList), branchName, r);
        calls == old(calls) + p.commands && branchList == p.cache && result == p.result
    {
      if branchList.None? {
        branchList := r.listing;
      }
      if branchList.None? || |branchList.value| == 0 {
        if r.status.Some? && r.status.value.branch != Some(branchName) {
          calls := calls + [Checkout(branchName, true)];
        }
        var branch := Branch(branchName, true);
        branchList := Some([branch]);
        return Success(branch);
      }
      var branches := branchList.value;
      var isNewBranch := true;
      var i := 0;
      while i < |branches|
        invariant 0 <= i <= |branches|
        invariant FindBranch(branches, branchName) == FindBranch(branches[i..], branchName)
      {
        assert branches[i..][1..] == branches[i + 1..];
        if branches[i].name == branchName {
          if branches[i].isCurrent {
            return Success(branches[i]);
          }
          isNewBranch := false;
          break;
        }
        i := i + 1;
      }
      assert isNewBranch <==> FindBranch(branches, branchName).None?;
      calls := calls + [Checkout(branchName, isNewBranch)];
      branchList := r.relisting;
      if branchList.None? {
        return Failure(NoCurrentBranch);
      }
      var relisted := branchList.value;
      var j := 0;
      while j < |relisted|
        invariant 0 <= j <= |relisted|
        invariant FirstCurrent(relisted) == FirstCurrent(relisted[j..])
      {
        assert relisted[j..][1..] == relisted[j + 1..];
        if relisted[j].isCurrent {
          return Success(relisted[j]);
        }
        j := j + 1;
      }
      return Failure(NoCurrentBranch);
    }

    /** The first loop of `GitCommit`: `git add` on successive slices of at
        most `maxCmdItems` paths until the list is used up. */
    method AddInSlices(addList: seq<string>)
      modifies this
      ensures calls == old(calls) + AddCommands(Chunks(addList, MaxCmdItems))
      ensures branchList == old(branchList)
    {
      var maxItems := MaxCmdItems;
      var rest := addList;
      ghost var done: seq<seq<string>> := [];
      while true
        invariant done + Chunks(rest, MaxCmdItems) == Chunks(addList, MaxCmdItems)
        invariant calls == old(calls) + AddCommands(done)
        invariant branchList == old(branchList)
        decreases |rest|
      {
        var tmpList := rest[..Min(maxItems, |rest|)];
        rest := rest[Min(maxItems, |rest|)..];
        if |tmpList| > 0 {
          calls := calls + [Add(tmpList)];
          assert AddCommands(done + [tmpList]) == AddCommands(done) + [Add(tmpList)];
          done := done + [tmpList];
        } else {
          break;
        }
      }
    }

    /** The second loop of `GitCommit`: the same slicing for `git rm`. */
    method RmInSlices(rmList: seq<string>)
      modifies this
      ensures calls == old(calls) + RmCommands(Chunks(rmList, MaxCmdItems))
      ensures branchList == old(branchList)
    {
      var maxItems := MaxCmdItems;
      var rest := rmList;
      ghost var done: seq<seq<string>> := [];
      while true
        invariant done + Chunks(rest, MaxCmdItems) == Chunks(rmList, MaxCmdItems)
        invariant calls == old(calls) + RmCommands(done)
        invariant branchList == old(branchList)
        decreases |rest|
      {
        var tmpList := rest[..Min(maxItems, |rest|)];
        rest := rest[Min(maxItems, |rest|)..];
        if |tmpList| > 0 {
          calls := calls + [Rm(tmpList)];
          assert RmCommands(done + [tmpList]) == RmCommands(done) + [Rm(tmpList)];
          done := done + [tmpList];
        } else {
          break;
        }
      }
    }

    /** The rest of `GitCommit` once the branch is checked out: both slicing
        loops, then `git commit`, whose answer is the result. */
    method AddRmAndCommit(author: string, date: int, message: string,
                          addList: seq<string>, rmList: seq<string>, r: Replies) returns (status: Result<bool, string>)
      modifies this
      ensures calls == old(calls) + AddCommands(Chunks(addList, MaxCmdItems)) + RmCommands(Chunks(rmList, MaxCmdItems))
                         + [Commit(message, author, date)]
      ensures branchList == old(branchList) && status == Success(r.committed)
    {
      AddInSlices(addList);
      RmInSlices(rmList);
      calls := calls + [Commit(message, author, date)];
      status := Success(r.committed);
    }

    /** `GitCommit(gitRepo, branch, author, date, message, addList, rmList)`:
        the two slicing loops issue every slice; what git add and git rm
        answer is only logged. */
    method GitCommit(branch: Option<string>, author: string, date: int, message: string,
                     addList: seq<string>, rmList: seq<string>, r: Replies) returns (status: Result<bool, string>)
      modifies this
      ensures var p := GitCommitPlan(old(branchList), branch, author, date, message, addList, rmList, r);
        calls == old(calls) + p.commands && branchList == p.cache && status == p.result
    {
      ghost var cache := branchList;
      ghost var start := calls;
      ghost var co := CheckoutIfNamed(cache, branch, r);
      GitCommitPlanAfterCheckout(cache, branch, author, date, message, addList, rmList, r);
      if branch.Some? {
        var checkedOut := CheckoutBranch(branch.value, r);
        if checkedOut.Failure? {
          return Failure(checkedOut.error);
        }
      }
      assert co.result.Success? && calls == start + co.commands && branchList == co.cache;
      status := AddRmAndCommit(author, date, message, addList, rmList, r);
    }
  
    /** The add-list loop of `OnPromote`: every member that is not a
        directory, by its working-tree path. */
    method CollectAddList(member: seq<Version>) returns (addList: seq<string>)
      ensures addList == AddList(member)
    {
      addList := [];
      for i := 0 to |member|
        invariant addList == AddList(member[..i])
      {
        assert member[..i + 1][..i] == member[..i];
        if !member[i].dir {
          addList := addList + [LocalElementPath(member[i].path)];
        }
      }
      assert member[..|member|] == member;
    }

    /** The defunct loop of `OnPromote`: a real directory is removed from the
        working tree and staged with `git add --update`; anything else goes
        on the remove list. */
    method RemoveDefunct(defunct: seq<Version>) returns (rmList: seq<string>)
      modifies this
      ensures calls == old(calls) + DefunctCommands(defunct) && rmList == RmList(defunct)
      ensures branchList == old(branchList)
    {
      rmList := [];
      for i := 0 to |defunct|
        invariant calls == old(calls) + DefunctCommands(defunct[..i]) && rmList == RmList(defunct[..i])
        invariant branchList == old(branchList)
      {
        assert defunct[..i + 1][..i] == defunct[..i];
        var version := defunct[i];
        if version.dir && !(version.elemType == "slink" || version.elemType == "elink") {
          calls := calls + [RemoveTree(version.path)];
          calls := calls + [AddUpdate];
        } else {
          rmList := rmList + [LocalElementPath(version.path)];
        }
      }
      assert defunct[..|defunct|] == defunct;
    }

    /** The commit branch of `OnPromote`: `GitCommit` on the transaction's
        stream, then the outcome of its answer. */
    method CommitTransaction(stream: string, gitAuthor: string, date: int, commitMessage: string,
                             addList: seq<string>, rmList: seq<string>, r: Replies) returns (outcome: PromoteOutcome)
      modifies this
      ensures var c := GitCommitPlan(old(branchList), Some(stream), gitAuthor, date, commitMessage, addList, rmList, r);
        calls == old(calls) + c.commands && branchList == c.cache && outcome == CommitOutcome(c.result, r.lastError)
    {
      var status := GitCommit(Some(stream), gitAuthor, date, commitMessage, addList, rmList, r);
      if status.Success? && status.value {
        outcome := Committed;
      } else if status.Failure? {
        outcome := CheckoutFailed(status.error);
      } else if r.lastError.Some? {
        if Contains(r.lastError.value, NothingToCommitText) {
          outcome := NothingToCommit;
        } else {
          outcome := CommitRejected;
        }
      } else {
        outcome := CommitAborted;
      }
    }

    /** `OnPromote` after the classification. */
    method ApplySplit(t: Transaction, stream: string, split: Split, r: Replies) returns (outcome: PromoteOutcome)
      modifies this
      ensures var p := ApplyPlan(t, stream, split, usermaps, old(branchList), r);
        calls == old(calls) + p.commands && branchList == p.cache && outcome == p.outcome
    {
      ApplyPlanCases(t, stream, split, usermaps, branchList, r);
      ghost var pop := if |split.member| > 0 then [PopulateCommand(t, split.member)] else [];
      var addList := [];
      if |split.member| > 0 {
        calls := calls + [PopulateCommand(t, split.member)];
        if !r.populated {
          return PopulateFailed;
        }
        addList := CollectAddList(split.member);
      }
      assert calls == old(calls) + pop;
      var rmList := RemoveDefunct(split.defunct);
      ghost var prep := pop + DefunctCommands(split.defunct);
      assert calls == old(calls) + prep;
      if |addList| > 0 || |rmList| > 0 {
        var commitMessage := AccurevComment2GitMessage(t);
        var gitAuthor := AccurevUser2GitAuthor(t.user, usermaps);
        ghost var c := GitCommitPlan(branchList, Some(stream), gitAuthor, t.time, commitMessage, addList, rmList, r);
        outcome := CommitTransaction(stream, gitAuthor, t.time, commitMessage, addList, rmList, r);
        AppendAssociates(old(calls), prep, c.commands);
      } else {
        outcome := EmptyCommit;
      }
    }

    /** `OnPromote` once the stat query has answered: stop unless the
        versions were classified, else go on with the split. */
    method AfterClassification(t: Transaction, stream: string, split: StatOutcome, r: Replies)
      returns (outcome: PromoteOutcome)
      requires WellFormedVersions(t.versions)
      modifies this
      ensures var p := ClassifiedPlan(t, stream, split, usermaps, old(branchList), r);
        calls == old(calls) + p.commands && branchList == p.cache && outcome == p.outcome
    {
      calls := calls + [StatCommand(t)];
      if !split.Classified? {
        return ClassificationFailed(split);
      }
      ghost var cache := branchList;
      ghost var a := ApplyPlan(t, stream, split.split, usermaps, cache, r);
      outcome := ApplySplit(t, stream, split.split, r);
      AppendAssociates(old(calls), [StatCommand(t)], a.commands);
    }

    /** `OnPromote(transaction, gitRepo)`. */
    method OnPromote(t: Transaction, r: Replies) returns (outcome: PromoteOutcome)
      requires WellFormedVersions(t.versions)
      modifies this
      ensures var p := PromotePlan(t, streamList, usermaps, old(branchList), r);
        calls == old(calls) + p.commands && branchList == p.cache && outcome == p.outcome
    {
      if |t.versions| == 0 {
        return NoVersions;
      }
      var stream := GetTransactionDestStream(t);
      if stream.None? {
        return NoStream;
      }
      if !IsStreamAllowed(stream, streamList) {
        return StreamNotAllowed(stream.value);
      }
      var split, query := SplitElementsByStatusViaStat(t.versions, r.stat);
      assert StatCommand(t) == Stat(stream, t.id, query.value.paths, query.value.listFile);
      outcome := AfterClassification(t, stream.value, split, r);
    }
  
    /** `ProcessAccuRevTransaction(transaction)`: the handler's return value
        is discarded. */
    method ProcessAccuRevTransaction(t: Transaction, r: Replies) returns (d: Dispatched)
      requires WellFormedVersions(t.versions)
      modifies this
      ensures var p := TransactionPlan(t, streamList, usermaps, old(branchList), r);
        calls == old(calls) + p.commands && branchList == p.cache && d == p.result
    {
      var handler := HandlerFor(t.kind);
      if handler.None? {
        return Unhandled(t.kind);
      }
      if handler.value.OnPromote? {
        var outcome := OnPromote(t, r);
        d := Promoted(outcome);
      } else {
        d := Ignored(handler.value);
      }
    }

    /** `ProcessAccuRevTransactionRange`: the history answer `hist` (None
        when the query failed) is processed transaction by transaction, each
        with its own replies. The result is -1 without a history and the
        number of transactions otherwise. */
    method ProcessAccuRevTransactionRange(hist: Option<seq<Transaction>>, replies: seq<Replies>)
      returns (count: int, results: seq<Dispatched>)
      requires hist.Some? ==> |replies| == |hist.value| && AllWellFormed(hist.value)
      modifies this
      ensures hist.None? ==> count == -1 && results == [] && calls == old(calls) && branchList == old(branchList)
      ensures hist.Some? ==> count == |hist.value|
      ensures hist.Some? ==>
        var p := RangePlan(hist.value, replies, streamList, usermaps, old(branchList));
        calls == old(calls) + p.commands && branchList == p.cache && results == p.results
    {
      if hist.None? {
        return -1, [];
      }
      var ts := hist.value;
      count := |ts|;
      results := [];
      ghost var start := calls;
      ghost var p := RangePlan(ts, replies, streamList, usermaps, branchList);
      assert ts[0..] == ts && replies[0..] == replies;
      var i := 0;
      while i < |ts|
        invariant 0 <= i <= |ts|
        invariant var q := RangePlan(ts[i..], replies[i..], streamList, usermaps, branchList);
          start + p.commands == calls + q.commands && p.cache == q.cache && p.results == results + q.results
      {
        RangePlanSuffixStep(ts, replies, streamList, usermaps, branchList, i);
        ghost var before := calls;
        ghost var step := TransactionPlan(ts[i], streamList, usermaps, branchList, replies[i]);
        var d := ProcessAccuRevTransaction(ts[i], replies[i]);
        ghost var prior := results;
        results := results + [d];
        if Halts(d) {
          return;
        }
        ghost var rest := RangePlan(ts[i + 1..], replies[i + 1..], streamList, usermaps, branchList);
        AppendAssociates(before, step.commands, rest.commands);
        AppendAssociates(prior, [d], rest.results);
        i := i + 1;
      }
    }
  }
}
