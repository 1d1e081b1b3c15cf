/** The git helper functions: `CheckoutBranch` over the cached branch list
    and the batched add/rm of `GitCommit`, each specified as a function of the
    state before the call and of what git answers. AccuRev and git are not
    run: their answers are given as `Replies`, and every command that changes
    the working tree or the repository is a `Command`, listed in the order it
    is issued. */
module GitHelpers {
  import opened Base
  import opened Chunking
  import opened Classifier

  /** One entry of `git branch` output. */
  datatype Branch = Branch(name: string, isCurrent: bool)

  /** The part of `git status` the checkout looks at. */
  datatype GitStatus = GitStatus(branch: Option<string>)

  /** The commands that change something outside the script, in the order
      they are issued. */
  datatype Command =
    | Stat(stream: Option<string>, transactionId: nat, paths: seq<string>, listFile: bool)
    | Populate(verSpec: Option<string>, transactionId: nat, paths: seq<string>, listFile: bool)
    | RemoveTree(path: string)
    | AddUpdate
    | Checkout(branchName: string, isNewBranch: bool)
    | Add(paths: seq<string>)
    | Rm(paths: seq<string>)
    | Commit(message: string, author: string, date: int)

  /** What AccuRev and git answer during one transaction: the stat result,
      whether pop succeeded, `branch_list()` before and after a checkout,
      `status()`, whether the commit succeeded and the repository's
      `lastError` output after it. */
  datatype Replies = Replies(
    stat: Option<seq<StatEntry>>,
    populated: bool,
    listing: Option<seq<Branch>>,
    status: Option<GitStatus>,
    relisting: Option<seq<Branch>>,
    committed: bool,
    lastError: Option<string>)

  // ---------------------------------------------------------------------------
  // CheckoutBranch
  // ---------------------------------------------------------------------------

  /** The first branch of that name (the loop's `break`). */
  function FindBranch(branches: seq<Branch>, name: string): Option<Branch> {
    if |branches| == 0 then None
    else if branches[0].name == name then Some(branches[0])
    else FindBranch(branches[1..], name)
  }

  /** The first current branch. */
  function FirstCurrent(branches: seq<Branch>): Option<Branch> {
    if |branches| == 0 then None
    else if branches[0].isCurrent then Some(branches[0])
    else FirstCurrent(branches[1..])
  }

  ghost predicate FirstNamed(branches: seq<Branch>, name: string, i: int) {
    0 <= i < |branches| && branches[i].name == name && forall j :: 0 <= j < i ==> branches[j].name != name
  }

  ghost predicate FirstCurrentAt(branches: seq<Branch>, i: int) {
    0 <= i < |branches| && branches[i].isCurrent && forall j :: 0 <= j < i ==> !branches[j].isCurrent
  }

  lemma {:induction false} FindBranchIsFirstNamed(branches: seq<Branch>, name: string)
    ensures FindBranch(branches, name).None? <==> forall j :: 0 <= j < |branches| ==> branches[j].name != name
    ensures forall i :: FirstNamed(branches, name, i) ==> FindBranch(branches, name) == Some(branches[i])
  {
    if |branches| > 0 {
      var rest := branches[1..];
      FindBranchIsFirstNamed(rest, name);
      assert forall j :: 0 < j < |branches| ==> branches[j] == rest[j - 1];
      if branches[0].name != name {
        forall i | FirstNamed(branches, name, i) ensures FirstNamed(rest, name, i - 1) {
          assert i != 0;
        }
      } else {
        forall i | FirstNamed(branches, name, i) ensures i == 0 {
        }
      }
    }
  }

  lemma {:induction false} FirstCurrentIsFirst(branches: seq<Branch>)
    ensures FirstCurrent(branches).None? <==> forall j :: 0 <= j < |branches| ==> !branches[j].isCurrent
    ensures forall i :: FirstCurrentAt(branches, i) ==> FirstCurrent(branches) == Some(branches[i])
  {
    if |branches| > 0 {
      var rest := branches[1..];
      FirstCurrentIsFirst(rest);
      assert forall j :: 0 < j < |branches| ==> branches[j] == rest[j - 1];
      if !branches[0].isCurrent {
        forall i | FirstCurrentAt(branches, i) ensures FirstCurrentAt(rest, i - 1) {
          assert i != 0;
        }
      } else {
        forall i | FirstCurrentAt(branches, i) ensures i == 0 {
        }
      }
    }
  }

  /** The effect of one `CheckoutBranch`: the commands issued, the branch
      cache afterwards, and the branch returned or the exception raised. */
  datatype CheckoutStep = CheckoutStep(commands: seq<Command>, cache: Option<seq<Branch>>, result: Result<Branch, string>)

  const NoCurrentBranch: string := "there must be at least one current git branch"

  /** After `git checkout`, the cache is the new branch list and the first
      current branch in it is returned; without one the call raises. */
  function AfterCheckout(name: string, isNewBranch: bool, relisting: Option<seq<Branch>>): CheckoutStep {
    var commands := [Checkout(name, isNewBranch)];
    if relisting.None? then CheckoutStep(commands, None, Failure(NoCurrentBranch))
    else
      match FirstCurrent(relisting.value)
      case Some(b) => CheckoutStep(commands, relisting, Success(b))
      case None => CheckoutStep(commands, relisting, Failure(NoCurrentBranch))
  }

  /** `CheckoutBranch` as a function of the cache and the replies. */
  function CheckoutPlan(cache: Option<seq<Branch>>, name: string, r: Replies): CheckoutStep {
    var branches := if cache.None? then r.listing else cache;
    if branches.None? || |branches.value| == 0 then
      var b := Branch(name, true);
      var commands := if r.status.Some? && r.status.value.branch != Some(name) then [Checkout(name, true)] else [];
      CheckoutStep(commands, Some([b]), Success(b))
    else
      match FindBranch(branches.value, name)
      case Some(b) =>
        if b.isCurrent then CheckoutStep([], branches, Success(b))
        else AfterCheckout(name, false, r.relisting)
      case None => AfterCheckout(name, true, r.relisting)
  }

  /** The branch list the checkout works on: the cache, loaded once. */
  function Listing(cache: Option<seq<Branch>>, r: Replies): Option<seq<Branch>> {
    if cache.None? then r.listing else cache
  }

  /** Bootstrap: with no branches yet, the cache becomes the one current
      branch asked for, which is returned; git is asked to create it only
      when `git status` names another branch. */
  lemma CheckoutBootstrap(cache: Option<seq<Branch>>, name: string, r: Replies)
    requires Listing(cache, r).None? || |Listing(cache, r).value| == 0
    ensures CheckoutPlan(cache, name, r).cache == Some([Branch(name, true)])
    ensures CheckoutPlan(cache, name, r).result == Success(Branch(name, true))
    ensures CheckoutPlan(cache, name, r).commands ==
      if r.status.Some? && r.status.value.branch != Some(name) then [Checkout(name, true)] else []
  {
  }

  /** Already current: the first branch of that name is current, so nothing
      is issued, the cache is kept and that branch is returned. */
  lemma CheckoutAlreadyCurrent(cache: Option<seq<Branch>>, name: string, r: Replies, i: int)
    requires Listing(cache, r).Some? && FirstNamed(Listing(cache, r).value, name, i)
    requires Listing(cache, r).value[i].isCurrent
    ensures CheckoutPlan(cache, name, r) == CheckoutStep([], Listing(cache, r), Success(Listing(cache, r).value[i]))
  {
    FindBranchIsFirstNamed(Listing(cache, r).value, name);
  }

  /** Switch and create: an existing branch that is not current is checked
      out with `isNewBranch=False`, a missing one with `isNewBranch=True`;
      then the cache is the new listing and its first current branch is
      returned, or the call raises when none is current. */
  lemma CheckoutSwitchOrCreate(cache: Option<seq<Branch>>, name: string, r: Replies)
    requires Listing(cache, r).Some? && |Listing(cache, r).value| > 0
    requires FindBranch(Listing(cache, r).value, name).None? || !FindBranch(Listing(cache, r).value, name).value.isCurrent
    ensures var branches := Listing(cache, r).value; var p := CheckoutPlan(cache, name, r);
      && p.commands == [Checkout(name, forall j :: 0 <= j < |branches| ==> branches[j].name != name)]
      && p.cache == r.relisting
      && (p.result.Success? <==> r.relisting.Some? && exists i :: FirstCurrentAt(r.relisting.value, i))
      && (forall i :: r.relisting.Some? && FirstCurrentAt(r.relisting.value, i) ==> p.result == Success(r.relisting.value[i]))
  {
    FindBranchIsFirstNamed(Listing(cache, r).value, name);
    if r.relisting.Some? {
      var l := r.relisting.value;
      FirstCurrentIsFirst(l);
      if FirstCurrent(l).Some? {
        FirstCurrentExists(l);
      }
    }
  }

  lemma {:induction false} FirstCurrentExists(branches: seq<Branch>)
    requires FirstCurrent(branches).Some?
    ensures exists i :: FirstCurrentAt(branches, i)
  {
    if !branches[0].isCurrent {
      var rest := branches[1..];
      FirstCurrentExists(rest);
      var i :| FirstCurrentAt(rest, i);
      assert forall j :: 0 < j <= i + 1 ==> branches[j] == rest[j - 1];
      assert FirstCurrentAt(branches, i + 1);
    } else {
      assert FirstCurrentAt(branches, 0);
    }
  }

  /** A returned branch is current and, when no checkout was issued, it is
      the one asked for; the cache is never empty after a successful call. */
  lemma CheckoutReturnsCurrent(cache: Option<seq<Branch>>, name: string, r: Replies)
    ensures var p := CheckoutPlan(cache, name, r);
      p.result.Success? ==> p.result.value.isCurrent && p.cache.Some? && |p.cache.value| > 0
    ensures var p := CheckoutPlan(cache, name, r);
      |p.commands| == 0 ==> p.result.Success? && p.result.value.name == name
  {
    var branches := Listing(cache, r);
    if branches.Some? && |branches.value| > 0 {
      FindBranchNamed(branches.value, name);
      if r.relisting.Some? {
        FirstCurrentIn(r.relisting.value);
      }
    }
  }

  lemma {:induction false} FindBranchNamed(branches: seq<Branch>, name: string)
    ensures FindBranch(branches, name).Some? ==> FindBranch(branches, name).value.name == name
  {
    if |branches| > 0 {
      FindBranchNamed(branches[1..], name);
    }
  }

  lemma {:induction false} FirstCurrentIn(branches: seq<Branch>)
    ensures FirstCurrent(branches).Some? ==> FirstCurrent(branches).value.isCurrent && |branches| > 0
  {
    if |branches| > 0 {
      FirstCurrentIn(branches[1..]);
    }
  }

  // ---------------------------------------------------------------------------
  // GitCommit
  // ---------------------------------------------------------------------------

  function AddCommands(chunks: seq<seq<string>>): (r: seq<Command>)
    ensures |r| == |chunks| && forall i :: 0 <= i < |r| ==> r[i] == Add(chunks[i])
  {
    seq(|chunks|, i requires 0 <= i < |chunks| => Add(chunks[i]))
  }

  function RmCommands(chunks: seq<seq<string>>): (r: seq<Command>)
    ensures |r| == |chunks| && forall i :: 0 <= i < |r| ==> r[i] == Rm(chunks[i])
  {
    seq(|chunks|, i requires 0 <= i < |chunks| => Rm(chunks[i]))
  }

  /** The effect of one `GitCommit`. */
  datatype CommitStep = CommitStep(commands: seq<Command>, cache: Option<seq<Branch>>, result: Result<bool, string>)

  /** The checkout at the head of `GitCommit`: none when no branch is given. */
  function CheckoutIfNamed(cache: Option<seq<Branch>>, branch: Option<string>, r: Replies): CheckoutStep {
    if branch.Some? then CheckoutPlan(cache, branch.value, r) else CheckoutStep([], cache, Success(Branch("", false)))
  }

  /** `GitCommit` as a function: check out the branch when one is given (an
      exception there ends the call), then `git add` the add list and
      `git rm` the remove list in slices of MaxCmdItems, then commit; the
      result is what the commit answered. */
  function GitCommitPlan(cache: Option<seq<Branch>>, branch: Option<string>, author: string, date: int,
                         message: string, addList: seq<string>, rmList: seq<string>, r: Replies): CommitStep
  {
    var co := CheckoutIfNamed(cache, branch, r);
    if co.result.Failure? then CommitStep(co.commands, co.cache, Failure(co.result.error))
    else
      CommitStep(co.commands + AddCommands(Chunks(addList, MaxCmdItems)) + RmCommands(Chunks(rmList, MaxCmdItems))
                   + [Commit(message, author, date)], co.cache, Success(r.committed))
  }

  /** `GitCommitPlan` split at the checkout. */
  lemma GitCommitPlanAfterCheckout(cache: Option<seq<Branch>>, branch: Option<string>, author: string, date: int,
                                   message: string, addList: seq<string>, rmList: seq<string>, r: Replies)
    ensures var co := CheckoutIfNamed(cache, branch, r);
      GitCommitPlan(cache, branch, author, date, message, addList, rmList, r) ==
        if co.result.Failure? then CommitStep(co.commands, co.cache, Failure(co.result.error))
        else CommitStep(co.commands + AddCommands(Chunks(addList, MaxCmdItems)) + RmCommands(Chunks(rmList, MaxCmdItems))
                          + [Commit(message, author, date)], co.cache, Success(r.committed))
  {
  }

  /** The paths handed to `git add`, in order. */
  function AddedPaths(cmds: seq<Command>): seq<string> {
    if |cmds| == 0 then [] else (if cmds[0].Add? then cmds[0].paths else []) + AddedPaths(cmds[1..])
  }

  /** The paths handed to `git rm`, in order. */
  function RemovedPaths(cmds: seq<Command>): seq<string> {
    if |cmds| == 0 then [] else (if cmds[0].Rm? then cmds[0].paths else []) + RemovedPaths(cmds[1..])
  }

  lemma {:induction false} AddedPathsAppend(a: seq<Command>, b: seq<Command>)
    ensures AddedPaths(a + b) == AddedPaths(a) + AddedPaths(b)
  {
    if |a| == 0 {
      assert a + b == b;
    } else {
      assert (a + b)[0] == a[0];
      assert (a + b)[1..] == a[1..] + b;
      AddedPathsAppend(a[1..], b);
    }
  }

  lemma {:induction false} RemovedPathsAppend(a: seq<Command>, b: seq<Command>)
    ensures RemovedPaths(a + b) == RemovedPaths(a) + RemovedPaths(b)
  {
    if |a| == 0 {
      assert a + b == b;
    } else {
      assert (a + b)[0] == a[0];
      assert (a + b)[1..] == a[1..] + b;
      RemovedPathsAppend(a[1..], b);
    }
  }

  lemma {:induction false} AddCommandsCarry(chunks: seq<seq<string>>)
    ensures AddedPaths(AddCommands(chunks)) == Flatten(chunks)
    ensures RemovedPaths(AddCommands(chunks)) == []
  {
    if |chunks| > 0 {
      AddCommandsCarry(chunks[1..]);
      assert AddCommands(chunks)[1..] == AddCommands(chunks[1..]);
    }
  }

  lemma {:induction false} RmCommandsCarry(chunks: seq<seq<string>>)
    ensures RemovedPaths(RmCommands(chunks)) == Flatten(chunks)
    ensures AddedPaths(RmCommands(chunks)) == []
  {
    if |chunks| > 0 {
      RmCommandsCarry(chunks[1..]);
      assert RmCommands(chunks)[1..] == RmCommands(chunks[1..]);
    }
  }

  /** Batching: once the checkout is through, the slices given to `git add`
      put back together are exactly the add list, those given to `git rm`
      the remove list; every slice is non-empty and at most MaxCmdItems
      long; every add precedes every rm; the commit comes last and only once;
      and the outcome of one slice never stops the next. */
  lemma GitCommitBatches(cache: Option<seq<Branch>>, branch: Option<string>, author: string, date: int,
                         message: string, addList: seq<string>, rmList: seq<string>, r: Replies)
    requires GitCommitPlan(cache, branch, author, date, message, addList, rmList, r).result.Success?
    ensures var cmds := GitCommitPlan(cache, branch, author, date, message, addList, rmList, r).commands;
      && AddedPaths(cmds) == addList
      && RemovedPaths(cmds) == rmList
      && (forall i :: 0 <= i < |cmds| && (cmds[i].Add? || cmds[i].Rm?) ==> 0 < |cmds[i].paths| <= MaxCmdItems)
      && (forall i, j :: 0 <= i < j < |cmds| && cmds[i].Rm? ==> !cmds[j].Add?)
      && |cmds| > 0 && cmds[|cmds| - 1] == Commit(message, author, date)
      && (forall i :: 0 <= i < |cmds| - 1 ==> !cmds[i].Commit?)
  {
    var co := CheckoutIfNamed(cache, branch, r);
    CheckoutOnlyChecksOut(cache, branch, r);
    BatchedPaths(co.commands, addList, rmList, Commit(message, author, date));
    BatchedOrder(co.commands, addList, rmList, Commit(message, author, date));
  }

  /** The add and rm slices that follow a checkout carry the two lists. */
  lemma BatchedPaths(pre: seq<Command>, addList: seq<string>, rmList: seq<string>, commit: Command)
    requires forall c :: c in pre ==> c.Checkout?
    requires commit.Commit?
    ensures var cmds := pre + AddCommands(Chunks(addList, MaxCmdItems)) + RmCommands(Chunks(rmList, MaxCmdItems)) + [commit];
      AddedPaths(cmds) == addList && RemovedPaths(cmds) == rmList
  {
    var adds := AddCommands(Chunks(addList, MaxCmdItems));
    var rms := RmCommands(Chunks(rmList, MaxCmdItems));
    NoAddsInCheckout(pre);
    AddCommandsCarry(Chunks(addList, MaxCmdItems));
    RmCommandsCarry(Chunks(rmList, MaxCmdItems));
    ChunksReassemble(addList, MaxCmdItems);
    ChunksReassemble(rmList, MaxCmdItems);
    AddedPathsAppend(pre, adds);
    AddedPathsAppend(pre + adds, rms);
    AddedPathsAppend(pre + adds + rms, [commit]);
    RemovedPathsAppend(pre, adds);
    RemovedPathsAppend(pre + adds, rms);
    RemovedPathsAppend(pre + adds + rms, [commit]);
    assert AddedPaths([commit]) == [] && RemovedPaths([commit]) == [];
  }

  /** The slices are bounded, adds come before rms, and the commit is last. */
  lemma BatchedOrder(pre: seq<Command>, addList: seq<string>, rmList: seq<string>, commit: Command)
    requires forall c :: c in pre ==> c.Checkout?
    requires commit.Commit?
    ensures var cmds := pre + AddCommands(Chunks(addList, MaxCmdItems)) + RmCommands(Chunks(rmList, MaxCmdItems)) + [commit];
      && (forall i :: 0 <= i < |cmds| && (cmds[i].Add? || cmds[i].Rm?) ==> 0 < |cmds[i].paths| <= MaxCmdItems)
      && (forall i, j :: 0 <= i < j < |cmds| && cmds[i].Rm? ==> !cmds[j].Add?)
      && |cmds| > 0 && cmds[|cmds| - 1] == commit
      && (forall i :: 0 <= i < |cmds| - 1 ==> !cmds[i].Commit?)
  {
    var adds := AddCommands(Chunks(addList, MaxCmdItems));
    var rms := RmCommands(Chunks(rmList, MaxCmdItems));
    var cmds := pre + adds + rms + [commit];
    ChunksBounded(addList, MaxCmdItems);
    ChunksBounded(rmList, MaxCmdItems);
    var n0, n1, n2 := |pre|, |pre| + |adds|, |pre| + |adds| + |rms|;
    forall i | 0 <= i < |cmds|
      ensures (i < n0 ==> cmds[i].Checkout?)
      ensures (n0 <= i < n1 ==> cmds[i] == adds[i - n0])
      ensures (n1 <= i < n2 ==> cmds[i] == rms[i - n1])
      ensures (i == n2 ==> cmds[i] == commit)
    {
      if i < n0 {
        assert cmds[i] == pre[i];
        assert pre[i] in pre;
      }
    }
    forall i | 0 <= i < |cmds| && (cmds[i].Add? || cmds[i].Rm?) ensures 0 < |cmds[i].paths| <= MaxCmdItems {
      if n0 <= i < n1 {
        assert cmds[i].paths == Chunks(addList, MaxCmdItems)[i - n0];
      } else if n1 <= i < n2 {
        assert cmds[i].paths == Chunks(rmList, MaxCmdItems)[i - n1];
      }
    }
    forall i, j | 0 <= i < j < |cmds| && cmds[i].Rm? ensures !cmds[j].Add? {
      assert n1 <= i;
    }
  }

  /** The checkout step issues nothing but `git checkout`. */
  lemma CheckoutOnlyChecksOut(cache: Option<seq<Branch>>, branch: Option<string>, r: Replies)
    ensures branch.Some? ==> forall c :: c in CheckoutPlan(cache, branch.value, r).commands ==> c.Checkout?
  {
  }

  lemma {:induction false} NoAddsInCheckout(cmds: seq<Command>)
    requires forall c :: c in cmds ==> c.Checkout?
    ensures AddedPaths(cmds) == [] && RemovedPaths(cmds) == []
  {
    if |cmds| > 0 {
      assert cmds[0] in cmds;
      assert forall c :: c in cmds[1..] ==> c in cmds;
      NoAddsInCheckout(cmds[1..]);
    }
  }
}
