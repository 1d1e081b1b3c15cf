/** The promotion handler `OnPromote` as a function of the transaction, the
    configuration, the branch cache and the replies, and what it promises. */
module Promotion {
  import opened Base
  import opened Text
  import opened DepotPaths
  import opened Transactions
  import opened Chunking
  import opened Classifier
  import opened Metadata
  import opened GitHelpers

  // ---------------------------------------------------------------------------
  // OnPromote
  // ---------------------------------------------------------------------------

  /** How a promotion ended. `OnPromote` returns True for `Committed` and
      `NothingToCommit`, False for the other returning cases; the remaining
      cases raise or exit. */
  datatype PromoteOutcome =
    | NoVersions
    | NoStream
    | StreamNotAllowed(stream: string)
    | ClassificationFailed(error: StatOutcome)
    | PopulateFailed
    | EmptyCommit
    | CheckoutFailed(reason: string)
    | Committed
    | NothingToCommit
    | CommitRejected
    | CommitAborted

  /** The outcomes after which the script does not go on (an exception or
      `sys.exit(1)`). */
  predicate Aborts(o: PromoteOutcome) {
    o.ClassificationFailed? || o.PopulateFailed? || o.CheckoutFailed? || o.CommitAborted?
  }

  /** `OnPromote`'s return value for the outcomes that return. */
  predicate Returns(o: PromoteOutcome)
    requires !Aborts(o)
  {
    o == Committed || o == NothingToCommit
  }

  const NothingToCommitText: string := "nothing to commit, working directory clean"

  /** The outcome branch after `GitCommit`: success; else, with an error
      output, "nothing to commit" counts as success and anything else is
      returned as failure; with no error output the script exits. */
  function CommitOutcome(status: Result<bool, string>, lastError: Option<string>): (o: PromoteOutcome)
    ensures status.Failure? <==> o.CheckoutFailed?
    ensures status.Success? && status.value ==> o == Committed
    ensures status == Success(false) ==>
      (o == NothingToCommit <==> lastError.Some? && Contains(lastError.value, NothingToCommitText))
    ensures status == Success(false) ==>
      (o == CommitRejected <==> lastError.Some? && !Contains(lastError.value, NothingToCommitText))
    ensures status == Success(false) ==> (o == CommitAborted <==> lastError.None?)
  {
    match status
    case Failure(e) => CheckoutFailed(e)
    case Success(ok) =>
      if ok then Committed
      else if lastError.Some? then
        if Contains(lastError.value, NothingToCommitText) then NothingToCommit else CommitRejected
      else CommitAborted
  }

  /** A real directory: a directory that is not a symbolic or element link. */
  predicate IsRealDir(v: Version) {
    v.dir && !(v.elemType == "slink" || v.elemType == "elink")
  }

  /** `addList`: the working-tree paths of the non-directory members. */
  function AddList(member: seq<Version>): seq<string> {
    if |member| == 0 then []
    else
      var v := member[|member| - 1];
      AddList(member[..|member| - 1]) + (if !v.dir then [LocalElementPath(v.path)] else [])
  }

  /** `rmList`: the working-tree paths of the defunct versions that are not
      real directories. */
  function RmList(defunct: seq<Version>): seq<string> {
    if |defunct| == 0 then []
    else
      var v := defunct[|defunct| - 1];
      RmList(defunct[..|defunct| - 1]) + (if !IsRealDir(v) then [LocalElementPath(v.path)] else [])
  }

  /** For each defunct real directory, in order: remove the tree, then
      `git add --update`. */
  function DefunctCommands(defunct: seq<Version>): seq<Command> {
    if |defunct| == 0 then []
    else
      var v := defunct[|defunct| - 1];
      DefunctCommands(defunct[..|defunct| - 1]) + (if IsRealDir(v) then [RemoveTree(v.path), AddUpdate] else [])
  }

  /** `PopAccurevTransaction(member)`: the member transaction (a copy of the
      promotion with only the member versions), through a list file above
      MaxCmdItems versions. */
  function PopulateCommand(t: Transaction, member: seq<Version>): Command {
    Populate(GetTransactionDestStream(t.(versions := member)), t.id, Paths(member), UsesListFile(|member|))
  }

  /** The stat query of the classification. */
  function StatCommand(t: Transaction): Command
    requires WellFormedVersions(t.versions)
  {
    var q := QueryList(t.versions);
    Stat(GetTransactionDestStream(t), t.id, q, UsesListFile(|q|))
  }

  /** The effect of one promotion. */
  datatype PromoteStep = PromoteStep(commands: seq<Command>, cache: Option<seq<Branch>>, outcome: PromoteOutcome)

  /** What follows the classification: populate the members (exit on
      failure), collect the add list, remove defunct real directories and
      collect the remove list, and commit when either list is non-empty. */
  function ApplyPlan(t: Transaction, stream: string, split: Split, usermaps: seq<UserMap>,
                     cache: Option<seq<Branch>>, r: Replies): PromoteStep
  {
    var member := split.member;
    var pop := if |member| > 0 then [PopulateCommand(t, member)] else [];
    if |member| > 0 && !r.populated then PromoteStep(pop, cache, PopulateFailed)
    else
      var addList := AddList(member);
      var rmList := RmList(split.defunct);
      var prep := pop + DefunctCommands(split.defunct);
      if |addList| == 0 && |rmList| == 0 then PromoteStep(prep, cache, EmptyCommit)
      else
        var c := GitCommitPlan(cache, Some(stream), AccurevUser2GitAuthor(t.user, usermaps), t.time,
                               AccurevComment2GitMessage(t), addList, rmList, r);
        PromoteStep(prep + c.commands, c.cache, CommitOutcome(c.result, r.lastError))
  }

  /** `OnPromote` from the stat query on: the query is issued, and the rest
      of the handler runs only when the versions were classified. */
  function ClassifiedPlan(t: Transaction, stream: string, s: StatOutcome, usermaps: seq<UserMap>,
                          cache: Option<seq<Branch>>, r: Replies): PromoteStep
    requires WellFormedVersions(t.versions)
  {
    match s
    case Classified(split) =>
      var a := ApplyPlan(t, stream, split, usermaps, cache, r);
      PromoteStep([StatCommand(t)] + a.commands, a.cache, a.outcome)
    case other => PromoteStep([StatCommand(t)], cache, ClassificationFailed(other))
  }

  /** `OnPromote` as a function of the configuration, the cache and the replies. */
  function PromotePlan(t: Transaction, streamList: Option<seq<string>>, usermaps: seq<UserMap>,
                       cache: Option<seq<Branch>>, r: Replies): PromoteStep
    requires WellFormedVersions(t.versions)
  {
    var stream := GetTransactionDestStream(t);
    if |t.versions| == 0 then PromoteStep([], cache, NoVersions)
    else if stream.None? then PromoteStep([], cache, NoStream)
    else if !IsStreamAllowed(stream, streamList) then PromoteStep([], cache, StreamNotAllowed(stream.value))
    else ClassifiedPlan(t, stream.value, StatResult(t.versions, r.stat), usermaps, cache, r)
  }

  /** `ApplyPlan` case by case, in the order the handler runs. */
  lemma ApplyPlanCases(t: Transaction, stream: string, split: Split, usermaps: seq<UserMap>,
                       cache: Option<seq<Branch>>, r: Replies)
    ensures var a := ApplyPlan(t, stream, split, usermaps, cache, r);
      var pop := if |split.member| > 0 then [PopulateCommand(t, split.member)] else [];
      var prep := pop + DefunctCommands(split.defunct);
      var addList := AddList(split.member);
      var rmList := RmList(split.defunct);
      var c := GitCommitPlan(cache, Some(stream), AccurevUser2GitAuthor(t.user, usermaps), t.time,
                             AccurevComment2GitMessage(t), addList, rmList, r);
      && (|split.member| > 0 && !r.populated ==> a == PromoteStep(pop, cache, PopulateFailed))
      && (!(|split.member| > 0 && !r.populated) && |addList| == 0 && |rmList| == 0 ==>
            a == PromoteStep(prep, cache, EmptyCommit))
      && (!(|split.member| > 0 && !r.populated) && (|addList| > 0 || |rmList| > 0) ==>
            a == PromoteStep(prep + c.commands, c.cache, CommitOutcome(c.result, r.lastError)))
  {
  }

  // ---------------------------------------------------------------------------
  // What the plan promises
  // ---------------------------------------------------------------------------

  /** The guards: no versions, no destination stream, or a stream outside the
      configured list end the promotion before anything is issued; otherwise
      the stat query is the first command. */
  lemma PromoteGuards(t: Transaction, streamList: Option<seq<string>>, usermaps: seq<UserMap>,
                      cache: Option<seq<Branch>>, r: Replies)
    requires WellFormedVersions(t.versions)
    ensures var p := PromotePlan(t, streamList, usermaps, cache, r); var stream := GetTransactionDestStream(t);
      && (p.outcome == NoVersions <==> |t.versions| == 0)
      && (p.outcome == NoStream <==> |t.versions| > 0 && t.versions[0].stream.None?)
      && (p.outcome.StreamNotAllowed? <==> stream.Some? && streamList.Some? && stream.value !in streamList.value)
      && (p.outcome.NoVersions? || p.outcome.NoStream? || p.outcome.StreamNotAllowed? ==> p.commands == [] && p.cache == cache)
      && (!(p.outcome.NoVersions? || p.outcome.NoStream? || p.outcome.StreamNotAllowed?) ==>
            |p.commands| > 0 && p.commands[0] == StatCommand(t))
  {
    var stream := GetTransactionDestStream(t);
    if |t.versions| > 0 && stream.Some? && IsStreamAllowed(stream, streamList) {
      ClassifiedPlanShape(t, stream.value, StatResult(t.versions, r.stat), usermaps, cache, r);
    }
  }

  /** Past the guards the outcome is never a guard's, and the stat query
      comes first. */
  lemma ClassifiedPlanShape(t: Transaction, stream: string, s: StatOutcome, usermaps: seq<UserMap>,
                            cache: Option<seq<Branch>>, r: Replies)
    requires WellFormedVersions(t.versions)
    ensures var c := ClassifiedPlan(t, stream, s, usermaps, cache, r);
      && !(c.outcome.NoVersions? || c.outcome.NoStream? || c.outcome.StreamNotAllowed?)
      && |c.commands| > 0 && c.commands[0] == StatCommand(t)
  {
    if s.Classified? {
      ApplyOutcomes(t, stream, s.split, usermaps, cache, r);
    }
  }

  /** What follows the classification ends in a populate failure, an empty
      commit, or one of the commit outcomes. */
  lemma ApplyOutcomes(t: Transaction, stream: string, split: Split, usermaps: seq<UserMap>,
                      cache: Option<seq<Branch>>, r: Replies)
    ensures var o := ApplyPlan(t, stream, split, usermaps, cache, r).outcome;
      o.PopulateFailed? || o.EmptyCommit? || o.CheckoutFailed? || o.Committed? || o.NothingToCommit? ||
      o.CommitRejected? || o.CommitAborted?
  {
    ApplyPlanCases(t, stream, split, usermaps, cache, r);
  }

  /** The add list holds the working-tree path of every member that is not a
      directory, and nothing else. */
  lemma {:induction false} AddListContents(member: seq<Version>)
    ensures forall q :: q in AddList(member) <==>
      exists i :: 0 <= i < |member| && !member[i].dir && q == LocalElementPath(member[i].path)
  {
    if |member| > 0 {
      var init := member[..|member| - 1];
      AddListContents(init);
      assert forall i :: 0 <= i < |init| ==> init[i] == member[i];
    }
  }

  /** The remove list holds the working-tree path of every defunct version
      that is not a real directory; each defunct real directory is removed
      as a tree instead; and the removal commands are nothing but those
      tree removals, each followed by `git add --update`. */
  lemma {:induction false} DefunctHandling(defunct: seq<Version>)
    ensures forall q :: q in RmList(defunct) <==>
      exists i :: 0 <= i < |defunct| && !IsRealDir(defunct[i]) && q == LocalElementPath(defunct[i].path)
    ensures forall q :: RemoveTree(q) in DefunctCommands(defunct) <==>
      exists i :: 0 <= i < |defunct| && IsRealDir(defunct[i]) && q == defunct[i].path
    ensures forall c :: c in DefunctCommands(defunct) ==> c.RemoveTree? || c == AddUpdate
  {
    if |defunct| > 0 {
      var init := defunct[..|defunct| - 1];
      DefunctHandling(init);
      assert forall i :: 0 <= i < |init| ==> init[i] == defunct[i];
    }
  }

  /** A version stranded under a defunct directory reaches neither list: its
      path is not added and not removed (unless another member or defunct
      version of the same transaction has the same path). */
  lemma StrandedReachesNeitherList(vs: seq<Version>, info: Option<seq<StatEntry>>, v: Version)
    requires WellFormedVersions(vs)
    requires StatResult(vs, info).Classified?
    requires v in StatResult(vs, info).split.stranded
    requires forall w :: w in StatResult(vs, info).split.member || w in StatResult(vs, info).split.defunct ==> w.path != v.path
    ensures LocalElementPath(v.path) !in AddList(StatResult(vs, info).split.member)
    ensures LocalElementPath(v.path) !in RmList(StatResult(vs, info).split.defunct)
  {
    var dict := StatusMap(info.value);
    PartitionIsExact(vs, dict);
    var s := StatResult(vs, info).split;
    AddListContents(s.member);
    DefunctHandling(s.defunct);
    assert IsDepotPath(v.path) by {
      var k :| 0 <= k < |vs| && vs[k] == v;
    }
    forall i | 0 <= i < |s.member| ensures LocalElementPath(s.member[i].path) != LocalElementPath(v.path) {
      var w := s.member[i];
      assert w in s.member;
      var k :| 0 <= k < |vs| && vs[k] == w;
      if LocalElementPath(w.path) == LocalElementPath(v.path) {
        LocalElementPathInjective(w.path, v.path);
      }
    }
    forall i | 0 <= i < |s.defunct| ensures LocalElementPath(s.defunct[i].path) != LocalElementPath(v.path) {
      var w := s.defunct[i];
      assert w in s.defunct;
      var k :| 0 <= k < |vs| && vs[k] == w;
      if LocalElementPath(w.path) == LocalElementPath(v.path) {
        LocalElementPathInjective(w.path, v.path);
      }
    }
  }

  /** The populate step of a classified promotion: pop is the first command
      when there are members; a failed pop exits before anything else; and
      nothing is committed when neither list has an entry. */
  lemma ApplyPopulateGating(t: Transaction, stream: string, split: Split, usermaps: seq<UserMap>,
                            cache: Option<seq<Branch>>, r: Replies)
    ensures var a := ApplyPlan(t, stream, split, usermaps, cache, r);
      && (|split.member| > 0 ==> |a.commands| > 0 && a.commands[0] == PopulateCommand(t, split.member))
      && (a.outcome == PopulateFailed <==> |split.member| > 0 && !r.populated)
      && (a.outcome == PopulateFailed ==> a.commands == [PopulateCommand(t, split.member)])
      && (a.outcome == EmptyCommit <==>
            (|split.member| == 0 || r.populated) && |AddList(split.member)| == 0 && |RmList(split.defunct)| == 0)
  {
  }

  /** `GitCommit` issues checkouts, slices and the commit, never a populate. */
  lemma GitCommitIssuesNoPopulate(cache: Option<seq<Branch>>, stream: string, author: string, date: int,
                                  message: string, addList: seq<string>, rmList: seq<string>, r: Replies)
    ensures forall c :: c in GitCommitPlan(cache, Some(stream), author, date, message, addList, rmList, r).commands ==>
      !c.Populate?
  {
    GitCommitPlanAfterCheckout(cache, Some(stream), author, date, message, addList, rmList, r);
    CheckoutOnlyChecksOut(cache, Some(stream), r);
  }

  /** Populate is issued only when there are member versions: with none, no
      command of the promotion is a populate. */
  lemma PopulateOnlyWithMembers(t: Transaction, stream: string, split: Split, usermaps: seq<UserMap>,
                                cache: Option<seq<Branch>>, r: Replies)
    ensures |split.member| == 0 ==>
      forall c :: c in ApplyPlan(t, stream, split, usermaps, cache, r).commands ==> !c.Populate?
  {
    ApplyPlanCases(t, stream, split, usermaps, cache, r);
    DefunctHandling(split.defunct);
    GitCommitIssuesNoPopulate(cache, stream, AccurevUser2GitAuthor(t.user, usermaps), t.time,
      AccurevComment2GitMessage(t), AddList(split.member), RmList(split.defunct), r);
    if |split.member| == 0 {
      assert [] + DefunctCommands(split.defunct) == DefunctCommands(split.defunct);
    }
  }

  /** No command before the commit step commits. */
  lemma PrepHasNoCommit(t: Transaction, member: seq<Version>, defunct: seq<Version>)
    ensures var pop := if |member| > 0 then [PopulateCommand(t, member)] else [];
      forall c :: c in pop + DefunctCommands(defunct) ==> !c.Commit?
  {
    DefunctHandling(defunct);
  }

  /** Some command of the sequence is a `git commit`. */
  predicate HasCommit(cmds: seq<Command>) {
    exists i :: 0 <= i < |cmds| && cmds[i].Commit?
  }

  /** At most one command of the sequence is a `git commit`. */
  predicate AtMostOneCommit(cmds: seq<Command>) {
    forall i, j :: 0 <= i < |cmds| && 0 <= j < |cmds| && cmds[i].Commit? && cmds[j].Commit? ==> i == j
  }

  /** `GitCommit` commits once when the checkout went through, and not at all
      otherwise. */
  lemma GitCommitCommitsOnce(cache: Option<seq<Branch>>, stream: string, author: string, date: int,
                             message: string, addList: seq<string>, rmList: seq<string>, r: Replies)
    ensures var c := GitCommitPlan(cache, Some(stream), author, date, message, addList, rmList, r);
      (HasCommit(c.commands) <==> c.result.Success?) && AtMostOneCommit(c.commands)
  {
    var c := GitCommitPlan(cache, Some(stream), author, date, message, addList, rmList, r);
    var co := CheckoutPlan(cache, stream, r);
    CheckoutOnlyChecksOut(cache, Some(stream), r);
    if c.result.Success? {
      GitCommitBatches(cache, Some(stream), author, date, message, addList, rmList, r);
      assert c.commands[|c.commands| - 1].Commit?;
    } else {
      assert c.commands == co.commands;
      forall i | 0 <= i < |c.commands| ensures !c.commands[i].Commit? {
        assert c.commands[i] in co.commands;
      }
    }
  }

  /** Commands in front that do not commit change neither property. */
  lemma CommitsAfterPrefix(prep: seq<Command>, cmds: seq<Command>)
    requires forall c :: c in prep ==> !c.Commit?
    ensures HasCommit(prep + cmds) <==> HasCommit(cmds)
    ensures AtMostOneCommit(cmds) ==> AtMostOneCommit(prep + cmds)
  {
    var all := prep + cmds;
    forall i | 0 <= i < |all| ensures all[i].Commit? ==> i >= |prep| && cmds[i - |prep|].Commit? {
      if i < |prep| {
        assert all[i] in prep;
      } else {
        assert all[i] == cmds[i - |prep|];
      }
    }
    if HasCommit(cmds) {
      var k :| 0 <= k < |cmds| && cmds[k].Commit?;
      assert all[k + |prep|] == cmds[k];
    }
  }

  /** The commit step of a classified promotion: `git commit` is issued
      exactly when the outcome is one of the four commit outcomes, and at
      most once. */
  lemma ApplyCommitOnce(t: Transaction, stream: string, split: Split, usermaps: seq<UserMap>,
                        cache: Option<seq<Branch>>, r: Replies)
    ensures var a := ApplyPlan(t, stream, split, usermaps, cache, r);
      && (HasCommit(a.commands) <==>
            a.outcome == Committed || a.outcome == NothingToCommit || a.outcome == CommitRejected || a.outcome == CommitAborted)
      && AtMostOneCommit(a.commands)
  {
    var a := ApplyPlan(t, stream, split, usermaps, cache, r);
    var member := split.member;
    var pop := if |member| > 0 then [PopulateCommand(t, member)] else [];
    if |member| > 0 && !r.populated {
      assert a.commands == pop;
    } else {
      var addList := AddList(member);
      var rmList := RmList(split.defunct);
      var prep := pop + DefunctCommands(split.defunct);
      PrepHasNoCommit(t, member, split.defunct);
      if |addList| == 0 && |rmList| == 0 {
        CommitsAfterPrefix(prep, []);
        assert prep + [] == prep;
      } else {
        var author := AccurevUser2GitAuthor(t.user, usermaps);
        var c := GitCommitPlan(cache, Some(stream), author, t.time, AccurevComment2GitMessage(t), addList, rmList, r);
        GitCommitCommitsOnce(cache, stream, author, t.time, AccurevComment2GitMessage(t), addList, rmList, r);
        CommitsAfterPrefix(prep, c.commands);
      }
    }
  }

  /** Over the whole handler: `git commit` is issued at most once, and
      exactly when the outcome is one of the four commit outcomes. */
  lemma PromoteCommitsOnce(t: Transaction, streamList: Option<seq<string>>, usermaps: seq<UserMap>,
                           cache: Option<seq<Branch>>, r: Replies)
    requires WellFormedVersions(t.versions)
    ensures var p := PromotePlan(t, streamList, usermaps, cache, r);
      && (HasCommit(p.commands) <==>
            p.outcome == Committed || p.outcome == NothingToCommit || p.outcome == CommitRejected || p.outcome == CommitAborted)
      && AtMostOneCommit(p.commands)
  {
    var stream := GetTransactionDestStream(t);
    if |t.versions| > 0 && stream.Some? && IsStreamAllowed(stream, streamList) {
      var s := StatResult(t.versions, r.stat);
      if s.Classified? {
        var a := ApplyPlan(t, stream.value, s.split, usermaps, cache, r);
        ApplyCommitOnce(t, stream.value, s.split, usermaps, cache, r);
        CommitsAfterPrefix([StatCommand(t)], a.commands);
      } else {
        assert !StatCommand(t).Commit?;
      }
    }
  }
}
