# accurev2git transaction replay, modelled in Dafny

`accurev2git.py` converts an AccuRev depot into a git repository.

It reads the depot's history a window of transactions at a time and hands each transaction to the handler registered for its type. Only the promotion handler changes anything. For a promotion it:

1. asks AccuRev for the status of every element and every ancestor directory;
2. classifies each version as member, defunct or stranded;
3. populates the members into the working tree;
4. removes defunct real directories;
5. stages the remaining paths with `git add` and `git rm` in slices of at most 25;
6. commits on the transaction's stream branch, switching to or creating that branch through a cached branch list.

The commit message carries a `[AccuRev Transaction #id]` tag. When a conversion resumes, it parses that tag out of the last commit.

This project models that decision logic. Every AccuRev, git, filesystem and subprocess call is treated as an input or an output:

- **Inputs.** What AccuRev and git answer during one transaction is a `Replies` value: the stat entries, whether populate succeeded, the branch list before and after a checkout, `git status`, whether the commit succeeded, and the repository's `lastError`.
- **Outputs.** Every call that changes something is a `Command`: stat, populate, remove tree, `git add --update`, checkout, add, rm, commit. The model appends these to a log in the order the script issues them.

The modules follow the script's parts:

- `Text`: backslash normalisation, decimal digits, integer parsing.
- `DepotPaths`: `dirname` on depot paths (`/`-separated, starting `/./`, no empty component), `GetParentPaths`, `LocalElementPath`.
- `Transactions`: versions and transactions, the destination stream, `GetTransactionElements`, `IsStreamAllowed`.
- `Chunking`: the slice size `maxCmdItems` = 25, slicing, and the list-file threshold.
- `Classifier`: `SplitElementsByStatusViaStat`. It covers the query list, the status map, the parent scan, and the classification loop. The loop is specified by a partition function and a reference selection.
- `GitHelpers`: `CheckoutBranch` and `GitCommit`, each specified as a plan function of the branch cache and the replies.
- `Metadata`: commit messages, authors, and the resume point of `GetLastConvertedTransaction`.
- `Promotion`: `OnPromote` as a plan, its outcomes, and what it promises.
- `Dispatch`: the eleven-entry handler table.
- `HistoryWindows`: the window loop of `Start`, with `maxTransactions` = 500.
- `Replay`: the class `Converter`. It holds the configuration, the branch cache (`branchList`) and the command log (`calls`). Its methods replay one transaction or a range imperatively. Each method is proved to have exactly the effect of its plan function.

The model follows the code as written, including these behaviours:

- A failed commit whose `lastError` output is not "nothing to commit" makes `OnPromote` return False, and the run goes on. Only a missing `lastError` stops the run.
- The stranded list is computed and never used.
- Populate is given the stream of the first member version.
- `RecursivelyRemoveDir` is given the depot path of the directory.
- The window loop stops after the full windows.
  - When fewer than one transaction remains past the resume point, nothing more is queried. In particular, when the end transaction equals the resume point, that transaction is not queried.
  - The final window may hold up to 501 transactions.

## Model

| member | source | states |
|---|---|---|
| Text.SlashedIdempotent | accurev2git.py:247-262 | replacing `\` by `/` leaves no backslash, and a second replacement changes nothing |
| Text.SlashedKeepsPlainPaths | accurev2git.py:252 | a path without backslashes is its own normalised key |
| Text.NatToStringRoundTrip | accurev2git.py:373 | the decimal text written for an id reads back as that id |
| Text.LeadingDigitsOfDigitsThen | accurev2git.py:738 | the greedy `[0-9]+` run over digits followed by a non-digit is exactly those digits |
| Text.ParseIntOfNatToString | accurev2git.py:730 | `int()` of the decimal text of n is n |
| Text.ParseIntOfSigned | accurev2git.py:730 | `int()` of a sign, blanks and digits is the digits' value, negated for `-` |
| Text.ParseIntOfSignedNatToString | accurev2git.py:730 | `int()` reads `-n` and `+n`, with any blanks after the sign, as -n and n |
| DepotPaths.DirnameOfDepotPath | accurev2git.py:197 | `dirname` of a depot path cuts at its last slash; it is the root marker `/.` exactly for a top-level element, and otherwise a depot path again |
| DepotPaths.AncestorsStep | accurev2git.py:196-200 | one loop pass: the normalised dirname is `/.` exactly when the dirname is; then the loop stops, else the dirname is prepended to the rest |
| DepotPaths.GetParentPaths | accurev2git.py:193-202 | the while loop returns the ancestor list of the path |
| DepotPaths.AncestorsAreAChain | accurev2git.py:193-202 | the ancestors come nearest first; each is the dirname of the one before and a strictly shorter prefix of it; none is `/.`; the list is empty exactly for a top-level element |
| DepotPaths.AncestorsAreContainingDirectories | accurev2git.py:193-202 | a path is in the list exactly when it is a proper ancestor directory of the element |
| DepotPaths.LocalElementPath | accurev2git.py:86-94 | the relative working-tree path is the depot path without its leading `/./`, and is non-empty |
| DepotPaths.LocalElementPathInjective | accurev2git.py:86-94 | distinct depot paths give distinct working-tree paths |
| Transactions.GetTransactionDestStream | accurev2git.py:97-101 | the stream is that of the first version, and there is none exactly when there are no versions or the first has no stream |
| Transactions.IsStreamAllowed | accurev2git.py:714-720 | an absent stream is refused; with no stream list every stream is allowed; otherwise exactly the listed ones are |
| Transactions.GetTransactionElements | accurev2git.py:104-123 | the loop returns the element paths in version order, skipping directories when asked |
| Transactions.ElementPathsMembership | accurev2git.py:104-117 | a path is listed exactly when some version has it and is not a skipped directory; without skipping, every path is listed in order |
| Chunking.ChunksReassemble | accurev2git.py:319-339 | concatenating the slices in order gives back the list |
| Chunking.ChunksBounded | accurev2git.py:322-339 | every slice is non-empty and holds at most 25 paths; all but the last hold exactly 25; there are none exactly for an empty list |
| Chunking.ChunksOfShortList | accurev2git.py:322-329 | a non-empty list of at most 25 paths goes out in one slice |
| Chunking.ChunkSizeInvariance | accurev2git.py:319 | the paths handed over do not depend on the slice size |
| Classifier.AppendNewParents | accurev2git.py:220-222 | the inner loop appends each parent not yet listed, in order |
| Classifier.AppendNewKeepsDistinct | accurev2git.py:220-222 | the `not in dirList` check keeps the list free of duplicates, and it holds exactly the old entries and the parents |
| Classifier.AddVersion | accurev2git.py:217-222 | one pass of the version loop extends `dirList` and `elemList` by that version |
| Classifier.BuildQueryList | accurev2git.py:214-224 | the loops build `dirList + elemList` |
| Classifier.DirListIsDistinctAncestors | accurev2git.py:215-222 | `dirList` holds each ancestor of each version once, and nothing else |
| Classifier.QueryListShape | accurev2git.py:214-224 | the query list is the distinct ancestors followed by every version path in version order; it is empty only for an empty transaction |
| Classifier.BuildStatusMap | accurev2git.py:245-248 | the loop builds the path → is-defunct map |
| Classifier.StatusMapKeys | accurev2git.py:245-248 | a key is present exactly when some stat entry has that normalised location |
| Classifier.StatusMapLastEntry | accurev2git.py:245-248 | the last entry for a location decides its value: defunct exactly when its status list contains `(defunct)` |
| Classifier.ParentScanOutcomes | accurev2git.py:257-266 | the parent scan is stranded exactly when it reaches a defunct parent with every earlier one live; it is not stranded exactly when every parent is live; it fails with a key exactly when that is the first missing parent and every earlier one is live |
| Classifier.ClassifyVersion | accurev2git.py:252-269 | the try block gives the version's classification |
| Classifier.ClassifyRules | accurev2git.py:252-277 | defunct exactly when the element's own status is defunct; stranded exactly when it is live and the scan meets a defunct parent first; member exactly when it and all its parents are live; a missing element key is the error, and otherwise the first missing parent before a defunct one |
| Classifier.ClassifyWithCompleteStatus | accurev2git.py:253-277 | when every status is present, classification succeeds, and a live element is stranded exactly when some ancestor is defunct |
| Classifier.ClassifyVersions | accurev2git.py:250-277 | the classification loop computes the partition, stopping at the first error |
| Classifier.PartitionSucceeds | accurev2git.py:250-277 | classification succeeds exactly when no version raises |
| Classifier.PartitionSelects | accurev2git.py:271-277 | each list is the versions of its status in original order |
| Classifier.PartitionIsSelection | accurev2git.py:250-277 | both facts above together |
| Classifier.PartitionFailsWith | accurev2git.py:253-269 | it fails with key k exactly when the first version that raises raises k |
| Classifier.PartitionExtendFailure | accurev2git.py:266-269 | an error on a prefix is the error of the whole loop |
| Classifier.SelectMembership | accurev2git.py:271-277 | the reference selection holds exactly the versions of that status |
| Classifier.SelectIsSubMultiset | accurev2git.py:271-277 | the selection takes each version at most as often as it occurs |
| Classifier.PartitionCovers | accurev2git.py:250-277 | the three lists together hold every version exactly as often as the transaction does |
| Classifier.PartitionMembership | accurev2git.py:271-277 | each list holds exactly the versions its classification names |
| Classifier.InExactlyOneList | accurev2git.py:271-277 | a version lands in exactly one list |
| Classifier.PartitionIsExact | accurev2git.py:250-277 | the classification is a partition: multiset and length preserved, membership by status, each version in exactly one list |
| Classifier.DefunctDirectoryStrandsDescendants | accurev2git.py:257-264 | a version under a defunct version's directory is defunct or stranded, never a member |
| Classifier.SplitElementsByStatusViaStat | accurev2git.py:204-281 | the stat query is issued on the query list, through the list file above 25 paths; nothing is queried for an empty transaction; the result is the partition of the status map, or the stat or missing-key error |
| GitHelpers.FindBranchIsFirstNamed | accurev2git.py:68-74 | the loop finds the first branch with that name, and none exactly when no branch has it |
| GitHelpers.FirstCurrentIsFirst | accurev2git.py:78-80 | the loop returns the first current branch, and none exactly when none is current |
| GitHelpers.CheckoutBootstrap | accurev2git.py:54-65 | with no branch yet, the cache becomes the single current branch asked for, which is returned; a checkout that creates it is issued only when `git status` names another branch |
| GitHelpers.CheckoutAlreadyCurrent | accurev2git.py:67-71 | when the first branch of that name is current, nothing is issued, the cache is kept and that branch is returned |
| GitHelpers.CheckoutSwitchOrCreate | accurev2git.py:67-82 | otherwise one checkout is issued, with `isNewBranch` exactly when no branch has that name; the cache becomes the new listing; the first current branch is returned, or the call raises |
| GitHelpers.CheckoutReturnsCurrent | accurev2git.py:51-82 | a returned branch is current and the cache is non-empty; when nothing is issued, the branch asked for is returned |
| GitHelpers.GitCommitBatches | accurev2git.py:315-341 | after the checkout, the add slices carry the add list and the rm slices the rm list, in order; every slice holds 1 to 25 paths; all adds precede all rms; the commit is issued last, once |
| GitHelpers.BatchedPaths | accurev2git.py:322-339 | every path is handed to `git add` or `git rm` in order, whatever the slices answer |
| GitHelpers.BatchedOrder | accurev2git.py:322-341 | slice bounds, adds before rms, and the commit last and only there |
| Metadata.GetGitUserDetails | accurev2git.py:352-358 | no user name gives no details |
| Metadata.GetGitUserDetailsFirstMatch | accurev2git.py:352-358 | the first mapping for the user gives the name and email; with none, both are absent |
| Metadata.AccurevUser2GitAuthor | accurev2git.py:362-368 | the author string ends in `>`; its parts are stated by the two lemmas below |
| Metadata.AuthorOfFirstMatch | accurev2git.py:362-368 | the first entry for the user decides each field on its own: its name or else the AccuRev user name, its email or else `user@no-email.com` |
| Metadata.AuthorOfUnmappedUser | accurev2git.py:362-368 | an unmapped user becomes `user <user@no-email.com>` |
| Metadata.AccurevComment2GitMessage | accurev2git.py:372-377 | the message starts with the comment, or `[no original comment]`, then a blank line, and ends with `[AccuRev Transaction #id]`, with nothing else between |
| Metadata.FindTagIsLeftmostMatch | accurev2git.py:738-739 | `re.search` finds nothing exactly when no position matches, and otherwise reads the leftmost match |
| Metadata.TagReadsBack | accurev2git.py:738-741 | the tag followed by `]` matches and reads back as its id |
| Metadata.MessageTagRoundTrip | accurev2git.py:737-742 | whatever surrounds the commit message, the search reads back the transaction id, provided the text before the tag holds no match |
| Metadata.GetLastConvertedTransaction | accurev2git.py:722-744 | on an initial commit: `int()` of the start transaction, or the exit exactly when there is none or it is not an integer; otherwise: the id of the first tag in the last commit + 1, or none exactly when the last commit has no tag |
| Metadata.ResumeAfterLastConverted | accurev2git.py:734-742 | after a commit made for transaction t, the conversion resumes at t + 1 |
| Metadata.ResumeOnFreshRepository | accurev2git.py:727-730 | on a fresh repository, the configured start transaction is where it starts |
| HistoryWindows.PlanWindows | accurev2git.py:841-849 | the loop queries the windows in order |
| HistoryWindows.WindowsTile | accurev2git.py:841-849 | the first window starts at the resume point and the last stops at the end; consecutive windows leave no gap; all but the last hold exactly 500 transactions and the last at most 501; there are none when the end is not past the resume point |
| HistoryWindows.WindowsDisjoint | accurev2git.py:841-845 | windows never overlap |
| HistoryWindows.WindowsCover | accurev2git.py:841-849 | a transaction is queried exactly when it lies between resume point and end and the end is past the resume point |
| HistoryWindows.StartWindows | accurev2git.py:828-849 | windows are queried only for a resume point; none found aborts with code 1 |
| Dispatch.HandlerFor | accurev2git.py:755 | the promotion handler is chosen exactly for type `promote` |
| Dispatch.HandlerTableShape | accurev2git.py:699 | each of the eleven handlers is registered under exactly one type, and any other type has no handler |
| Promotion.CommitOutcome | accurev2git.py:463-472 | a commit that succeeds is committed; a failed one with `nothing to commit` in its error output counts as success; with other output it returns False; with no error output the script stops; a checkout that raised is passed on |
| Promotion.PromoteGuards | accurev2git.py:415-421 | no versions, no stream, or a stream outside the list each end the promotion with nothing issued; past the guards, the stat query is the first command |
| Promotion.ClassifiedPlanShape | accurev2git.py:427 | past the guards, the outcome is never a guard outcome and the stat query comes first |
| Promotion.ApplyOutcomes | accurev2git.py:429-472 | after classification, the promotion ends in one of: populate failed, empty commit, checkout failed, committed, nothing to commit, commit rejected, commit aborted |
| Promotion.AddListContents | accurev2git.py:429-434 | `addList` holds exactly the local paths of the non-directory members |
| Promotion.DefunctHandling | accurev2git.py:441-448 | `rmList` holds exactly the local paths of defunct versions that are not real directories; each defunct real directory is removed and staged with `git add --update`, and nothing else is issued |
| Promotion.StrandedReachesNeitherList | accurev2git.py:427-448 | a stranded version, not shadowed by a member or defunct version of the same path, appears in neither list |
| Promotion.ApplyPopulateGating | accurev2git.py:429-453 | with members, populate is the first command; populate fails exactly when there are members and it answers false, and then nothing else is issued; the promotion is an empty commit exactly when neither list has an entry |
| Promotion.PopulateOnlyWithMembers | accurev2git.py:430-439 | with no members, no populate is issued |
| Promotion.GitCommitIssuesNoPopulate | accurev2git.py:315-341 | `GitCommit` issues checkouts, slices and the commit only |
| Promotion.GitCommitCommitsOnce | accurev2git.py:315-341 | `GitCommit` commits exactly when the checkout did not raise, and at most once |
| Promotion.ApplyCommitOnce | accurev2git.py:452-472 | the promotion commits exactly when it reached the commit step, and at most once |
| Promotion.PromoteCommitsOnce | accurev2git.py:411-480 | over the whole handler: a commit is issued exactly for the committed, nothing-to-commit, rejected and aborted outcomes, and never twice |
| Replay.TransactionFollowsTable | accurev2git.py:754-759 | each transaction gets its type's handler: no handler is only logged, the other handlers issue nothing and keep the cache |
| Replay.RangeHaltsAtFirstAbort | accurev2git.py:775-776 | the loop processes transactions in order until one halts the script; no earlier one halts; it stops short only after one that halts |
| Replay.RangeFollowsTable | accurev2git.py:775-776 | every processed transaction gets its type's handler |
| Replay.RangeWithoutPromotions | accurev2git.py:773-778 | a range with no promotion issues nothing, keeps the cache and processes every transaction |
| Replay.Converter.constructor | accurev2git.py:50 | the branch cache starts empty (`branchList = None`) and nothing has been issued |
| Replay.Converter.CheckoutBranch | accurev2git.py:51-82 | the loops issue the checkout plan's commands, leave its cache and return its branch or error |
| Replay.Converter.AddInSlices | accurev2git.py:322-329 | the add loop issues one `git add` per slice |
| Replay.Converter.RmInSlices | accurev2git.py:332-339 | the rm loop issues one `git rm` per slice |
| Replay.Converter.AddRmAndCommit | accurev2git.py:319-341 | the slices, then the commit, returning what git answers |
| Replay.Converter.GitCommit | accurev2git.py:315-341 | the checkout of a named branch, then the slices and the commit, exactly as planned |
| Replay.Converter.CollectAddList | accurev2git.py:432-434 | the loop collects `addList` |
| Replay.Converter.RemoveDefunct | accurev2git.py:442-448 | the loop removes defunct real directories and collects `rmList` |
| Replay.Converter.CommitTransaction | accurev2git.py:461-472 | the commit followed by the outcome branch |
| Replay.Converter.ApplySplit | accurev2git.py:429-472 | populate, the two lists and the gated commit, exactly as planned |
| Replay.Converter.AfterClassification | accurev2git.py:427-472 | the stat query, then the rest of the handler only when classification succeeded |
| Replay.Converter.OnPromote | accurev2git.py:411-480 | the handler's commands, new branch cache and outcome are those of the promotion plan |
| Replay.Converter.ProcessAccuRevTransaction | accurev2git.py:754-759 | dispatch through the handler table, exactly as planned |
| Replay.Converter.ProcessAccuRevTransactionRange | accurev2git.py:765-780 | no history gives -1 and nothing issued; otherwise the count is the number of transactions, processed in order with the cache carried along until one halts the script |

## Left out

- XML configuration, the `Config` classes, the logger, argument parsing, `main` and the example configuration: these are plumbing. The stream list and the user mappings are constructor parameters of `Converter`.
- AccuRev, git and subprocess calls: their answers are `Replies` values, and their effects are the `Command` log. The history query of `ProcessAccuRevTransactionRange` is a parameter.
- The `.stat_list` and `.pop_list` files: the model keeps only the decision to use a list file, taken above 25 paths. The paths that would be written are the `paths` of the command.
- `RecursivelyRemoveDir`: its effect on the working tree is the `RemoveTree` command.
- `CatAccurevFile`, `SplitElementsByStatusViaDiff`, `DiffChangeWhatPriority`: they are unused by the promotion path. The diff classifier's call is commented out.
- The handlers other than `OnPromote`, including `OnMove`'s commented-out code: they only log, so they are modelled as `Ignored`.
- `GetStreamNameFromId`, `GetLastCommitHash`, `GetEndTransactionNumber`, `InitGitRepo`, login and logout, and the restart deletion in `Start`: these are external queries or process control. The end transaction is a parameter of the window plan.
- The absolute-path branch of `LocalElementPath`: `OnPromote` always asks for the relative path.
- The AccuRev time-spec string built from the range: a window is modelled by its two ends.
- The `numProcessed` count of `Start` and the window loop's interleaving with the range calls: the windows are planned by `PlanWindows`, and each range by `ProcessAccuRevTransactionRange`.
- Log messages, including the add/rm failure messages: slice results are not modelled, and every slice is issued whatever the one before it answered.
- Exceptions and `sys.exit`: they are halting outcomes (`Aborts`, `Halts`). The run stops at the first one.
  - A missing `lastError` on a failed commit reaches `lastError.output` before `sys.exit`. Either way the script stops, and so does the model.
  - A `None` listing after a checkout raises while iterating, and is modelled as the same error the loop raises when no branch is current.
  - The stat-failure branch formats its message with an undefined name and raises a different exception than written. In the model it is one stat failure.
  - `GetParentPaths` of `None`, and transactions or version lists that are `None`, do not occur in the model: every transaction has a version list, and every path is a depot path. Outside depot paths the source's `GetParentPaths` loop does not end: for a relative path such as `a/b`, or for `/.` itself, the `dirname` chain reaches the empty string or `/` and stays there without meeting `/.`.
- `int()` also accepts non-ASCII digits. `ParseInt` takes ASCII blanks, an optional sign, ASCII blanks again, and ASCII decimal digits.
- `git log` output layout around the message (indentation, hash and date lines): the round trip is stated for any text before and after the message.
