/** The history windows of `Start`: the range from the resume point to the
    end transaction is queried `maxTransactions` transactions at a time. */
module HistoryWindows {
  import opened Metadata

  /** `maxTransactions`: the most transactions one history query asks for. */
  const MaxTransactions: int := 500

  /** One `ProcessAccuRevTransactionRange(start, stop)` call: the inclusive
      transaction range `start-stop` given to the history query. */
  datatype Window = Window(start: int, stop: int)

  /** The windows the loop in `Start` queries, in order: full windows of
      MaxTransactions while more than that remain past `c`, then the rest up
      to `end` when anything remains past `c`. */
  function Windows(c: int, end: int): seq<Window>
    decreases end - c
  {
    if end - c > MaxTransactions then [Window(c, c + MaxTransactions - 1)] + Windows(c + MaxTransactions, end)
    else if end - c > 0 then [Window(c, end)]
    else []
  }

  /** The loop itself: `stopAtTransaction = continueFromTransaction +
      maxTransactions - 1`, then `continueFromTransaction += maxTransactions`,
      then the final window when `endTransaction - continueFromTransaction > 0`. */
  method PlanWindows(continueFromTransaction: int, endTransaction: int) returns (windows: seq<Window>)
    ensures windows == Windows(continueFromTransaction, endTransaction)
  {
    windows := [];
    var c := continueFromTransaction;
    while endTransaction - c > MaxTransactions
      invariant windows + Windows(c, endTransaction) == Windows(continueFromTransaction, endTransaction)
      decreases endTransaction - c
    {
      var stopAtTransaction := c + MaxTransactions - 1;
      assert Windows(c, endTransaction) == [Window(c, stopAtTransaction)] + Windows(c + MaxTransactions, endTransaction);
      windows := windows + [Window(c, stopAtTransaction)];
      c := c + MaxTransactions;
    }
    if endTransaction - c > 0 {
      windows := windows + [Window(c, endTransaction)];
    } else {
      assert windows + [] == windows;
    }
  }

  /** The windows tile the range: the first starts at the resume point, each
      next one starts right after the one before, the last stops at the end
      transaction, every window but the last holds exactly MaxTransactions
      transactions and the last at most one more; there are none when the end
      is not past the resume point. */
  lemma {:induction false} WindowsTile(c: int, end: int)
    ensures var w := Windows(c, end);
      && (|w| == 0 <==> end <= c)
      && (|w| > 0 ==> w[0].start == c && w[|w| - 1].stop == end)
      && (forall i :: 0 <= i < |w| ==> w[i].start <= w[i].stop <= w[i].start + MaxTransactions)
      && (forall i :: 0 <= i < |w| - 1 ==> w[i].stop - w[i].start + 1 == MaxTransactions)
      && (forall i :: 0 <= i < |w| - 1 ==> w[i + 1].start == w[i].stop + 1)
    decreases end - c
  {
    if end - c > MaxTransactions {
      var w := Windows(c, end);
      var rest := Windows(c + MaxTransactions, end);
      WindowsTile(c + MaxTransactions, end);
      assert w == [Window(c, c + MaxTransactions - 1)] + rest;
      assert forall i :: 0 < i < |w| ==> w[i] == rest[i - 1];
    }
  }

  /** The windows never overlap. */
  lemma WindowsDisjoint(c: int, end: int)
    ensures var w := Windows(c, end);
      forall i, j :: 0 <= i < j < |w| ==> w[i].stop < w[j].start
  {
    var w := Windows(c, end);
    WindowsTile(c, end);
    forall i, j | 0 <= i < j < |w| ensures w[i].stop < w[j].start {
      WindowsIncrease(w, i, j);
    }
  }

  lemma {:induction false} WindowsIncrease(w: seq<Window>, i: int, j: int)
    requires forall k :: 0 <= k < |w| ==> w[k].start <= w[k].stop
    requires forall k :: 0 <= k < |w| - 1 ==> w[k + 1].start == w[k].stop + 1
    requires 0 <= i < j < |w|
    ensures w[i].stop < w[j].start
    decreases j - i
  {
    if j > i + 1 {
      WindowsIncrease(w, i, j - 1);
    }
  }

  /** Transaction `t` lies in one of the windows. */
  predicate Queried(w: seq<Window>, t: int) {
    exists i :: 0 <= i < |w| && w[i].start <= t <= w[i].stop
  }

  /** Coverage: a transaction is queried by some window exactly when it lies
      in `[c, end]` and `end` is past `c`; in particular, when the end
      transaction equals the resume point nothing is queried. */
  lemma {:induction false} WindowsCover(c: int, end: int, t: int)
    ensures Queried(Windows(c, end), t) <==> c <= t <= end && c < end
    decreases end - c
  {
    var w := Windows(c, end);
    if end - c > MaxTransactions {
      var rest := Windows(c + MaxTransactions, end);
      WindowsCover(c + MaxTransactions, end, t);
      assert w == [Window(c, c + MaxTransactions - 1)] + rest;
      if t >= c + MaxTransactions && t <= end {
        var i :| 0 <= i < |rest| && rest[i].start <= t <= rest[i].stop;
        assert w[i + 1] == rest[i];
        assert Queried(w, t);
      }
      if t <= c + MaxTransactions - 1 && t >= c {
        assert w[0].start <= t <= w[0].stop;
        assert Queried(w, t);
      }
      if Queried(w, t) {
        var i :| 0 <= i < |w| && w[i].start <= t <= w[i].stop;
        if i > 0 {
          assert w[i] == rest[i - 1];
          assert Queried(rest, t);
        }
      }
    } else if end - c > 0 {
      assert w == [Window(c, end)];
      if c <= t <= end {
        assert w[0].start <= t <= w[0].stop;
        assert Queried(w, t);
      }
    } else {
      assert w == [];
    }
  }

  /** What `Start` does with the resume point: no tag found means the
      conversion is aborted with exit code 1 before any query; a bad start
      transaction has already exited; otherwise the windows are queried. */
  datatype StartPlan = QueryWindows(windows: seq<Window>) | CannotContinue | StartAborted

  function StartWindows(resume: ResumePoint, endTransaction: int): (r: StartPlan)
    ensures r.QueryWindows? <==> resume.ContinueFrom?
    ensures resume.ContinueFrom? ==> r.windows == Windows(resume.id, endTransaction)
    ensures resume == Undetermined <==> r == CannotContinue
  {
    match resume
    case ContinueFrom(c) => QueryWindows(Windows(c, endTransaction))
    case Undetermined => CannotContinue
    case BadStartTransaction => StartAborted
  }
}
