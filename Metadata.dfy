/** Commit metadata: the git author made from an AccuRev user and the user
    map, the commit message tagged with the transaction id, and the resume
    point read back from the repository (`GetLastConvertedTransaction`). */
module Metadata {
  import opened Base
  import opened Text
  import opened Transactions

  // ---------------------------------------------------------------------------
  // Author
  // ---------------------------------------------------------------------------

  /** One `<map-user>` entry of the configuration; any attribute may be absent. */
  datatype UserMap = UserMap(accurevUsername: Option<string>, gitName: Option<string>, gitEmail: Option<string>)

  /** The `(gitName, gitEmail)` pair `GetGitUserDetails` returns. */
  datatype GitUser = GitUser(name: Option<string>, email: Option<string>)

  /** Entry `i` is the first whose AccuRev name is `user`. */
  ghost predicate IsFirstMatch(usermaps: seq<UserMap>, user: string, i: int) {
    && 0 <= i < |usermaps|
    && usermaps[i].accurevUsername == Some(user)
    && forall j :: 0 <= j < i ==> usermaps[j].accurevUsername != Some(user)
  }

  function FirstMatch(user: string, usermaps: seq<UserMap>): GitUser {
    if |usermaps| == 0 then GitUser(None, None)
    else if usermaps[0].accurevUsername == Some(user) then GitUser(usermaps[0].gitName, usermaps[0].gitEmail)
    else FirstMatch(user, usermaps[1..])
  }

  /** `GetGitUserDetails`: the git name and email of the first map entry for
      the user; both absent when there is no user or no entry. */
  function GetGitUserDetails(accurevUsername: Option<string>, usermaps: seq<UserMap>): (r: GitUser)
    ensures accurevUsername.None? ==> r == GitUser(None, None)
  {
    if accurevUsername.None? then GitUser(None, None) else FirstMatch(accurevUsername.value, usermaps)
  }

  /** The lookup answers from the first matching entry and ignores later
      ones; with no matching entry it answers nothing. */
  lemma {:induction false} GetGitUserDetailsFirstMatch(user: string, usermaps: seq<UserMap>)
    ensures forall i :: IsFirstMatch(usermaps, user, i) ==>
      GetGitUserDetails(Some(user), usermaps) == GitUser(usermaps[i].gitName, usermaps[i].gitEmail)
    ensures (forall j :: 0 <= j < |usermaps| ==> usermaps[j].accurevUsername != Some(user)) ==>
      GetGitUserDetails(Some(user), usermaps) == GitUser(None, None)
  {
    if |usermaps| > 0 {
      var rest := usermaps[1..];
      GetGitUserDetailsFirstMatch(user, rest);
      if usermaps[0].accurevUsername != Some(user) {
        forall i | IsFirstMatch(usermaps, user, i) ensures IsFirstMatch(rest, user, i - 1) {
          assert i != 0;
          assert forall j :: 0 <= j < i - 1 ==> rest[j] == usermaps[j + 1];
        }
        assert (forall j :: 0 <= j < |usermaps| ==> usermaps[j].accurevUsername != Some(user)) ==>
          (forall j :: 0 <= j < |rest| ==> rest[j].accurevUsername != Some(user)) by {
          assert forall j :: 0 <= j < |rest| ==> rest[j] == usermaps[j + 1];
        }
      } else {
        forall i | IsFirstMatch(usermaps, user, i) ensures i == 0 {
        }
      }
    }
  }

  /** `AccurevUser2GitAuthor`: "name <email>", where a missing name is the
      AccuRev user name and a missing email is `<user>@no-email.com`. */
  function AccurevUser2GitAuthor(accurevUser: string, usermaps: seq<UserMap>): (r: string)
    ensures |r| > 0 && r[|r| - 1] == '>'
  {
    var details := GetGitUserDetails(Some(accurevUser), usermaps);
    var name := details.name.GetOr(accurevUser);
    var email := details.email.GetOr(accurevUser + "@no-email.com");
    name + " <" + email + ">"
  }

  /** The first matching entry decides the author field by field: its name,
      or the AccuRev user name when it maps none; its email, or
      `<user>@no-email.com` when it maps none. */
  lemma AuthorOfFirstMatch(user: string, usermaps: seq<UserMap>, i: int)
    requires IsFirstMatch(usermaps, user, i)
    ensures AccurevUser2GitAuthor(user, usermaps) ==
      usermaps[i].gitName.GetOr(user) + " <" + usermaps[i].gitEmail.GetOr(user + "@no-email.com") + ">"
  {
    GetGitUserDetailsFirstMatch(user, usermaps);
  }

  /** A user missing from the map gets a made-up identity. */
  lemma AuthorOfUnmappedUser(user: string, usermaps: seq<UserMap>)
    requires forall j :: 0 <= j < |usermaps| ==> usermaps[j].accurevUsername != Some(user)
    ensures AccurevUser2GitAuthor(user, usermaps) == user + " <" + user + "@no-email.com>"
  {
    GetGitUserDetailsFirstMatch(user, usermaps);
  }

  // ---------------------------------------------------------------------------
  // Message and transaction tag
  // ---------------------------------------------------------------------------

  /** What the resume regular expression looks for before the digits. */
  const TagPrefix: string := "AccuRev Transaction #"

  const NoComment: string := "[no original comment]"

  /** `"[AccuRev Transaction #{0}]".format(id)`. */
  function TransactionTag(id: nat): string {
    "[" + TagPrefix + NatToString(id) + "]"
  }

  /** `AccurevComment2GitMessage`: the comment (or a placeholder when there is
      none), a blank line, then the transaction tag. */
  function AccurevComment2GitMessage(t: Transaction): (r: string)
    ensures StartsWith(r, t.comment.GetOr(NoComment))
    ensures |r| >= |TransactionTag(t.id)| && r[|r| - |TransactionTag(t.id)|..] == TransactionTag(t.id)
    ensures |r| == |t.comment.GetOr(NoComment)| + 2 + |TransactionTag(t.id)|
    ensures r[|t.comment.GetOr(NoComment)|..|t.comment.GetOr(NoComment)| + 2] == "\n\n"
  {
    t.comment.GetOr(NoComment) + "\n\n" + TransactionTag(t.id)
  }

  /** The regular expression `AccuRev Transaction #([0-9]+)` matches at the
      start of `s`. */
  predicate TagAt(s: string) {
    |s| > |TagPrefix| && s[..|TagPrefix|] == TagPrefix && IsDigit(s[|TagPrefix|])
  }

  /** `int(group(1))` of a match at the start of `s`: the greedy run of digits. */
  function TagValue(s: string): nat
    requires TagAt(s)
  {
    DigitsValue(LeadingDigits(s[|TagPrefix|..]))
  }

  /** `re.search`: the value of the leftmost match, if any. */
  function FindTag(s: string): Option<nat>
    decreases |s|
  {
    if TagAt(s) then Some(TagValue(s))
    else if |s| == 0 then None
    else FindTag(s[1..])
  }

  /** The search finds nothing exactly when no position matches, and
      otherwise reads the leftmost match. */
  lemma {:induction false} FindTagIsLeftmostMatch(s: string)
    ensures FindTag(s).None? <==> forall k :: 0 <= k < |s| ==> !TagAt(s[k..])
    ensures FindTag(s).Some? ==> exists k :: (0 <= k < |s| && TagAt(s[k..]) &&
      (forall j :: 0 <= j < k ==> !TagAt(s[j..])) && FindTag(s).value == TagValue(s[k..]))
    decreases |s|
  {
    if !TagAt(s) && |s| > 0 {
      var rest := s[1..];
      FindTagIsLeftmostMatch(rest);
      assert FindTag(s) == FindTag(rest);
      assert s[0..] == s;
      if FindTag(s).Some? {
        var k :| 0 <= k < |rest| && TagAt(rest[k..]) &&
          (forall j :: 0 <= j < k ==> !TagAt(rest[j..])) && FindTag(rest).value == TagValue(rest[k..]);
        assert rest[k..] == s[k + 1..];
        forall j | 0 <= j < k + 1 ensures !TagAt(s[j..]) {
          if j > 0 {
            assert s[j..] == rest[j - 1..];
          }
        }
        assert TagAt(s[k + 1..]) && FindTag(s).value == TagValue(s[k + 1..]);
      } else {
        forall k | 0 <= k < |s| ensures !TagAt(s[k..]) {
          if k > 0 {
            assert s[k..] == rest[k - 1..];
          }
        }
      }
    } else if TagAt(s) {
      assert s[0..] == s;
    }
  }

  /** A prefix in which no match starts does not change what is found. */
  lemma {:induction false} FindTagSkipsClean(x: string, y: string)
    requires forall k :: 0 <= k < |x| ==> !TagAt((x + y)[k..])
    ensures FindTag(x + y) == FindTag(y)
    decreases |x|
  {
    if |x| > 0 {
      assert (x + y)[0..] == x + y;
      assert (x + y)[1..] == x[1..] + y;
      forall k | 0 <= k < |x[1..]| ensures !TagAt((x[1..] + y)[k..]) {
        assert (x[1..] + y)[k..] == (x + y)[k + 1..];
      }
      FindTagSkipsClean(x[1..], y);
    } else {
      assert x + y == y;
    }
  }

  /** A tag followed by `]` is matched and read back as its id. */
  lemma TagReadsBack(id: nat, after: string)
    ensures TagAt(TagPrefix + NatToString(id) + "]" + after)
    ensures TagValue(TagPrefix + NatToString(id) + "]" + after) == id
  {
    var d := NatToString(id);
    var s := TagPrefix + d + "]" + after;
    assert s[..|TagPrefix|] == TagPrefix;
    assert s[|TagPrefix|] == d[0];
    assert s[|TagPrefix|..] == d + ("]" + after);
    LeadingDigitsOfDigitsThen(d, "]" + after);
    NatToStringRoundTrip(id);
  }

  /** When none of `head` matches, no match starts in `head` followed by the
      blank line and the `[` that open the tag. */
  lemma NoMatchBeforeTag(head: string, rest: string)
    requires forall k :: 0 <= k < |head| ==> !TagAt(head[k..])
    ensures forall k :: 0 <= k < |head + "\n\n["| ==> !TagAt((head + "\n\n[" + rest)[k..])
  {
    var s := head + "\n\n[" + rest;
    var n := |TagPrefix|;
    forall k | 0 <= k < |head + "\n\n["| ensures !TagAt(s[k..]) {
      var u := s[k..];
      if k >= |head| {
        assert u[0] == '\n' || u[0] == '[';
        assert TagPrefix[0] == 'A';
      } else if k + n < |head| {
        var w := head[k..];
        assert |w| > n;
        assert u[..n] == w[..n] && u[n] == w[n];
        assert !TagAt(w);
      } else {
        var idx := |head| - k;
        assert u[idx] == '\n';
        if idx < n && |u| > n {
          assert TagPrefix[idx] != '\n';
          assert u[..n][idx] == '\n';
        }
      }
    }
  }

  /** How the message text regroups around the start of the tag body. */
  lemma MessageSplits<T>(b: seq<T>, c: seq<T>, nl: seq<T>, o: seq<T>, p: seq<T>, d: seq<T>, cl: seq<T>, a: seq<T>)
    ensures b + (c + nl + (o + p + d + cl)) + a == (b + c + (nl + o)) + (p + d + cl + a)
  {
  }

  /** Message tag round-trip: whatever precedes and follows the commit
      message, the search reads back the transaction id, provided the text
      before the tag (including the original comment) holds no match. */
  lemma MessageTagRoundTrip(before: string, t: Transaction, after: string)
    requires FindTag(before + t.comment.GetOr(NoComment)) == None
    ensures FindTag(before + AccurevComment2GitMessage(t) + after) == Some(t.id)
  {
    var comment := t.comment.GetOr(NoComment);
    var head := before + comment;
    var digits := NatToString(t.id);
    var rest := TagPrefix + digits + "]" + after;
    FindTagIsLeftmostMatch(head);
    NoMatchBeforeTag(head, rest);
    MessageSplits(before, comment, "\n\n", "[", TagPrefix, digits, "]", after);
    assert "\n\n" + "[" == "\n\n[";
    assert before + AccurevComment2GitMessage(t) + after == (head + "\n\n[") + rest;
    FindTagSkipsClean(head + "\n\n[", rest);
    TagReadsBack(t.id, after);
    assert TagAt(rest);
  }

  // ---------------------------------------------------------------------------
  // Resume point
  // ---------------------------------------------------------------------------

  /** What `GetLastConvertedTransaction` answers: the transaction to continue
      from; `None` (no tag in the last commit); or the abort taken when the
      configured start transaction is not an integer. */
  datatype ResumePoint = ContinueFrom(id: int) | Undetermined | BadStartTransaction

  const InitialCommitMarker: string := "Initial commit"

  /** `GetLastConvertedTransaction`, given the `git status` text, the
      `git log -1` text and the configured start transaction. */
  function GetLastConvertedTransaction(status: string, lastCommit: string, startTransaction: Option<string>): (r: ResumePoint)
    ensures Contains(status, InitialCommitMarker) ==> r != Undetermined
    ensures Contains(status, InitialCommitMarker) ==>
      (r == BadStartTransaction <==> startTransaction.None? || ParseInt(startTransaction.value).None?)
    ensures !Contains(status, InitialCommitMarker) ==> r != BadStartTransaction
    ensures !Contains(status, InitialCommitMarker) ==> (r == Undetermined <==> FindTag(lastCommit).None?)
    ensures !Contains(status, InitialCommitMarker) && r.ContinueFrom? ==> r.id >= 1
    ensures Contains(status, InitialCommitMarker) && startTransaction.Some? && ParseInt(startTransaction.value).Some? ==>
      r == ContinueFrom(ParseInt(startTransaction.value).value)
    ensures !Contains(status, InitialCommitMarker) && FindTag(lastCommit).Some? ==>
      r == ContinueFrom(FindTag(lastCommit).value + 1)
  {
    if Contains(status, InitialCommitMarker) then
      if startTransaction.None? then BadStartTransaction
      else
        match ParseInt(startTransaction.value)
        case Some(n) => ContinueFrom(n)
        case None => BadStartTransaction
    else
      match FindTag(lastCommit)
      case Some(id) => ContinueFrom(id + 1)
      case None => Undetermined
  }

  /** On a repository whose last commit replayed transaction `t`, the
      conversion resumes at the next transaction. */
  lemma ResumeAfterLastConverted(status: string, before: string, t: Transaction, after: string, start: Option<string>)
    requires !Contains(status, InitialCommitMarker)
    requires FindTag(before + t.comment.GetOr(NoComment)) == None
    ensures GetLastConvertedTransaction(status, before + AccurevComment2GitMessage(t) + after, start) == ContinueFrom(t.id + 1)
  {
    MessageTagRoundTrip(before, t, after);
  }

  /** On a fresh repository the conversion starts at the configured start
      transaction. */
  lemma ResumeOnFreshRepository(status: string, lastCommit: string, n: nat)
    requires Contains(status, InitialCommitMarker)
    ensures GetLastConvertedTransaction(status, lastCommit, Some(NatToString(n))) == ContinueFrom(n)
  {
    ParseIntOfNatToString(n);
  }
}
