/** `SplitElementsByStatusViaStat`: which versions of a promotion are live
    members, which are defunct, and which are stranded under a defunct
    directory, decided from one AccuRev stat query over the versions and all
    their ancestor directories. */
module Classifier {
  import opened Base
  import opened Text
  import opened DepotPaths
  import opened Transactions
  import opened Chunking

  /** One element of the stat result: its location and its status text, such
      as "(backed)(defunct)". */
  datatype StatEntry = StatEntry(location: string, statusList: string)

  datatype Status = Member | Defunct | Stranded

  /** The three version lists the classifier returns, each in history order. */
  datatype Split = Split(member: seq<Version>, defunct: seq<Version>, stranded: seq<Version>)

  /** What `SplitElementsByStatusViaStat` gives back: the three lists; the
      two-element `([], [])` returned when there is nothing to query; or one of
      the exceptions it raises (the stat query failed, or a queried path has
      no status). */
  datatype StatOutcome =
    | Classified(split: Split)
    | NothingToQuery
    | StatFailed
    | StatusMissing(path: string)

  /** The stat call issued: the paths queried, and whether they went through
      the `.stat_list` file rather than the command line. */
  datatype StatQuery = StatQuery(paths: seq<string>, listFile: bool)

  predicate NoDuplicates(s: seq<string>) {
    forall i, j :: 0 <= i < j < |s| ==> s[i] != s[j]
  }

  // ---------------------------------------------------------------------------
  // The query list
  // ---------------------------------------------------------------------------

  /** Appends, in order, each of `xs` that is not yet in the list
      (`if parent not in dirList: dirList.append(parent)`). */
  function AppendNew(acc: seq<string>, xs: seq<string>): seq<string> {
    if |xs| == 0 then acc
    else
      var a := AppendNew(acc, xs[..|xs| - 1]);
      if xs[|xs| - 1] in a then a else a + [xs[|xs| - 1]]
  }

  /** `dirList`: the ancestors of every version, each listed once, in order of
      first appearance. */
  function DirList(vs: seq<Version>): seq<string>
    requires WellFormedVersions(vs)
  {
    if |vs| == 0 then []
    else AppendNew(DirList(vs[..|vs| - 1]), Ancestors(vs[|vs| - 1].path))
  }

  /** `fullList = dirList + elemList`. */
  function QueryList(vs: seq<Version>): seq<string>
    requires WellFormedVersions(vs)
  {
    DirList(vs) + Paths(vs)
  }

  lemma {:induction false} AppendNewKeepsDistinct(acc: seq<string>, xs: seq<string>)
    requires NoDuplicates(acc)
    ensures NoDuplicates(AppendNew(acc, xs))
    ensures forall q :: q in AppendNew(acc, xs) <==> q in acc || q in xs
  {
    if |xs| > 0 {
      var init := xs[..|xs| - 1];
      AppendNewKeepsDistinct(acc, init);
      assert xs == init + [xs[|xs| - 1]];
    }
  }

  /** `dirList` lists every ancestor of every version exactly once, and nothing else. */
  lemma {:induction false} DirListIsDistinctAncestors(vs: seq<Version>)
    requires WellFormedVersions(vs)
    ensures NoDuplicates(DirList(vs))
    ensures forall q :: q in DirList(vs) <==> exists i :: 0 <= i < |vs| && q in Ancestors(vs[i].path)
  {
    if |vs| > 0 {
      var init := vs[..|vs| - 1];
      var last := vs[|vs| - 1];
      assert WellFormedVersions(init) by {
        forall i | 0 <= i < |init| ensures IsDepotPath(init[i].path) {
          assert init[i] == vs[i];
        }
      }
      DirListIsDistinctAncestors(init);
      AppendNewKeepsDistinct(DirList(init), Ancestors(last.path));
      assert DirList(vs) == AppendNew(DirList(init), Ancestors(last.path));
      forall q ensures q in DirList(vs) <==> AncestorOfSome(vs, q) {
        AncestorsOfLastStep(vs, q);
      }
    }
  }

  /** `q` contains one of the versions. */
  ghost predicate AncestorOfSome(vs: seq<Version>, q: string)
    requires WellFormedVersions(vs)
  {
    exists i :: 0 <= i < |vs| && q in Ancestors(vs[i].path)
  }

  /** A path contains some version exactly when it contains an earlier one
      or the last. */
  lemma AncestorsOfLastStep(vs: seq<Version>, q: string)
    requires WellFormedVersions(vs) && |vs| > 0
    ensures WellFormedVersions(vs[..|vs| - 1])
    ensures AncestorOfSome(vs, q) <==> AncestorOfSome(vs[..|vs| - 1], q) || q in Ancestors(vs[|vs| - 1].path)
  {
    WellFormedPrefix(vs, |vs| - 1);
    AncestorOfSomeSplits(vs, q);
    AncestorOfSomeFromPrefix(vs, q);
    if q in Ancestors(vs[|vs| - 1].path) {
      assert AncestorOfSome(vs, q);
    }
  }

  lemma AncestorOfSomeSplits(vs: seq<Version>, q: string)
    requires WellFormedVersions(vs) && |vs| > 0
    requires WellFormedVersions(vs[..|vs| - 1])
    ensures AncestorOfSome(vs, q) ==> AncestorOfSome(vs[..|vs| - 1], q) || q in Ancestors(vs[|vs| - 1].path)
  {
    var init := vs[..|vs| - 1];
    if AncestorOfSome(vs, q) {
      var i :| 0 <= i < |vs| && q in Ancestors(vs[i].path);
      if i < |vs| - 1 {
        assert init[i] == vs[i];
        assert AncestorOfSome(init, q);
      }
    }
  }

  lemma AncestorOfSomeFromPrefix(vs: seq<Version>, q: string)
    requires WellFormedVersions(vs) && |vs| > 0
    requires WellFormedVersions(vs[..|vs| - 1])
    ensures AncestorOfSome(vs[..|vs| - 1], q) ==> AncestorOfSome(vs, q)
  {
    var init := vs[..|vs| - 1];
    if AncestorOfSome(init, q) {
      var i :| 0 <= i < |init| && q in Ancestors(init[i].path);
      assert init[i] == vs[i];
      assert AncestorOfSome(vs, q);
    }
  }

  /** The stat query list: each distinct ancestor directory once, then every
      version path in version order; it is empty only for an empty transaction. */
  lemma QueryListShape(vs: seq<Version>)
    requires WellFormedVersions(vs)
    ensures var q := QueryList(vs);
      && q == DirList(vs) + Paths(vs)
      && NoDuplicates(q[..|DirList(vs)|])
      && (forall d :: d in q[..|DirList(vs)|] <==> exists i :: 0 <= i < |vs| && d in Ancestors(vs[i].path))
      && q[|DirList(vs)|..] == Paths(vs)
      && (|q| == 0 <==> |vs| == 0)
  {
    DirListIsDistinctAncestors(vs);
    var q := QueryList(vs);
    assert q[..|DirList(vs)|] == DirList(vs);
  }

  /** One step of `dirList`: the last version's ancestors are merged in. */
  lemma DirListStep(vs: seq<Version>, n: nat)
    requires WellFormedVersions(vs) && n < |vs|
    ensures WellFormedVersions(vs[..n]) && WellFormedVersions(vs[..n + 1])
    ensures DirList(vs[..n + 1]) == AppendNew(DirList(vs[..n]), Ancestors(vs[n].path))
  {
    WellFormedPrefix(vs, n);
    WellFormedPrefix(vs, n + 1);
    assert vs[..n + 1][..n] == vs[..n];
  }

  lemma PathsStep(vs: seq<Version>, n: nat)
    requires n < |vs|
    ensures Paths(vs[..n + 1]) == Paths(vs[..n]) + [vs[n].path]
  {
  }

  /** The inner loop over one version's parents. */
  method AppendNewParents(dirList: seq<string>, elemParents: seq<string>) returns (merged: seq<string>)
    ensures merged == AppendNew(dirList, elemParents)
  {
    merged := dirList;
    var j := 0;
    while j < |elemParents|
      invariant 0 <= j <= |elemParents|
      invariant merged == AppendNew(dirList, elemParents[..j])
    {
      var parent := elemParents[j];
      assert elemParents[..j + 1][..j] == elemParents[..j];
      if parent !in merged {
        merged := merged + [parent];
      }
      j := j + 1;
    }
    assert elemParents[..j] == elemParents;
  }

  /** One pass of the version loop: version `i`'s path is appended to
      `elemList` and each of its ancestors not yet listed to `dirList`. */
  method AddVersion(versions: seq<Version>, i: nat, dirList: seq<string>, elemList: seq<string>)
      returns (dirList': seq<string>, elemList': seq<string>)
    requires WellFormedVersions(versions) && i < |versions|
    requires WellFormedVersions(versions[..i])
    requires dirList == DirList(versions[..i]) && elemList == Paths(versions[..i])
    ensures WellFormedVersions(versions[..i + 1])
    ensures dirList' == DirList(versions[..i + 1]) && elemList' == Paths(versions[..i + 1])
  {
    var version := versions[i];
    PathsStep(versions, i);
    elemList' := elemList + [version.path];
    var elemParents := GetParentPaths(version.path);
    DirListStep(versions, i);
    dirList' := AppendNewParents(dirList, elemParents);
  }

  /** `dirList`/`elemList` construction: for each version, its path is
      appended to `elemList` and each of its ancestors not yet listed to
      `dirList`; the query list is `dirList + elemList`. */
  method BuildQueryList(versions: seq<Version>) returns (fullList: seq<string>)
    requires WellFormedVersions(versions)
    ensures fullList == QueryList(versions)
  {
    var dirList: seq<string> := [];
    var elemList: seq<string> := [];
    var i := 0;
    while i < |versions|
      invariant 0 <= i <= |versions|
      invariant WellFormedVersions(versions[..i])
      invariant dirList == DirList(versions[..i])
      invariant elemList == Paths(versions[..i])
    {
      dirList, elemList := AddVersion(versions, i, dirList, elemList);
      i := i + 1;
    }
    assert versions[..i] == versions;
    fullList := dirList + elemList;
  }

  // ---------------------------------------------------------------------------
  // The status map
  // ---------------------------------------------------------------------------

  /** `"(defunct)" in infoElem.statusList`. */
  predicate IsDefunctStatus(statusList: string) {
    Contains(statusList, "(defunct)")
  }

  /** `infoDict`: normalised location to "is defunct"; a later entry for the
      same location overwrites an earlier one. */
  function StatusMap(info: seq<StatEntry>): map<string, bool> {
    if |info| == 0 then map[]
    else
      var last := info[|info| - 1];
      StatusMap(info[..|info| - 1])[Slashed(last.location) := IsDefunctStatus(last.statusList)]
  }

  /** A key is in the map exactly when some entry has that normalised
      location. */
  lemma {:induction false} StatusMapKeys(info: seq<StatEntry>)
    ensures forall k :: k in StatusMap(info) <==> exists i :: 0 <= i < |info| && Slashed(info[i].location) == k
  {
    if |info| > 0 {
      var init := info[..|info| - 1];
      StatusMapKeys(init);
      forall k ensures k in StatusMap(info) <==> exists i :: 0 <= i < |info| && Slashed(info[i].location) == k {
        if k in StatusMap(init) {
          var i :| 0 <= i < |init| && Slashed(init[i].location) == k;
          assert info[i] == init[i];
        }
        if exists i :: 0 <= i < |info| - 1 && Slashed(info[i].location) == k {
          var i :| 0 <= i < |info| - 1 && Slashed(info[i].location) == k;
          assert init[i] == info[i];
        }
      }
    }
  }

  /** Entry `i` has the last say on its location: when no later entry has the
      same normalised location, the map holds entry `i`'s status. */
  predicate LastForLocation(info: seq<StatEntry>, i: int) {
    0 <= i < |info| && forall j :: i < j < |info| ==> Slashed(info[j].location) != Slashed(info[i].location)
  }

  lemma {:induction false} StatusMapLastEntry(info: seq<StatEntry>)
    ensures forall i :: LastForLocation(info, i) ==>
      Slashed(info[i].location) in StatusMap(info) &&
      StatusMap(info)[Slashed(info[i].location)] == IsDefunctStatus(info[i].statusList)
  {
    if |info| > 0 {
      var init := info[..|info| - 1];
      StatusMapLastEntry(init);
      forall i | LastForLocation(info, i)
        ensures Slashed(info[i].location) in StatusMap(info) &&
          StatusMap(info)[Slashed(info[i].location)] == IsDefunctStatus(info[i].statusList)
      {
        if i < |info| - 1 {
          assert init[i] == info[i];
          assert Slashed(info[|info| - 1].location) != Slashed(info[i].location);
          forall j | i < j < |init| ensures Slashed(init[j].location) != Slashed(init[i].location) {
            assert init[j] == info[j];
          }
          assert LastForLocation(init, i);
        }
      }
    }
  }

  /** The loop that fills `infoDict` from the stat result. */
  method BuildStatusMap(info: seq<StatEntry>) returns (infoDict: map<string, bool>)
    ensures infoDict == StatusMap(info)
  {
    infoDict := map[];
    var i := 0;
    while i < |info|
      invariant 0 <= i <= |info|
      invariant infoDict == StatusMap(info[..i])
    {
      var infoLoc := Slashed(info[i].location);
      infoDict := infoDict[infoLoc := IsDefunctStatus(info[i].statusList)];
      assert info[..i + 1][..i] == info[..i];
      i := i + 1;
    }
    assert info[..i] == info;
  }

  // ---------------------------------------------------------------------------
  // Classification of one version
  // ---------------------------------------------------------------------------

  /** The parent loop: the normalised key of each parent in turn; a missing
      key raises, the first defunct parent ends the scan with "stranded". */
  function ParentScan(parents: seq<string>, dict: map<string, bool>): Result<bool, string> {
    if |parents| == 0 then Success(false)
    else
      var key := Slashed(parents[0]);
      if key !in dict then Failure(key)
      else if dict[key] then Success(true)
      else ParentScan(parents[1..], dict)
  }

  /** Parent `i` is the first defunct one and every parent before it has a
      live status. */
  ghost predicate FirstDefunctParent(parents: seq<string>, dict: map<string, bool>, i: int) {
    && 0 <= i < |parents|
    && Slashed(parents[i]) in dict && dict[Slashed(parents[i])]
    && forall j :: 0 <= j < i ==> Slashed(parents[j]) in dict && !dict[Slashed(parents[j])]
  }

  /** Parent `i` is the first with no status and every parent before it has a
      live status. */
  ghost predicate FirstMissingParent(parents: seq<string>, dict: map<string, bool>, i: int) {
    && 0 <= i < |parents|
    && Slashed(parents[i]) !in dict
    && forall j :: 0 <= j < i ==> Slashed(parents[j]) in dict && !dict[Slashed(parents[j])]
  }

  /** Past a live first parent, the scan's witnesses shift by one. */
  lemma LiveParentShifts(parents: seq<string>, dict: map<string, bool>)
    requires |parents| > 0 && Slashed(parents[0]) in dict && !dict[Slashed(parents[0])]
    ensures forall i :: FirstDefunctParent(parents[1..], dict, i) ==> FirstDefunctParent(parents, dict, i + 1)
    ensures forall i :: FirstDefunctParent(parents, dict, i) ==> FirstDefunctParent(parents[1..], dict, i - 1)
    ensures forall i :: FirstMissingParent(parents[1..], dict, i) ==> FirstMissingParent(parents, dict, i + 1)
    ensures forall i :: FirstMissingParent(parents, dict, i) ==>
      FirstMissingParent(parents[1..], dict, i - 1) && parents[i] == parents[1..][i - 1]
    ensures (forall j :: 0 <= j < |parents| ==> Slashed(parents[j]) in dict && !dict[Slashed(parents[j])]) <==>
      (forall j :: 0 <= j < |parents[1..]| ==> Slashed(parents[1..][j]) in dict && !dict[Slashed(parents[1..][j])])
  {
    var rest := parents[1..];
    forall i | FirstDefunctParent(rest, dict, i) ensures FirstDefunctParent(parents, dict, i + 1) {
      assert forall j :: 0 < j <= i ==> parents[j] == rest[j - 1];
    }
    forall i | FirstDefunctParent(parents, dict, i) ensures FirstDefunctParent(rest, dict, i - 1) {
      assert i != 0;
      assert forall j :: 0 <= j < i - 1 ==> rest[j] == parents[j + 1];
    }
    forall i | FirstMissingParent(rest, dict, i) ensures FirstMissingParent(parents, dict, i + 1) {
      assert forall j :: 0 < j <= i ==> parents[j] == rest[j - 1];
    }
    forall i | FirstMissingParent(parents, dict, i)
      ensures FirstMissingParent(rest, dict, i - 1) && parents[i] == rest[i - 1]
    {
      assert i != 0;
      assert forall j :: 0 <= j < i - 1 ==> rest[j] == parents[j + 1];
    }
    assert forall j :: 0 < j < |parents| ==> parents[j] == rest[j - 1];
  }

  /** The three outcomes of the parent scan, each stated without the scan. */
  lemma {:induction false} ParentScanOutcomes(parents: seq<string>, dict: map<string, bool>)
    ensures ParentScan(parents, dict) == Success(true) <==> exists i :: FirstDefunctParent(parents, dict, i)
    ensures ParentScan(parents, dict) == Success(false) <==>
      forall j :: 0 <= j < |parents| ==> Slashed(parents[j]) in dict && !dict[Slashed(parents[j])]
    ensures forall k :: ParentScan(parents, dict) == Failure(k) <==>
      exists i :: FirstMissingParent(parents, dict, i) && k == Slashed(parents[i])
  {
    if |parents| > 0 {
      var rest := parents[1..];
      ParentScanOutcomes(rest, dict);
      var key := Slashed(parents[0]);
      if key in dict && !dict[key] {
        assert ParentScan(parents, dict) == ParentScan(rest, dict);
        LiveParentShifts(parents, dict);
      } else if key in dict {
        assert FirstDefunctParent(parents, dict, 0);
        forall i ensures !FirstMissingParent(parents, dict, i) {
        }
      } else {
        assert FirstMissingParent(parents, dict, 0);
        forall i ensures !FirstDefunctParent(parents, dict, i) {
        }
        forall i | FirstMissingParent(parents, dict, i) ensures i == 0 {
        }
      }
    }
  }

  /** The status of one version: defunct when its own status says so; else
      stranded when the parent scan meets a defunct parent; else member. */
  function Classify(v: Version, dict: map<string, bool>): Result<Status, string>
    requires IsDepotPath(v.path)
  {
    var key := Slashed(v.path);
    if key !in dict then Failure(key)
    else if dict[key] then Success(Defunct)
    else
      match ParentScan(Ancestors(v.path), dict)
      case Failure(k) => Failure(k)
      case Success(stranded) => Success(if stranded then Stranded else Member)
  }

  /** The classification rules, each as an equivalence: defunct exactly when
      the element's own status is defunct; stranded exactly when it is not but
      a parent is, with no parent missing before the first defunct one; member
      exactly when it and all its parents are live; and an error exactly when
      the element's status, or a parent's before the first defunct parent, is
      missing. */
  lemma ClassifyRules(v: Version, dict: map<string, bool>)
    requires IsDepotPath(v.path)
    ensures var key := Slashed(v.path); var parents := Ancestors(v.path);
      && (Classify(v, dict) == Success(Defunct) <==> key in dict && dict[key])
      && (Classify(v, dict) == Success(Stranded) <==>
            key in dict && !dict[key] && exists i :: FirstDefunctParent(parents, dict, i))
      && (Classify(v, dict) == Success(Member) <==>
            key in dict && !dict[key] &&
            forall j :: 0 <= j < |parents| ==> Slashed(parents[j]) in dict && !dict[Slashed(parents[j])])
      && (Classify(v, dict).Failure? <==>
            key !in dict || (!dict[key] && exists i :: FirstMissingParent(parents, dict, i)))
  {
    var key := Slashed(v.path);
    var parents := Ancestors(v.path);
    ParentScanOutcomes(parents, dict);
    if key in dict && !dict[key] {
      var scan := ParentScan(parents, dict);
      assert Classify(v, dict) == (match scan
        case Failure(k) => Failure(k)
        case Success(stranded) => Success(if stranded then Stranded else Member));
      if scan.Failure? {
        assert scan == Failure(scan.error);
        assert exists i :: FirstMissingParent(parents, dict, i);
      } else if scan.value {
        assert scan == Success(true);
      } else {
        assert scan == Success(false);
        assert forall i :: !FirstMissingParent(parents, dict, i);
      }
    }
  }

  /** With every queried path present in the result, no version raises, and a
      live version is stranded exactly when some ancestor is defunct. */
  lemma ClassifyWithCompleteStatus(v: Version, dict: map<string, bool>)
    requires IsDepotPath(v.path)
    requires Slashed(v.path) in dict
    requires forall q :: q in Ancestors(v.path) ==> Slashed(q) in dict
    ensures Classify(v, dict).Success?
    ensures Classify(v, dict) == Success(Stranded) <==>
      !dict[Slashed(v.path)] && exists q :: q in Ancestors(v.path) && dict[Slashed(q)]
  {
    var parents := Ancestors(v.path);
    ParentScanOutcomes(parents, dict);
    if !dict[Slashed(v.path)] && exists q :: q in parents && dict[Slashed(q)] {
      var i :| 0 <= i < |parents| && dict[Slashed(parents[i])];
      FirstDefunctExists(parents, dict, i);
    }
    forall i ensures !FirstMissingParent(parents, dict, i) {
      if 0 <= i < |parents| {
        assert parents[i] in parents;
      }
    }
  }

  /** When parent `i` is defunct and every parent has a status, some parent
      at or before `i` is the first defunct one. */
  lemma {:induction false} FirstDefunctExists(parents: seq<string>, dict: map<string, bool>, i: int)
    requires 0 <= i < |parents|
    requires forall j :: 0 <= j < |parents| ==> Slashed(parents[j]) in dict
    requires dict[Slashed(parents[i])]
    ensures exists k :: FirstDefunctParent(parents, dict, k)
    decreases i
  {
    if exists j :: 0 <= j < i && dict[Slashed(parents[j])] {
      var j :| 0 <= j < i && dict[Slashed(parents[j])];
      FirstDefunctExists(parents, dict, j);
    } else {
      assert FirstDefunctParent(parents, dict, i);
    }
  }

  // ---------------------------------------------------------------------------
  // Classification of a whole transaction
  // ---------------------------------------------------------------------------

  function Place(s: Split, v: Version, st: Status): Split {
    match st
    case Member => s.(member := s.member + [v])
    case Defunct => s.(defunct := s.defunct + [v])
    case Stranded => s.(stranded := s.stranded + [v])
  }

  /** The classification loop: versions in order, each appended to its list;
      the first version that raises ends it with that error. */
  function Partition(vs: seq<Version>, dict: map<string, bool>): Result<Split, string>
    requires WellFormedVersions(vs)
  {
    if |vs| == 0 then Success(Split([], [], []))
    else
      var init := vs[..|vs| - 1];
      assert WellFormedVersions(init) by {
        forall i | 0 <= i < |init| ensures IsDepotPath(init[i].path) {
          assert init[i] == vs[i];
        }
      }
      match Partition(init, dict)
      case Failure(e) => Failure(e)
      case Success(s) =>
        match Classify(vs[|vs| - 1], dict)
        case Failure(e) => Failure(e)
        case Success(st) => Success(Place(s, vs[|vs| - 1], st))
  }

  /** Reference definition: the versions of status `st`, in their original order. */
  function Select(vs: seq<Version>, dict: map<string, bool>, st: Status): seq<Version>
    requires WellFormedVersions(vs)
  {
    if |vs| == 0 then []
    else
      var init := vs[..|vs| - 1];
      assert WellFormedVersions(init) by {
        forall i | 0 <= i < |init| ensures IsDepotPath(init[i].path) {
          assert init[i] == vs[i];
        }
      }
      Select(init, dict, st) + (if Classify(vs[|vs| - 1], dict) == Success(st) then [vs[|vs| - 1]] else [])
  }

  lemma WellFormedPrefix(vs: seq<Version>, n: nat)
    requires WellFormedVersions(vs) && n <= |vs|
    ensures WellFormedVersions(vs[..n])
  {
    forall i | 0 <= i < n ensures IsDepotPath(vs[..n][i].path) {
      assert vs[..n][i] == vs[i];
    }
  }

  /** No version of `vs` raises. */
  ghost predicate AllClassified(vs: seq<Version>, dict: map<string, bool>)
    requires WellFormedVersions(vs)
  {
    forall i :: 0 <= i < |vs| ==> Classify(vs[i], dict).Success?
  }

  /** Version `i` is the first one that raises, and it raises `k`. */
  ghost predicate FirstError(vs: seq<Version>, dict: map<string, bool>, i: int, k: string)
    requires WellFormedVersions(vs)
  {
    && 0 <= i < |vs| && Classify(vs[i], dict) == Failure(k)
    && forall j :: 0 <= j < i ==> Classify(vs[j], dict).Success?
  }

  /** The classification succeeds exactly when no version raises. */
  lemma {:induction false} PartitionSucceeds(vs: seq<Version>, dict: map<string, bool>)
    requires WellFormedVersions(vs)
    ensures Partition(vs, dict).Success? <==> AllClassified(vs, dict)
  {
    if |vs| > 0 {
      var init := vs[..|vs| - 1];
      WellFormedPrefix(vs, |vs| - 1);
      PartitionSucceeds(init, dict);
      assert Partition(vs, dict).Success? <==>
        Partition(init, dict).Success? && Classify(vs[|vs| - 1], dict).Success?;
      if AllClassified(vs, dict) {
        forall i | 0 <= i < |init| ensures Classify(init[i], dict).Success? {
          assert init[i] == vs[i];
        }
      }
      if AllClassified(init, dict) && Classify(vs[|vs| - 1], dict).Success? {
        forall i | 0 <= i < |vs| ensures Classify(vs[i], dict).Success? {
          if i < |init| {
            assert init[i] == vs[i];
          }
        }
      }
    }
  }

  /** A successful classification puts into each list the reference
      selection of its status, in the original order. */
  lemma {:induction false} PartitionSelects(vs: seq<Version>, dict: map<string, bool>)
    requires WellFormedVersions(vs)
    requires Partition(vs, dict).Success?
    ensures Partition(vs, dict).value.member == Select(vs, dict, Member)
    ensures Partition(vs, dict).value.defunct == Select(vs, dict, Defunct)
    ensures Partition(vs, dict).value.stranded == Select(vs, dict, Stranded)
  {
    if |vs| > 0 {
      var init := vs[..|vs| - 1];
      var last := vs[|vs| - 1];
      WellFormedPrefix(vs, |vs| - 1);
      assert Partition(init, dict).Success?;
      PartitionSelects(init, dict);
      var st := Classify(last, dict).value;
      assert Partition(vs, dict) == Success(Place(Partition(init, dict).value, last, st));
    }
  }

  /** The classification succeeds exactly when no version raises; then each
      list is the reference selection of its status, in the original order. */
  lemma PartitionIsSelection(vs: seq<Version>, dict: map<string, bool>)
    requires WellFormedVersions(vs)
    ensures Partition(vs, dict).Success? <==> forall i :: 0 <= i < |vs| ==> Classify(vs[i], dict).Success?
    ensures Partition(vs, dict).Success? ==>
      && Partition(vs, dict).value.member == Select(vs, dict, Member)
      && Partition(vs, dict).value.defunct == Select(vs, dict, Defunct)
      && Partition(vs, dict).value.stranded == Select(vs, dict, Stranded)
  {
    PartitionSucceeds(vs, dict);
    if Partition(vs, dict).Success? {
      PartitionSelects(vs, dict);
    }
  }

  /** The first version that raises decides the error: the classification
      fails with `k` exactly when the first version that raises raises `k`. */
  lemma {:induction false} PartitionFailsWith(vs: seq<Version>, dict: map<string, bool>, k: string)
    requires WellFormedVersions(vs)
    ensures Partition(vs, dict) == Failure(k) <==> exists i :: FirstError(vs, dict, i, k)
  {
    if |vs| > 0 {
      var init := vs[..|vs| - 1];
      var n := |vs| - 1;
      WellFormedPrefix(vs, n);
      PartitionFailsWith(init, dict, k);
      PartitionSucceeds(init, dict);
      if Partition(init, dict) == Failure(k) {
        var i :| FirstError(init, dict, i, k);
        assert init[i] == vs[i];
        forall j | 0 <= j < i ensures Classify(vs[j], dict).Success? {
          assert init[j] == vs[j];
        }
        assert FirstError(vs, dict, i, k);
      } else if Partition(init, dict).Success? && Classify(vs[n], dict) == Failure(k) {
        forall j | 0 <= j < n ensures Classify(vs[j], dict).Success? {
          assert init[j] == vs[j];
        }
        assert FirstError(vs, dict, n, k);
      }
      if exists i :: FirstError(vs, dict, i, k) {
        var i :| FirstError(vs, dict, i, k);
        if i < n {
          assert init[i] == vs[i];
          forall j | 0 <= j < i ensures Classify(init[j], dict).Success? {
            assert init[j] == vs[j];
          }
          assert FirstError(init, dict, i, k);
        } else {
          forall j | 0 <= j < n ensures Classify(init[j], dict).Success? {
            assert init[j] == vs[j];
          }
          assert AllClassified(init, dict);
        }
      }
    }
  }

  /** The reference selection holds exactly the versions of status `st`. */
  lemma {:induction false} SelectMembership(vs: seq<Version>, dict: map<string, bool>, st: Status)
    requires WellFormedVersions(vs)
    ensures forall v :: v in Select(vs, dict, st) <==> v in vs && Classify(v, dict) == Success(st)
  {
    if |vs| > 0 {
      var init := vs[..|vs| - 1];
      var last := vs[|vs| - 1];
      WellFormedPrefix(vs, |vs| - 1);
      SelectMembership(init, dict, st);
      assert Select(vs, dict, st) == Select(init, dict, st) + (if Classify(last, dict) == Success(st) then [last] else []);
      assert vs == init + [last];
      forall v ensures v in Select(vs, dict, st) <==> v in vs && Classify(v, dict) == Success(st) {
        assert v in vs <==> v in init || v == last;
      }
    }
  }

  /** The reference selection takes each version at most as often as it occurs. */
  lemma {:induction false} SelectIsSubMultiset(vs: seq<Version>, dict: map<string, bool>, st: Status)
    requires WellFormedVersions(vs)
    ensures multiset(Select(vs, dict, st)) <= multiset(vs)
  {
    if |vs| > 0 {
      var init := vs[..|vs| - 1];
      var last := vs[|vs| - 1];
      WellFormedPrefix(vs, |vs| - 1);
      SelectIsSubMultiset(init, dict, st);
      assert Select(vs, dict, st) == Select(init, dict, st) + (if Classify(last, dict) == Success(st) then [last] else []);
      assert vs == init + [last];
    }
  }

  /** Placing a version adds it to exactly one list. */
  lemma PlaceAddsOnce(s: Split, v: Version, st: Status)
    ensures var t := Place(s, v, st);
      multiset(t.member) + multiset(t.defunct) + multiset(t.stranded) ==
      multiset(s.member) + multiset(s.defunct) + multiset(s.stranded) + multiset{v}
  {
  }

  /** The three lists together hold every version exactly as often as the
      transaction does. */
  lemma {:induction false} PartitionCovers(vs: seq<Version>, dict: map<string, bool>)
    requires WellFormedVersions(vs)
    requires Partition(vs, dict).Success?
    ensures var s := Partition(vs, dict).value;
      multiset(s.member) + multiset(s.defunct) + multiset(s.stranded) == multiset(vs)
  {
    if |vs| > 0 {
      var init := vs[..|vs| - 1];
      var last := vs[|vs| - 1];
      WellFormedPrefix(vs, |vs| - 1);
      PartitionCovers(init, dict);
      PlaceAddsOnce(Partition(init, dict).value, last, Classify(last, dict).value);
      assert vs == init + [last];
      assert multiset(vs) == multiset(init) + multiset{last};
    }
  }

  /** Each list holds exactly the versions its classification names. */
  lemma PartitionMembership(vs: seq<Version>, dict: map<string, bool>)
    requires WellFormedVersions(vs)
    requires Partition(vs, dict).Success?
    ensures var s := Partition(vs, dict).value;
      && (forall v :: v in s.member <==> v in vs && Classify(v, dict) == Success(Member))
      && (forall v :: v in s.defunct <==> v in vs && Classify(v, dict) == Success(Defunct))
      && (forall v :: v in s.stranded <==> v in vs && Classify(v, dict) == Success(Stranded))
  {
    PartitionSelects(vs, dict);
    SelectMembership(vs, dict, Member);
    SelectMembership(vs, dict, Defunct);
    SelectMembership(vs, dict, Stranded);
  }

  /** A version of a classified transaction lies in exactly one list. */
  lemma InExactlyOneList(vs: seq<Version>, dict: map<string, bool>, v: Version)
    requires WellFormedVersions(vs)
    requires Partition(vs, dict).Success?
    requires v in vs
    ensures var s := Partition(vs, dict).value;
      || (v in s.member && v !in s.defunct && v !in s.stranded)
      || (v !in s.member && v in s.defunct && v !in s.stranded)
      || (v !in s.member && v !in s.defunct && v in s.stranded)
  {
    PartitionSucceeds(vs, dict);
    PartitionMembership(vs, dict);
    var i :| 0 <= i < |vs| && vs[i] == v;
    assert Classify(vs[i], dict).Success?;
  }

  /** Partition: every version lands in exactly one of the three lists, the
      lists together hold each version as often as the transaction does, and
      a version lands in the list its classification names. */
  lemma PartitionIsExact(vs: seq<Version>, dict: map<string, bool>)
    requires WellFormedVersions(vs)
    requires Partition(vs, dict).Success?
    ensures var s := Partition(vs, dict).value;
      && multiset(s.member) + multiset(s.defunct) + multiset(s.stranded) == multiset(vs)
      && |s.member| + |s.defunct| + |s.stranded| == |vs|
      && (forall v :: v in s.member <==> v in vs && Classify(v, dict) == Success(Member))
      && (forall v :: v in s.defunct <==> v in vs && Classify(v, dict) == Success(Defunct))
      && (forall v :: v in s.stranded <==> v in vs && Classify(v, dict) == Success(Stranded))
      && (forall v :: v in vs ==>
            (v in s.member && v !in s.defunct && v !in s.stranded) ||
            (v !in s.member && v in s.defunct && v !in s.stranded) ||
            (v !in s.member && v !in s.defunct && v in s.stranded))
  {
    PartitionCovers(vs, dict);
    PartitionMembership(vs, dict);
    var s := Partition(vs, dict).value;
    assert |multiset(s.member) + multiset(s.defunct) + multiset(s.stranded)| == |multiset(vs)|;
    forall v | v in vs
      ensures (v in s.member && v !in s.defunct && v !in s.stranded) ||
              (v !in s.member && v in s.defunct && v !in s.stranded) ||
              (v !in s.member && v !in s.defunct && v in s.stranded)
    {
      InExactlyOneList(vs, dict, v);
    }
  }

  /** Ancestor closure: within a classified transaction, a version lying under
      a defunct version's directory is either defunct itself or stranded. */
  lemma DefunctDirectoryStrandsDescendants(vs: seq<Version>, dict: map<string, bool>, d: Version, v: Version)
    requires WellFormedVersions(vs)
    requires Partition(vs, dict).Success?
    requires d in Partition(vs, dict).value.defunct
    requires v in vs && IsProperAncestor(d.path, v.path)
    ensures v in Partition(vs, dict).value.defunct || v in Partition(vs, dict).value.stranded
  {
    PartitionIsExact(vs, dict);
    var s := Partition(vs, dict).value;
    var i :| 0 <= i < |vs| && vs[i] == v;
    assert IsDepotPath(v.path);
    var j :| 0 <= j < |vs| && vs[j] == d;
    assert IsDepotPath(d.path);
    ClassifyRules(d, dict);
    ClassifyRules(v, dict);
    ParentScanOutcomes(Ancestors(v.path), dict);
    if v !in s.defunct {
      AncestorsAreContainingDirectories(v.path);
      var parents := Ancestors(v.path);
      var k :| 0 <= k < |parents| && parents[k] == d.path;
      assert Classify(v, dict) != Success(Member) by {
        assert Slashed(parents[k]) in dict && dict[Slashed(parents[k])];
      }
    }
  }

  /** The pure result of `SplitElementsByStatusViaStat` for a stat answer. */
  function StatResult(vs: seq<Version>, info: Option<seq<StatEntry>>): StatOutcome
    requires WellFormedVersions(vs)
  {
    if |vs| == 0 then NothingToQuery
    else if info.None? then StatFailed
    else
      match Partition(vs, StatusMap(info.value))
      case Failure(k) => StatusMissing(k)
      case Success(s) => Classified(s)
  }

  lemma PartitionExtendFailure(vs: seq<Version>, dict: map<string, bool>, n: nat, k: string)
    requires WellFormedVersions(vs) && n <= |vs|
    requires WellFormedVersions(vs[..n])
    requires Partition(vs[..n], dict) == Failure(k)
    ensures Partition(vs, dict) == Failure(k)
    decreases |vs| - n
  {
    if n < |vs| {
      WellFormedPrefix(vs, n + 1);
      assert vs[..n + 1][..n] == vs[..n];
      PartitionExtendFailure(vs, dict, n + 1, k);
    } else {
      assert vs[..n] == vs;
    }
  }

  /** The classification of one version (the body of the version loop):
      its own status first, then its parents in order until the first
      defunct one; a missing status ends it with that path. */
  method ClassifyVersion(version: Version, infoDict: map<string, bool>) returns (r: Result<Status, string>)
    requires IsDepotPath(version.path)
    ensures r == Classify(version, infoDict)
  {
    var elemStr := Slashed(version.path);
    if elemStr !in infoDict {
      return Failure(elemStr);
    }
    var isDefunct := infoDict[elemStr];
    var isStranded := false;
    if !isDefunct {
      var parents := GetParentPaths(version.path);
      var j := 0;
      while j < |parents|
        invariant 0 <= j <= |parents|
        invariant !isStranded
        invariant ParentScan(parents, infoDict) == ParentScan(parents[j..], infoDict)
      {
        var key := Slashed(parents[j]);
        if key !in infoDict {
          return Failure(key);
        }
        if infoDict[key] {
          isStranded := true;
          break;
        }
        assert parents[j..][1..] == parents[j + 1..];
        j := j + 1;
      }
    }
    if isDefunct {
      r := Success(Defunct);
    } else if isStranded {
      r := Success(Stranded);
    } else {
      r := Success(Member);
    }
  }

  /** `SplitElementsByStatusViaStat`: builds the query list, issues one stat
      call (through a list file above MaxCmdItems paths), builds the status
      map, then classifies each version in order and appends it to the list of
      its status; the first missing status raises. */
  method SplitElementsByStatusViaStat(versions: seq<Version>, info: Option<seq<StatEntry>>)
    returns (r: StatOutcome, query: Option<StatQuery>)
    requires WellFormedVersions(versions)
    ensures query == if |versions| == 0 then None
      else Some(StatQuery(QueryList(versions), UsesListFile(|QueryList(versions)|)))
    ensures r == StatResult(versions, info)
  {
    var fullList := BuildQueryList(versions);
    QueryListShape(versions);
    if |fullList| > MaxCmdItems {
      query := Some(StatQuery(fullList, true));
    } else if |fullList| > 0 {
      query := Some(StatQuery(fullList, false));
    } else {
      query := None;
      r := NothingToQuery;
      return;
    }
    if info.None? {
      r := StatFailed;
      return;
    }
    var infoDict := BuildStatusMap(info.value);
    var split := ClassifyVersions(versions, infoDict);
    if split.Failure? {
      r := StatusMissing(split.error);
    } else {
      r := Classified(split.value);
    }
  }

  /** The classification loop of `SplitElementsByStatusViaStat`: each version
      goes on the list its status names; the first one that raises ends the
      loop with that error. */
  method ClassifyVersions(versions: seq<Version>, infoDict: map<string, bool>) returns (split: Result<Split, string>)
    requires WellFormedVersions(versions)
    ensures split == Partition(versions, infoDict)
  {
    var member: seq<Version> := [];
    var defunct: seq<Version> := [];
    var stranded: seq<Version> := [];
    var i := 0;
    while i < |versions|
      invariant 0 <= i <= |versions|
      invariant WellFormedVersions(versions[..i])
      invariant Partition(versions[..i], infoDict) == Success(Split(member, defunct, stranded))
    {
      var version := versions[i];
      PartitionStep(versions, infoDict, i);
      var status := ClassifyVersion(version, infoDict);
      if status.Failure? {
        PartitionExtendFailure(versions, infoDict, i + 1, status.error);
        return Failure(status.error);
      }
      match status.value {
        case Defunct => defunct := defunct + [version];
        case Stranded => stranded := stranded + [version];
        case Member => member := member + [version];
      }
      i := i + 1;
    }
    assert versions[..i] == versions;
    split := Success(Split(member, defunct, stranded));
  }

  /** One step of the classification loop. */
  lemma PartitionStep(vs: seq<Version>, dict: map<string, bool>, n: nat)
    requires WellFormedVersions(vs) && n < |vs|
    ensures WellFormedVersions(vs[..n]) && WellFormedVersions(vs[..n + 1])
    ensures Partition(vs[..n + 1], dict) ==
      match Partition(vs[..n], dict)
      case Failure(e) => Failure(e)
      case Success(s) =>
        match Classify(vs[n], dict)
        case Failure(e) => Failure(e)
        case Success(st) => Success(Place(s, vs[n], st))
  {
    WellFormedPrefix(vs, n);
    WellFormedPrefix(vs, n + 1);
    assert vs[..n + 1][..n] == vs[..n];
  }
}
