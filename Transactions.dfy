/** AccuRev transactions and element versions as the history query returns
    them, and the small accessors the promotion handler uses. */
module Transactions {
  import opened Base
  import opened DepotPaths

  /** One element version touched by a transaction: its depot path, whether it
      is a directory, its element type ("text", "binary", "dir", "slink",
      "elink", ...) and the stream of its virtual version, if known. */
  datatype Version = Version(path: string, dir: bool, elemType: string, stream: Option<string>)

  /** A transaction: id, type ("promote", "keep", ...), timestamp, user,
      optional comment and the versions it touched, in history order. */
  datatype Transaction = Transaction(
    id: nat,
    kind: string,
    time: int,
    user: string,
    comment: Option<string>,
    versions: seq<Version>)

  /** Every version path is a depot path (AccuRev reports them as `/./...`). */
  predicate WellFormedVersions(vs: seq<Version>) {
    forall i :: 0 <= i < |vs| ==> IsDepotPath(vs[i].path)
  }

  /** `GetTransactionDestStream`: the stream of the first version's virtual
      version; nothing when the transaction has no versions. */
  function GetTransactionDestStream(t: Transaction): (r: Option<string>)
    ensures r.Some? ==> |t.versions| > 0 && t.versions[0].stream == r
    ensures |t.versions| > 0 && t.versions[0].stream.Some? ==> r.Some?
  {
    if |t.versions| > 0 then t.versions[0].stream else None
  }

  /** `IsStreamAllowed`: a known stream passes when no stream list is
      configured, or when the configured list names it. */
  function IsStreamAllowed(stream: Option<string>, streamList: Option<seq<string>>): (r: bool)
    ensures r ==> stream.Some?
    ensures stream.Some? && streamList.None? ==> r
    ensures stream.Some? && streamList.Some? ==> (r <==> stream.value in streamList.value)
  {
    if stream.Some? then
      if streamList.Some? then stream.value in streamList.value else true
    else false
  }

  /** The depot paths of the versions, in order. */
  function Paths(vs: seq<Version>): (r: seq<string>)
    ensures |r| == |vs| && forall i :: 0 <= i < |vs| ==> r[i] == vs[i].path
  {
    seq(|vs|, i requires 0 <= i < |vs| => vs[i].path)
  }

  /** The paths `GetTransactionElements` keeps: every version when directories
      are not skipped, else the non-directory ones, in order. */
  function ElementPaths(vs: seq<Version>, skipDirs: bool): seq<string> {
    if |vs| == 0 then []
    else
      var last := vs[|vs| - 1];
      ElementPaths(vs[..|vs| - 1], skipDirs) + (if !skipDirs || !last.dir then [last.path] else [])
  }

  /** A path is listed exactly when some kept version has it, and the list is
      never longer than the versions (all of them when directories are kept). */
  lemma {:induction false} ElementPathsMembership(vs: seq<Version>, skipDirs: bool)
    ensures |ElementPaths(vs, skipDirs)| <= |vs|
    ensures !skipDirs ==> ElementPaths(vs, skipDirs) == Paths(vs)
    ensures forall p :: p in ElementPaths(vs, skipDirs) <==>
      exists i :: 0 <= i < |vs| && vs[i].path == p && (!skipDirs || !vs[i].dir)
  {
    if |vs| > 0 {
      var init := vs[..|vs| - 1];
      ElementPathsMembership(init, skipDirs);
      forall p ensures p in ElementPaths(vs, skipDirs) <==>
        exists i :: 0 <= i < |vs| && vs[i].path == p && (!skipDirs || !vs[i].dir)
      {
        if exists i :: 0 <= i < |vs| && vs[i].path == p && (!skipDirs || !vs[i].dir) {
          var i :| 0 <= i < |vs| && vs[i].path == p && (!skipDirs || !vs[i].dir);
          if i < |vs| - 1 {
            assert init[i] == vs[i];
          }
        }
        if p in ElementPaths(init, skipDirs) {
          var i :| 0 <= i < |init| && init[i].path == p && (!skipDirs || !init[i].dir);
          assert vs[i] == init[i];
        }
      }
    }
  }

  /** `GetTransactionElements`: collects the paths of the transaction's
      versions, leaving out directories when `skipDirs` is set. */
  method GetTransactionElements(t: Transaction, skipDirs: bool) returns (elemList: seq<string>)
    ensures elemList == ElementPaths(t.versions, skipDirs)
  {
    elemList := [];
    var i := 0;
    while i < |t.versions|
      invariant 0 <= i <= |t.versions|
      invariant elemList == ElementPaths(t.versions[..i], skipDirs)
    {
      var version := t.versions[i];
      if !skipDirs || !version.dir {
        elemList := elemList + [version.path];
      }
      assert t.versions[..i + 1][..i] == t.versions[..i];
      i := i + 1;
    }
    assert t.versions[..i] == t.versions;
  }
}
