/** Depot-relative element paths (`/./dir/file`), POSIX `os.path.dirname`, the
    ancestor walk of `GetParentPaths` and the working-tree path of an element. */
module DepotPaths {
  import opened Text

  /** A depot-relative path as AccuRev reports it: the root marker `/.`, then one
      or more non-empty components, each introduced by a single `/`. */
  predicate IsDepotPath(p: string) {
    && |p| >= 4
    && p[..3] == "/./"
    && p[|p| - 1] != '/'
    && forall i :: 2 <= i < |p| - 1 && p[i] == '/' ==> p[i + 1] != '/'
  }

  /** `p.rfind('/') + 1`: the length of the part up to and including the last slash. */
  function AfterLastSlash(p: string): (k: nat)
    ensures k <= |p|
    ensures k > 0 ==> p[k - 1] == '/'
    ensures forall i :: k <= i < |p| ==> p[i] != '/'
  {
    if |p| == 0 then 0
    else if p[|p| - 1] == '/' then |p|
    else AfterLastSlash(p[..|p| - 1])
  }

  predicate AllSlashes(s: string) {
    forall i :: 0 <= i < |s| ==> s[i] == '/'
  }

  /** `s.rstrip('/')`. */
  function RStripSlashes(s: string): (r: string)
    ensures |r| <= |s| && s[..|r|] == r
    ensures |r| > 0 ==> r[|r| - 1] != '/'
  {
    if |s| > 0 && s[|s| - 1] == '/' then RStripSlashes(s[..|s| - 1]) else s
  }

  /** POSIX `os.path.dirname`. */
  function Dirname(p: string): string {
    var head := p[..AfterLastSlash(p)];
    if |head| > 0 && !AllSlashes(head) then RStripSlashes(head) else head
  }

  /** On a depot path, `dirname` drops the last component and its slash; the
      result is the root marker `/.` exactly when one component was left. */
  lemma DirnameOfDepotPath(p: string)
    requires IsDepotPath(p)
    ensures AfterLastSlash(p) >= 3
    ensures Dirname(p) == p[..AfterLastSlash(p) - 1]
    ensures Dirname(p) == "/." <==> AfterLastSlash(p) == 3
    ensures Dirname(p) != "/." ==> IsDepotPath(Dirname(p))
  {
    var k := AfterLastSlash(p);
    assert p[2] == '/';
    var head := p[..k];
    assert head[1] == '.';
    assert !AllSlashes(head);
    if k >= 4 {
      assert p[k - 1] == '/';
      assert p[k - 2] != '/';
    }
    assert head[..k - 1] == p[..k - 1];
    assert RStripSlashes(head) == RStripSlashes(p[..k - 1]);
    assert RStripSlashes(p[..k - 1]) == p[..k - 1];
    if k == 3 {
      assert p[..2] == "/.";
    } else {
      assert p[3] != '/';
      assert k - 1 >= 4;
      var d := p[..k - 1];
      assert d[..3] == "/./";
      assert |d| != 2;
    }
  }

  /** The parent of a depot path below the root is one of its containing directories. */
  lemma ParentIsProperAncestor(p: string)
    requires IsDepotPath(p)
    requires Dirname(p) != "/."
    ensures IsProperAncestor(Dirname(p), p)
  {
    DirnameOfDepotPath(p);
  }

  /** `q` names a directory that contains the element at `p`. */
  predicate IsProperAncestor(q: string, p: string) {
    IsDepotPath(q) && |q| < |p| && p[..|q|] == q && p[|q|] == '/'
  }

  /** The ancestors of `p`, nearest first: `dirname` applied until the root marker. */
  function Ancestors(p: string): seq<string>
    requires IsDepotPath(p)
    decreases |p|
  {
    DirnameOfDepotPath(p);
    var d := Dirname(p);
    if Slashed(d) == "/." then [] else [d] + Ancestors(d)
  }

  /** The ancestor list holds exactly the directories that contain `p`. */
  lemma {:induction false} AncestorsAreContainingDirectories(p: string)
    requires IsDepotPath(p)
    ensures forall q :: q in Ancestors(p) <==> IsProperAncestor(q, p)
    decreases |p|
  {
    DirnameOfDepotPath(p);
    var k := AfterLastSlash(p);
    var d := Dirname(p);
    if d == "/." {
      forall q | IsProperAncestor(q, p) ensures false {
        assert false;
      }
    } else {
      assert |Slashed(d)| == |d|;
      AncestorsAreContainingDirectories(d);
      forall q ensures q in Ancestors(p) <==> IsProperAncestor(q, p) {
        if IsProperAncestor(q, p) && q != d {
          assert p[|q|] == '/';
          assert |q| == k - 1 ==> q == d;
          assert |q| < k - 1;
          assert d[..|q|] == q;
          assert IsProperAncestor(q, d);
        }
        if IsProperAncestor(q, d) {
          assert p[..|q|] == d[..|q|];
        }
      }
    }
  }

  /** The walk goes one `dirname` at a time: the first entry is the parent of
      `p`, each next entry the parent of the one before (a strictly shorter
      prefix of it), none is the root marker, and the last one's parent is. */
  lemma {:induction false} AncestorsAreAChain(p: string)
    requires IsDepotPath(p)
    ensures var a := Ancestors(p);
      && (|a| == 0 <==> Dirname(p) == "/.")
      && (|a| > 0 ==> a[0] == Dirname(p) && Dirname(a[|a| - 1]) == "/.")
      && (forall i :: 0 <= i < |a| ==> IsDepotPath(a[i]) && a[i] != "/.")
      && (forall i :: 0 < i < |a| ==> a[i] == Dirname(a[i - 1]) && IsProperAncestor(a[i], a[i - 1]))
    decreases |p|
  {
    DirnameOfDepotPath(p);
    var d := Dirname(p);
    assert |Slashed(d)| == |d|;
    if d != "/." {
      AncestorsAreAChain(d);
      var a := Ancestors(p);
      var rest := Ancestors(d);
      assert a == [d] + rest;
      forall i | 0 < i < |a| ensures a[i] == Dirname(a[i - 1]) && IsProperAncestor(a[i], a[i - 1]) {
        if i == 1 {
          assert a[1] == rest[0];
        } else {
          assert a[i] == rest[i - 1] && a[i - 1] == rest[i - 2];
        }
        ParentIsProperAncestor(a[i - 1]);
      }
    }
  }

  /** One `dirname` step of the walk; only the root marker reads as the root
      marker once backslashes are turned into slashes. */
  lemma AncestorsStep(p: string)
    requires IsDepotPath(p)
    ensures Slashed(Dirname(p)) == "/." <==> Dirname(p) == "/."
    ensures Dirname(p) == "/." ==> Ancestors(p) == []
    ensures Dirname(p) != "/." ==> IsDepotPath(Dirname(p)) && Ancestors(p) == [Dirname(p)] + Ancestors(Dirname(p))
  {
    DirnameOfDepotPath(p);
    var d := Dirname(p);
    assert |Slashed(d)| == |d|;
  }

  /** `GetParentPaths`: repeated `dirname` until the result, with backslashes
      read as slashes, is the root marker. */
  method GetParentPaths(elemPath: string) returns (parents: seq<string>)
    requires IsDepotPath(elemPath)
    ensures parents == Ancestors(elemPath)
  {
    parents := [];
    var path := elemPath;
    while true
      invariant IsDepotPath(path)
      invariant parents + Ancestors(path) == Ancestors(elemPath)
      decreases |path|
    {
      AncestorsStep(path);
      var dir := Dirname(path);
      if Slashed(dir) == "/." {
        break;
      }
      assert (parents + [dir]) + Ancestors(dir) == parents + ([dir] + Ancestors(dir));
      parents := parents + [dir];
      path := dir;
    }
  }

  /** `LocalElementPath` in its relative form: the depot path without `/./`,
      i.e. the element's path inside the git working tree. */
  function LocalElementPath(depotPath: string): (r: string)
    ensures IsDepotPath(depotPath) ==> depotPath == "/./" + r && |r| > 0
  {
    if |depotPath| <= 3 then "" else depotPath[3..]
  }

  /** Distinct depot paths have distinct working-tree paths. */
  lemma LocalElementPathInjective(p: string, q: string)
    requires IsDepotPath(p) && IsDepotPath(q)
    requires LocalElementPath(p) == LocalElementPath(q)
    ensures p == q
  {
  }
}
