/**
 The guard every tool runs before touching the file system: resolve the
 requested path against the working directory with `abspath(join(...))` and
 accept it only when the normalised working directory is a string prefix of
 the normalised target (`str.startswith`).
 */
module PathGuard {
  import opened PosixPath

  /** `s.startswith(prefix)`. */
  predicate StartsWith(s: string, prefix: string)
    ensures StartsWith(s, prefix) <==>
      |prefix| <= |s| && forall i :: 0 <= i < |prefix| ==> s[i] == prefix[i]
  {
    |prefix| <= |s| && s[..|prefix|] == prefix
  }

  /** `s.endswith(suffix)`. */
  predicate EndsWith(s: string, suffix: string)
    ensures EndsWith(s, suffix) <==>
      |suffix| <= |s| && forall i :: 0 <= i < |suffix| ==> s[|s| - |suffix| + i] == suffix[i]
  {
    |suffix| <= |s| && s[|s| - |suffix|..] == suffix
  }

  /** The target an operation resolves: `abspath(join(working_directory, rel))`. */
  function TargetPath(workDir: Path, rel: Path, cwd: Path): (t: Path)
    requires IsAbs(cwd)
    ensures IsAbs(t)
  {
    Abspath(Join(workDir, rel), cwd)
  }

  /** The guard: the normalised working directory is a prefix of the target. */
  predicate Permitted(workDir: Path, target: Path, cwd: Path)
    requires IsAbs(cwd)
    ensures Permitted(workDir, target, cwd) ==> IsAbs(target) && |Abspath(workDir, cwd)| <= |target|
  {
    StartsWith(target, Abspath(workDir, cwd))
  }

  /** Components of a location: non-empty, no `.` or `..`, no separator. */
  predicate Segments(k: seq<string>) {
    Clean(k, true) && NoSeparator(k)
  }

  /** The target lies in a sibling of the root whose last component extends
      the root's last component (`/work2/x` beside `/work`). */
  predicate Sibling(root: seq<string>, target: seq<string>) {
    0 < |root| <= |target| &&
    root[..|root| - 1] == target[..|root| - 1] &&
    target[|root| - 1] != root[|root| - 1] &&
    StartsWith(target[|root| - 1], root[|root| - 1])
  }

  lemma SegmentPrefix(a: string, tailA: string, b: string, tailB: string)
    requires '/' !in a && '/' !in b
    requires tailA == [] || tailA[0] == '/'
    requires tailB == [] || tailB[0] == '/'
    ensures tailA == [] ==> (StartsWith(b + tailB, a) <==> StartsWith(b, a))
    ensures tailA != [] ==> (StartsWith(b + tailB, a + tailA) <==> a == b && StartsWith(tailB, tailA))
  {
    var s, p := b + tailB, a + tailA;
    assert forall i :: 0 <= i < |a| ==> a[i] != '/' by {
      forall i | 0 <= i < |a| ensures a[i] != '/' { assert a[i] in a; }
    }
    assert forall i :: 0 <= i < |b| ==> s[i] != '/' by {
      forall i | 0 <= i < |b| ensures s[i] != '/' { assert s[i] == b[i] && b[i] in b; }
    }
    assert tailB != [] ==> s[|b|] == '/';
    assert tailA != [] ==> p[|a|] == '/';
    assert forall i :: 0 <= i < |a| ==> p[i] == a[i];
    if tailA == [] {
      if StartsWith(b, a) {
        assert s[..|a|] == b[..|a|];
      }
      if StartsWith(s, a) {
        assert forall i :: 0 <= i < |a| ==> s[i] == a[i];
        if |b| < |a| {
          assert false;
        }
        assert b[..|a|] == s[..|a|];
      }
    } else {
      if StartsWith(s, p) {
        assert forall i :: 0 <= i < |p| ==> s[i] == p[i];
        if |a| < |b| {
          assert false;
        }
        if |b| < |a| {
          assert false;
        }
        assert a == p[..|a|] == s[..|a|] == b;
        assert tailB[..|tailA|] == s[|a|..|p|] == p[|a|..] == tailA;
      }
      if a == b && StartsWith(tailB, tailA) {
        assert s[..|p|] == a + tailB[..|tailA|];
      }
    }
  }

  lemma RenderCons(k: seq<string>)
    requires |k| >= 1
    ensures Render(k) == "/" + (k[0] + (if |k| == 1 then [] else Render(k[1..])))
  {
  }

  lemma ConsPrefix(s: string, p: string)
    ensures StartsWith("/" + s, "/" + p) <==> StartsWith(s, p)
  {
    if StartsWith("/" + s, "/" + p) {
      assert s[..|p|] == ("/" + s)[1..|p| + 1] == ("/" + p)[1..];
    }
    if StartsWith(s, p) {
      assert ("/" + s)[..|p| + 1] == "/" + s[..|p|];
    }
  }

  /** Component form of the guard: one rendered location is a string prefix of
      another exactly when it is a component-wise ancestor (or the same
      location), or the second lies in a sibling extending the last component. */
  lemma {:induction false} RenderPrefix(root: seq<string>, target: seq<string>)
    requires Segments(root) && Segments(target)
    ensures StartsWith(Render(target), Render(root)) <==> root <= target || Sibling(root, target)
    decreases |root|
  {
    if root == [] {
      assert Render(target)[..1] == "/";
    } else if target == [] {
      RenderCons(root);
      assert |Render(root)| > 1 by { assert root[0] != ""; }
    } else {
      RenderCons(root);
      RenderCons(target);
      var a, b := root[0], target[0];
      var tailA := if |root| == 1 then [] else Render(root[1..]);
      var tailB := if |target| == 1 then [] else Render(target[1..]);
      ConsPrefix(b + tailB, a + tailA);
      assert '/' !in a && '/' !in b;
      SegmentPrefix(a, tailA, b, tailB);
      if |root| == 1 {
        assert a + tailA == a;
        assert root <= target <==> a == b;
        assert StartsWith(b, a) <==> a == b || Sibling(root, target);
      } else {
        assert tailA != [];
        assert root <= target <==> a == b && root[1..] <= target[1..];
        if |target| == 1 {
          assert !StartsWith(tailB, tailA);
          assert !Sibling(root, target);
        } else {
          assert Segments(root[1..]) && Segments(target[1..]);
          RenderPrefix(root[1..], target[1..]);
          SiblingCons(root, target);
        }
      }
    }
  }

  lemma SiblingCons(root: seq<string>, target: seq<string>)
    requires |root| >= 2 && |target| >= 2
    ensures Sibling(root, target) <==> root[0] == target[0] && Sibling(root[1..], target[1..])
  {
    var n := |root|;
    if Sibling(root, target) {
      assert root[0] == root[..n - 1][0] == target[..n - 1][0] == target[0];
      assert root[1..][..n - 2] == root[..n - 1][1..];
      assert target[1..][..n - 2] == target[..n - 1][1..];
    }
    if root[0] == target[0] && Sibling(root[1..], target[1..]) {
      assert root[..n - 1] == [root[0]] + root[1..][..n - 2];
      assert target[..n - 1] == [target[0]] + target[1..][..n - 2];
    }
  }

  /** The guard accepts exactly the targets inside the working directory and
      those in a sibling directory whose name extends the working directory's
      last component. */
  lemma GuardAcceptsExactly(workDir: Path, rel: Path, cwd: Path)
    requires IsAbs(cwd)
    requires LeadingSlashes(AbsInput(workDir, cwd)) == 1
    requires LeadingSlashes(AbsInput(Join(workDir, rel), cwd)) == 1
    ensures var root := Location(AbsInput(workDir, cwd));
            var target := Location(AbsInput(Join(workDir, rel), cwd));
            Permitted(workDir, TargetPath(workDir, rel, cwd), cwd) <==> root <= target || Sibling(root, target)
  {
    NormpathRendersLocation(AbsInput(workDir, cwd));
    NormpathRendersLocation(AbsInput(Join(workDir, rel), cwd));
    RenderPrefix(Location(AbsInput(workDir, cwd)), Location(AbsInput(Join(workDir, rel), cwd)));
  }

  /** Splitting a rendered location gives an empty piece for the root
      followed by its components. */
  lemma SplitRender(k: seq<string>)
    requires |k| >= 1 && NoSeparator(k)
    ensures Split(Render(k)) == [[]] + k
  {
    SplitJoinWith(k);
    assert Render(k)[1..] == JoinWith(k);
  }

  /** A rendering whose components collapse to `result` normalises to the
      rendering of `result` and resolves to `result`. */
  lemma NormpathOfRender(joined: seq<string>, result: seq<string>)
    requires |joined| >= 1 && NoSeparator(joined) && joined[0] != []
    requires Collapse([], joined, true) == result
    ensures Normpath(Render(joined)) == Render(result) && Location(Render(joined)) == result
  {
    var p := Render(joined);
    JoinWithHead(joined);
    assert p[1] == joined[0][0] && joined[0][0] != '/' by { assert '/' !in joined[0]; }
    assert LeadingSlashes(p) == 1;
    NormpathRendersLocation(p);
    SplitRender(joined);
    CollapseSkipsEmpty([], joined, true);
  }

  /** `/work/../work2/x` collapses to `/work2/x`. */
  lemma CollapseSiblingExample()
    ensures Collapse([], [[]] + ["work", "..", "work2", "x"], true) == ["work2", "x"]
    ensures Collapse([], [[]] + ["work"], true) == ["work"]
    ensures Collapse([], [[]] + ["work2", "x"], true) == ["work2", "x"]
  {
    var cs: seq<string> := ["work", "..", "work2", "x"];
    CollapseSkipsEmpty([], cs, true);
    CollapseSkipsEmpty([], ["work"], true);
    CollapseSkipsEmpty([], ["work2", "x"], true);
    assert cs[1..] == ["..", "work2", "x"] && cs[1..][1..] == ["work2", "x"];
    assert ["work2", "x"][1..] == ["x"];
    assert Collapse(["work2"], ["x"], true) == ["work2", "x"];
    assert Collapse([], ["work2", "x"], true) == ["work2", "x"];
    assert Collapse(["work"], ["..", "work2", "x"], true) == ["work2", "x"];
  }

  lemma NormalWorkExample()
    ensures Normpath("/work") == "/work" && Location("/work") == ["work"]
  {
    RenderWork();
    CollapseSiblingExample();
    CollapseSkipsEmpty([], ["work"], true);
    NormpathOfRender(["work"], ["work"]);
  }

  lemma RenderWork()
    ensures Render(["work"]) == "/work"
  {
  }

  lemma JoinSiblingExample()
    ensures Join("/work", "../work2/x") == "/work/../work2/x"
    ensures Render(["work", "..", "work2", "x"]) == "/work/../work2/x"
    ensures Render(["work2", "x"]) == "/work2/x"
  {
    JoinWithFour("work", "..", "work2", "x");
    JoinWithTwo("work2", "x");
  }

  lemma NormalSiblingExample()
    ensures Normpath(Join("/work", "../work2/x")) == "/work2/x"
    ensures Location("/work2/x") == ["work2", "x"]
  {
    JoinSiblingExample();
    CollapseSiblingExample();
    CollapseSkipsEmpty([], ["work", "..", "work2", "x"], true);
    CollapseSkipsEmpty([], ["work2", "x"], true);
    NormpathOfRender(["work", "..", "work2", "x"], ["work2", "x"]);
    NormpathOfRender(["work2", "x"], ["work2", "x"]);
  }

  /** A sibling of the working directory passes the guard: with root `/work`,
      the path `../work2/x` resolves to `/work2/x` and is accepted although it
      is not inside `/work`. */
  lemma SiblingDirectoryPermitted()
    ensures TargetPath("/work", "../work2/x", "/") == "/work2/x"
    ensures Permitted("/work", "/work2/x", "/")
    ensures Location("/work2/x") == ["work2", "x"] && !(Location("/work") <= Location("/work2/x"))
  {
    NormalWorkExample();
    NormalSiblingExample();
  }

  /** `/sandbox/../../etc` collapses to `/etc`. */
  lemma CollapseEscapeExample()
    ensures Collapse([], [[]] + ["sandbox", "..", "..", "etc"], true) == ["etc"]
    ensures Collapse([], [[]] + ["sandbox"], true) == ["sandbox"]
  {
    var cs: seq<string> := ["sandbox", "..", "..", "etc"];
    CollapseSkipsEmpty([], cs, true);
    CollapseSkipsEmpty([], ["sandbox"], true);
    assert cs[1..] == ["..", "..", "etc"] && cs[1..][1..] == ["..", "etc"] && cs[1..][1..][1..] == ["etc"];
    assert Collapse([], ["etc"], true) == ["etc"];
    assert Collapse([], ["..", "etc"], true) == ["etc"];
    assert Collapse(["sandbox"], ["..", "..", "etc"], true) == ["etc"];
  }

  lemma JoinEscapeExample()
    ensures Join("/sandbox", "../../etc") == "/sandbox/../../etc"
    ensures Render(["sandbox", "..", "..", "etc"]) == "/sandbox/../../etc"
    ensures Render(["sandbox"]) == "/sandbox" && Render(["etc"]) == "/etc"
  {
    JoinWithFour("sandbox", "..", "..", "etc");
  }

  lemma NormalSandboxExample()
    ensures Normpath("/sandbox") == "/sandbox"
  {
    JoinEscapeExample();
    CollapseEscapeExample();
    CollapseSkipsEmpty([], ["sandbox"], true);
    NormpathOfRender(["sandbox"], ["sandbox"]);
  }

  lemma NormalEscapeExample()
    ensures Normpath(Join("/sandbox", "../../etc")) == "/etc"
  {
    JoinEscapeExample();
    CollapseEscapeExample();
    CollapseSkipsEmpty([], ["sandbox", "..", "..", "etc"], true);
    NormpathOfRender(["sandbox", "..", "..", "etc"], ["etc"]);
  }

  /** An escape by `..` is rejected: with root `/sandbox`, `../../etc`
      resolves to `/etc`, which does not start with `/sandbox`. */
  lemma EscapeRejected()
    ensures TargetPath("/sandbox", "../../etc", "/") == "/etc"
    ensures !Permitted("/sandbox", "/etc", "/")
  {
    NormalSandboxExample();
    NormalEscapeExample();
  }
}
