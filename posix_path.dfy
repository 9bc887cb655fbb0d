/**
 The POSIX path functions the tool layer relies on: `os.path.join` with two
 arguments, `str.split('/')`, `'/'.join(...)`, `os.path.normpath` and
 `os.path.abspath`. A path is a string; a Location is the list of components
 an absolute path resolves to (the root is the empty list).
 */
module PosixPath {

  type Path = string

  predicate IsAbs(p: Path) {
    |p| > 0 && p[0] == '/'
  }

  /** `os.path.join(a, b)`: an absolute `b` replaces `a`; otherwise a separator
      is inserted unless `a` is empty or already ends with one. */
  function Join(a: Path, b: Path): (r: Path)
    ensures IsAbs(b) ==> r == b
    ensures !IsAbs(b) ==> |a| <= |r| && r[..|a|] == a && |b| <= |r| && r[|r| - |b|..] == b
    ensures !IsAbs(b) ==> (IsAbs(r) <==> IsAbs(a))
    ensures !IsAbs(b) ==> |r| == |a| + |b| + (if a == [] || a[|a| - 1] == '/' then 0 else 1)
    ensures !IsAbs(b) && |r| == |a| + |b| + 1 ==> r[|a|] == '/'
  {
    if IsAbs(b) then b
    else if a == [] || a[|a| - 1] == '/' then a + b
    else a + "/" + b
  }

  /** No component of `cs` contains the separator. */
  predicate NoSeparator(cs: seq<string>) {
    forall i :: 0 <= i < |cs| ==> '/' !in cs[i]
  }

  /** `s.split('/')`: always at least one piece, none holding a separator. */
  function Split(s: string): (r: seq<string>)
    ensures |r| >= 1 && NoSeparator(r)
  {
    if s == [] then [[]]
    else if s[0] == '/' then [[]] + Split(s[1..])
    else
      var rest := Split(s[1..]);
      [[s[0]] + rest[0]] + rest[1..]
  }

  /** `'/'.join(cs)`. */
  function JoinWith(cs: seq<string>): (r: string)
  {
    if |cs| == 0 then []
    else if |cs| == 1 then cs[0]
    else cs[0] + "/" + JoinWith(cs[1..])
  }

  lemma {:induction false} JoinWithSplit(s: string)
    ensures JoinWith(Split(s)) == s
  {
    if s == [] {
    } else if s[0] == '/' {
      JoinWithSplit(s[1..]);
      assert s == "/" + s[1..];
    } else {
      var rest := Split(s[1..]);
      JoinWithSplit(s[1..]);
      if |rest| == 1 {
        assert JoinWith(Split(s)) == [s[0]] + rest[0];
      } else {
        assert [[s[0]] + rest[0]] + rest[1..] == [[s[0]] + rest[0]] + rest[1..];
        assert JoinWith(rest) == rest[0] + "/" + JoinWith(rest[1..]);
        assert JoinWith(Split(s)) == ([s[0]] + rest[0]) + "/" + JoinWith(rest[1..]);
      }
      assert s == [s[0]] + s[1..];
    }
  }

  lemma {:induction false} SplitWord(a: string, t: string)
    requires '/' !in a
    ensures Split(a + t) == [a + Split(t)[0]] + Split(t)[1..]
    decreases |a|
  {
    if a != [] {
      assert (a + t)[0] == a[0];
      assert (a + t)[1..] == a[1..] + t;
      SplitWord(a[1..], t);
      assert [a[0]] + (a[1..] + Split(t)[0]) == a + Split(t)[0];
    } else {
      assert a + t == t;
      assert a + Split(t)[0] == Split(t)[0];
      assert Split(t) == [Split(t)[0]] + Split(t)[1..];
    }
  }

  lemma {:induction false} SplitJoinWith(cs: seq<string>)
    requires |cs| >= 1 && NoSeparator(cs)
    ensures Split(JoinWith(cs)) == cs
  {
    if |cs| == 1 {
      SplitWord(cs[0], []);
      assert cs[0] + [] == cs[0];
    } else {
      var tail := JoinWith(cs[1..]);
      SplitJoinWith(cs[1..]);
      assert JoinWith(cs) == cs[0] + ("/" + tail);
      SplitWord(cs[0], "/" + tail);
      assert ("/" + tail)[0] == '/' && ("/" + tail)[1..] == tail;
      var st := Split("/" + tail);
      assert st == [[]] + cs[1..];
      assert st[0] == [] && st[1..] == cs[1..];
      assert cs[0] + st[0] == cs[0];
      assert cs == [cs[0]] + cs[1..];
    }
  }

  /** A list of components as `normpath` leaves it: no empty or `.` component,
      and `..` only in a run at the start of a relative path. */
  predicate Clean(cs: seq<string>, rooted: bool) {
    forall i :: 0 <= i < |cs| ==>
      cs[i] != "" && cs[i] != "." &&
      (cs[i] == ".." ==> !rooted && forall j :: 0 <= j < i ==> cs[j] == "..")
  }

  /** One iteration of the component loop of `posixpath.normpath`. */
  function Step(acc: seq<string>, comp: string, rooted: bool): seq<string> {
    if comp == "" || comp == "." then acc
    else if comp != ".." || (!rooted && acc == []) || (acc != [] && acc[|acc| - 1] == "..") then acc + [comp]
    else if acc != [] then acc[..|acc| - 1]
    else acc
  }

  /** The component loop of `posixpath.normpath`, continuing from `acc`. */
  function Collapse(acc: seq<string>, comps: seq<string>, rooted: bool): seq<string>
    decreases |comps|
  {
    if comps == [] then acc
    else Collapse(Step(acc, comps[0], rooted), comps[1..], rooted)
  }

  lemma StepClean(acc: seq<string>, comp: string, rooted: bool)
    requires Clean(acc, rooted) && NoSeparator(acc) && '/' !in comp
    ensures Clean(Step(acc, comp, rooted), rooted) && NoSeparator(Step(acc, comp, rooted))
  {
    if comp == ".." && acc != [] && acc[|acc| - 1] == ".." {
      var r := acc + [comp];
      forall i | 0 <= i < |r| && r[i] == ".."
        ensures !rooted && forall j :: 0 <= j < i ==> r[j] == ".."
      {
        assert acc[|acc| - 1] == "..";
      }
    }
  }

  /** Collapsing keeps the accumulated components clean and separator-free. */
  lemma {:induction false} CollapseClean(acc: seq<string>, comps: seq<string>, rooted: bool)
    requires Clean(acc, rooted) && NoSeparator(acc) && NoSeparator(comps)
    ensures Clean(Collapse(acc, comps, rooted), rooted) && NoSeparator(Collapse(acc, comps, rooted))
    decreases |comps|
  {
    if comps != [] {
      StepClean(acc, comps[0], rooted);
      CollapseClean(Step(acc, comps[0], rooted), comps[1..], rooted);
    }
  }

  /** Collapsing components that are already clean changes nothing. */
  lemma {:induction false} CollapseOfClean(acc: seq<string>, comps: seq<string>, rooted: bool)
    requires Clean(acc + comps, rooted)
    ensures Collapse(acc, comps, rooted) == acc + comps
    decreases |comps|
  {
    if comps != [] {
      var c := comps[0];
      assert (acc + comps)[|acc|] == c;
      if c == ".." {
        assert forall j :: 0 <= j < |acc| ==> (acc + comps)[j] == acc[j];
        assert acc == [] || acc[|acc| - 1] == "..";
      }
      assert Step(acc, c, rooted) == acc + [c];
      assert acc + [c] + comps[1..] == acc + comps;
      CollapseOfClean(acc + [c], comps[1..], rooted);
    }
  }

  /** Empty components (repeated or leading separators) are skipped. */
  lemma CollapseSkipsEmpty(acc: seq<string>, comps: seq<string>, rooted: bool)
    ensures Collapse(acc, [[]] + comps, rooted) == Collapse(acc, comps, rooted)
  {
    assert ([[]] + comps)[1..] == comps;
  }

  /** How many leading separators `normpath` keeps: POSIX gives exactly two a
      meaning of their own, three or more count as one. */
  function LeadingSlashes(p: Path): (n: nat)
    ensures n <= 2 && (n > 0 <==> IsAbs(p))
    ensures n <= |p| && forall i :: 0 <= i < n ==> p[i] == '/'
  {
    if |p| == 0 || p[0] != '/' then 0
    else if |p| >= 2 && p[1] == '/' && !(|p| >= 3 && p[2] == '/') then 2
    else 1
  }

  function Slashes(n: nat): string
  {
    if n == 0 then [] else "/" + Slashes(n - 1)
  }

  /** `os.path.normpath(p)`. */
  function Normpath(p: Path): (r: Path)
    ensures r != []
    ensures IsAbs(p) <==> IsAbs(r)
  {
    if p == [] then "."
    else
      var n := LeadingSlashes(p);
      var comps := Collapse([], Split(p), n > 0);
      CollapseClean([], Split(p), n > 0);
      var body := JoinWith(comps);
      assert n > 0 ==> Slashes(n)[0] == '/';
      assert body != [] ==> body[0] != '/' by {
        if body != [] {
          assert comps != [];
          JoinWithHead(comps);
          assert body[0] == comps[0][0];
          assert '/' !in comps[0];
        }
      }
      var r := Slashes(n) + body;
      if r == [] then "." else r
  }

  /** The string `abspath` hands to `normpath`. */
  function AbsInput(p: Path, cwd: Path): Path {
    if IsAbs(p) then p else Join(cwd, p)
  }

  /** `os.path.abspath(p)`, with the process working directory `cwd` given
      explicitly. */
  function Abspath(p: Path, cwd: Path): (r: Path)
    requires IsAbs(cwd)
    ensures IsAbs(r)
  {
    Normpath(AbsInput(p, cwd))
  }

  /** The components the file system resolves an absolute path to; `..` at
      the root stays at the root. */
  function Location(p: Path): (k: seq<string>)
    ensures Clean(k, true) && NoSeparator(k)
  {
    CollapseClean([], Split(p), true);
    Collapse([], Split(p), true)
  }

  function EmptyPieces(n: nat): seq<string>
  {
    if n == 0 then [] else [[]] + EmptyPieces(n - 1)
  }

  lemma SlashesSplit(n: nat, body: string)
    requires n <= 2
    ensures Split(Slashes(n) + body) == EmptyPieces(n) + Split(body)
  {
    if n == 0 {
      assert Slashes(0) + body == body;
    } else if n == 1 {
      SlashesCons(1, body);
      SplitSlash(body);
    } else {
      SlashesCons(2, body);
      SlashesCons(1, body);
      SplitSlash(Slashes(1) + body);
      SplitSlash(body);
      assert EmptyPieces(2) == [[]] + [[]];
    }
  }

  lemma SlashesCons(n: nat, body: string)
    requires n > 0
    ensures Slashes(n) + body == "/" + (Slashes(n - 1) + body)
  {
  }

  lemma SplitSlash(body: string)
    ensures Split("/" + body) == [[]] + Split(body)
  {
    assert ("/" + body)[1..] == body;
  }

  lemma JoinWithTwo(a: string, b: string)
    ensures JoinWith([a, b]) == a + "/" + b
  {
    assert [a, b][1..] == [b];
  }

  lemma JoinWithFour(a: string, b: string, c: string, d: string)
    ensures JoinWith([a, b, c, d]) == a + "/" + (b + "/" + (c + "/" + d))
  {
    assert [a, b, c, d][1..] == [b, c, d];
    assert [b, c, d][1..] == [c, d];
    JoinWithTwo(c, d);
  }

  /** Splitting and collapsing the rendering of clean components gives them back. */
  lemma {:induction false} CollapseRendered(n: nat, comps: seq<string>, rooted: bool)
    requires n <= 2 && Clean(comps, rooted) && NoSeparator(comps)
    ensures Collapse([], Split(Slashes(n) + JoinWith(comps)), rooted) == comps
  {
    var body := JoinWith(comps);
    SlashesSplit(n, body);
    var tail := if comps == [] then [[]] else comps;
    if comps != [] {
      SplitJoinWith(comps);
    }
    assert Split(body) == tail;
    if n == 1 {
      CollapseSkipsEmpty([], tail, rooted);
      assert EmptyPieces(1) + tail == [[]] + tail;
    } else if n == 2 {
      assert EmptyPieces(2) + tail == [[]] + ([[]] + tail);
      CollapseSkipsEmpty([], [[]] + tail, rooted);
      CollapseSkipsEmpty([], tail, rooted);
    }
    if n == 0 {
      assert Slashes(0) + body == body;
      assert EmptyPieces(0) + tail == tail;
    }
    if comps == [] {
      assert Collapse([], [[]], rooted) == [];
    } else {
      CollapseOfClean([], comps, rooted);
      assert [] + comps == comps;
    }
  }

  /** Normalising a path that is already normal changes nothing. */
  lemma NormpathIdempotent(p: Path)
    ensures Normpath(Normpath(p)) == Normpath(p)
  {
    if p != [] {
      var n := LeadingSlashes(p);
      var comps := Collapse([], Split(p), n > 0);
      CollapseClean([], Split(p), n > 0);
      var body := JoinWith(comps);
      var r := Slashes(n) + body;
      if r != [] {
        assert n <= 2;
        assert Normpath(p) == r;
        LeadingSlashesRendered(n, comps);
        CollapseRendered(n, comps, n > 0);
      } else {
        assert Normpath(p) == ".";
        assert "."[0] == '.' && "."[1..] == [];
        assert Split([]) == [[]];
        assert ['.'] + [] == ".";
        assert Split(".") == ["."];
      }
    }
  }

  lemma LeadingSlashesRendered(n: nat, comps: seq<string>)
    requires n <= 2 && Clean(comps, n > 0) && NoSeparator(comps)
    requires Slashes(n) + JoinWith(comps) != []
    ensures LeadingSlashes(Slashes(n) + JoinWith(comps)) == n
  {
    var body := JoinWith(comps);
    if comps != [] {
      JoinWithHead(comps);
      assert body[0] == comps[0][0];
      assert comps[0][0] != '/' by { assert '/' !in comps[0]; }
    }
    var r := Slashes(n) + body;
    if n == 1 {
      assert r == "/" + body;
    } else if n == 2 {
      assert r == "//" + body;
    } else {
      assert r == body;
    }
  }

  lemma JoinWithHead(cs: seq<string>)
    requires |cs| >= 1 && cs[0] != []
    ensures |JoinWith(cs)| >= |cs[0]| && JoinWith(cs)[..|cs[0]|] == cs[0]
  {
  }

  /** The file system resolves a path and its normal form to the same place. */
  lemma LocationOfNormpath(p: Path)
    requires IsAbs(p)
    ensures Location(Normpath(p)) == Location(p)
  {
    var n := LeadingSlashes(p);
    var comps := Collapse([], Split(p), true);
    CollapseClean([], Split(p), true);
    CollapseRendered(n, comps, true);
    assert n <= 2;
    if n == 1 {
      assert Collapse([], Split(Slashes(1) + JoinWith(comps)), true) == comps;
    } else {
      assert Collapse([], Split(Slashes(2) + JoinWith(comps)), true) == comps;
    }
  }

  /** The single-separator rendering of a location. */
  function Render(k: seq<string>): (r: Path)
    ensures IsAbs(r)
  {
    "/" + JoinWith(k)
  }

  /** A path with one leading separator normalises to the rendering of its location. */
  lemma NormpathRendersLocation(p: Path)
    requires LeadingSlashes(p) == 1
    ensures Normpath(p) == Render(Location(p))
  {
    assert Slashes(1) == "/";
  }
}
