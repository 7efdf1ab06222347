/**
 * The part of Python's `posixpath` the wiki leans on: `join`, `normpath`,
 * `abspath`, `relpath`, `dirname` and `splitext`, written over the
 * components of a path. `abspath` resolves a relative path against the
 * process working directory, which is a parameter here.
 */
module Paths {
  import opened Text

  /** posixpath.isabs */
  predicate IsAbs(p: string) {
    StartsWith(p, "/")
  }

  /** posixpath.join(a, b): an absolute `b` replaces `a`, otherwise one separator sits between them. */
  function Join(a: string, b: string): (r: string)
    ensures EndsWith(r, b)
    ensures IsAbs(a) || IsAbs(b) ==> IsAbs(r)
    ensures !IsAbs(a) && !IsAbs(b) ==> !IsAbs(r)
  {
    if IsAbs(b) then b
    else if a == "" || EndsWith(a, "/") then a + b
    else a + "/" + b
  }

  /** A component as normpath keeps it: non-empty, not ".", free of separators. */
  predicate IsComponent(c: string) {
    c != "" && c != "." && '/' !in c
  }

  /** A component naming an entry, which is any kept component but "..". */
  predicate IsName(c: string) {
    IsComponent(c) && c != ".."
  }

  /** Components normpath can produce; an absolute path keeps names only. */
  predicate Canonical(absolute: bool, cs: seq<string>) {
    forall i :: 0 <= i < |cs| ==> IsComponent(cs[i]) && (absolute ==> cs[i] != "..")
  }

  /** One turn of normpath's loop: "" and "." vanish, ".." pops, anything else is pushed; the list stays canonical and grows by at most one. */
  function Step(absolute: bool, acc: seq<string>, comp: string): (r: seq<string>)
    requires Canonical(absolute, acc) && '/' !in comp
    ensures Canonical(absolute, r)
    ensures |r| <= |acc| + 1
  {
    if comp == "" || comp == "." then acc
    else if comp != ".." || (!absolute && acc == []) || (acc != [] && acc[|acc| - 1] == "..") then acc + [comp]
    else if acc != [] then acc[..|acc| - 1]
    else acc
  }

  /** normpath's loop over the split components, starting from `acc`: the result is canonical and no longer than `acc` and the components together. */
  function Fold(absolute: bool, acc: seq<string>, comps: seq<string>): (r: seq<string>)
    requires Canonical(absolute, acc)
    requires forall i :: 0 <= i < |comps| ==> '/' !in comps[i]
    ensures Canonical(absolute, r)
    ensures |r| <= |acc| + |comps|
    decreases |comps|
  {
    if comps == [] then acc else Fold(absolute, Step(absolute, acc, comps[0]), comps[1..])
  }

  /** How many leading separators normpath keeps: two exactly when the path starts with "//" but not "///". */
  function Leading(path: string): nat {
    if StartsWith(path, "//") && !StartsWith(path, "///") then 2
    else if StartsWith(path, "/") then 1
    else 0
  }

  function Slashes(n: nat): string {
    if n == 0 then "" else if n == 1 then "/" else "//"
  }

  /** posixpath.normpath */
  function NormPath(path: string): (r: string)
    ensures r != ""
    ensures IsAbs(path) ==> IsAbs(r)
  {
    if path == "" then "."
    else
      var lead := Leading(path);
      var r := Slashes(lead) + JoinWith(Fold(lead > 0, [], Split(path, '/')), "/");
      if r == "" then "." else r
  }

  /** The path abspath normalises: a relative path is first joined onto the working directory. */
  function Anchored(path: string, cwd: string): string {
    if IsAbs(path) then path else Join(cwd, path)
  }

  /** posixpath.abspath, with the process working directory as `cwd`. */
  function AbsPath(path: string, cwd: string): (r: string)
    ensures r != ""
    ensures IsAbs(cwd) ==> IsAbs(r)
  {
    NormPath(Anchored(path, cwd))
  }

  /** [x for x in xs if x] */
  function NonEmpty(xs: seq<string>): (r: seq<string>)
    ensures |r| <= |xs|
    ensures forall i :: 0 <= i < |r| ==> r[i] != "" && r[i] in xs
  {
    if xs == [] then []
    else if xs[0] == "" then NonEmpty(xs[1..])
    else [xs[0]] + NonEmpty(xs[1..])
  }

  /** The non-empty pieces of a path between separators, as relpath lists them. */
  function Segments(p: string): (r: seq<string>)
    ensures forall i :: 0 <= i < |r| ==> r[i] != "" && '/' !in r[i]
  {
    var parts := Split(p, '/');
    var r := NonEmpty(parts);
    assert forall i :: 0 <= i < |r| ==> r[i] in parts;
    r
  }

  /** The length of the longest common prefix of two lists (posixpath.commonprefix on two lists). */
  function CommonPrefix(a: seq<string>, b: seq<string>): (n: nat)
    ensures n <= |a| && n <= |b|
    ensures a[..n] == b[..n]
    ensures n == |a| || n == |b| || a[n] != b[n]
  {
    if a == [] || b == [] || a[0] != b[0] then 0
    else
      var n := 1 + CommonPrefix(a[1..], b[1..]);
      assert a[..n] == [a[0]] + a[1..][..n - 1];
      assert b[..n] == [b[0]] + b[1..][..n - 1];
      n
  }

  function Repeat(x: string, k: nat): (r: seq<string>)
    ensures |r| == k && forall i :: 0 <= i < k ==> r[i] == x
  {
    if k == 0 then [] else [x] + Repeat(x, k - 1)
  }

  /** The components relpath joins: one ".." per unshared component of `s`, then the rest of `p`. */
  function Relative(s: seq<string>, p: seq<string>): (rel: seq<string>)
    requires forall k :: 0 <= k < |p| ==> p[k] != "" && '/' !in p[k]
    ensures forall k :: 0 <= k < |rel| ==> rel[k] != "" && '/' !in rel[k]
  {
    var i := CommonPrefix(s, p);
    var rel := Repeat("..", |s| - i) + p[i..];
    assert forall k :: |s| - i <= k < |rel| ==> rel[k] == p[i + (k - (|s| - i))];
    rel
  }

  function RelParts(path: string, start: string, cwd: string): (rel: seq<string>)
    ensures forall k :: 0 <= k < |rel| ==> rel[k] != "" && '/' !in rel[k]
  {
    Relative(Segments(AbsPath(start, cwd)), Segments(AbsPath(path, cwd)))
  }

  /**
   * posixpath.relpath(path, start). The result is never empty, never
   * absolute and never ends with a separator.
   */
  function RelPath(path: string, start: string, cwd: string): (r: string)
    ensures r != "" && !IsAbs(r) && r[|r| - 1] != '/'
  {
    var rel := RelParts(path, start, cwd);
    assert forall k :: 0 <= k < |rel| ==> rel[k] != "" && '/' !in rel[k];
    var r := JoinRelative(rel);
    assert r != "" && !IsAbs(r) && r[|r| - 1] != '/';
    r
  }

  /** relpath's last line: "." for no components, otherwise the components joined by separators. */
  function JoinRelative(rel: seq<string>): (r: string)
    requires forall k :: 0 <= k < |rel| ==> rel[k] != "" && '/' !in rel[k]
    ensures r != "" && !IsAbs(r) && r[|r| - 1] != '/'
  {
    if rel == [] then
      assert "."[..1] != "/" by { assert "."[0] == '.'; }
      "."
    else
      JoinPlain(rel);
      JoinWith(rel, "/")
  }

  /** Joining separator-free non-empty components gives a relative path without a trailing separator. */
  lemma JoinPlain(rel: seq<string>)
    requires |rel| >= 1
    requires forall k :: 0 <= k < |rel| ==> rel[k] != "" && '/' !in rel[k]
    ensures var j := JoinWith(rel, "/"); j != "" && !IsAbs(j) && j[|j| - 1] != '/'
  {
    JoinHead(rel, "/");
    JoinLast(rel, "/");
    var j := JoinWith(rel, "/");
    assert rel[0][0] in rel[0];
    assert j[..1] == [j[0]];
    var last := rel[|rel| - 1];
    assert last[|last| - 1] in last;
  }

  /** str.rfind(c), -1 when absent. */
  function LastIndexOf(s: string, c: char): (r: int)
    ensures -1 <= r < |s|
    ensures r >= 0 ==> s[r] == c
    ensures forall k :: r < k < |s| ==> s[k] != c
  {
    if s == [] then -1
    else if s[|s| - 1] == c then |s| - 1
    else LastIndexOf(s[..|s| - 1], c)
  }

  /** str.rstrip(c) */
  function RStrip(s: string, c: char): (r: string)
    ensures StartsWith(s, r) && (r == "" || r[|r| - 1] != c)
  {
    if s != [] && s[|s| - 1] == c then RStrip(s[..|s| - 1], c) else s
  }

  /** posixpath.dirname: everything up to the last separator, without trailing separators unless it is all separators. */
  function Dirname(p: string): (r: string)
    ensures StartsWith(p, r)
  {
    var head := p[..LastIndexOf(p, '/') + 1];
    if head != "" && exists k :: 0 <= k < |head| && head[k] != '/' then RStrip(head, '/') else head
  }

  /** A path without separators has an empty directory part. */
  lemma DirnameOfName(p: string)
    requires '/' !in p
    ensures Dirname(p) == ""
  {
    var i := LastIndexOf(p, '/');
    assert i == -1;
  }

  /** The directory part of "d/f" is d, when d does not end in a separator and f holds none. */
  lemma DirnameOfChild(d: string, f: string)
    requires d != "" && d[|d| - 1] != '/' && '/' !in f
    ensures Dirname(d + "/" + f) == d
  {
    var x := d + "/" + f;
    var i := LastIndexOf(x, '/');
    assert x[|d|] == '/';
    assert i == |d|;
    var head := x[..i + 1];
    assert head == d + "/";
    assert head[|d| - 1] != '/';
    assert head[..|head| - 1] == d;
    assert RStrip(d, '/') == d;
    assert RStrip(head, '/') == d;
  }

  /** posixpath.splitext(p)[1]: the last dot and what follows, unless the last component is only dots up to it. */
  function Extension(p: string): (e: string)
    ensures e == "" || (e[0] == '.' && EndsWith(p, e) && '/' !in e)
  {
    var sep := LastIndexOf(p, '/');
    var dot := LastIndexOf(p, '.');
    if dot > sep && exists k :: sep + 1 <= k < dot && p[k] != '.' then p[dot..] else ""
  }

  // ---------------------------------------------------------------------
  // Facts about normpath's fold
  // ---------------------------------------------------------------------

  /** The fold over a concatenation is the fold over the second part from where the first left off. */
  lemma {:induction false} FoldAppend(absolute: bool, acc: seq<string>, a: seq<string>, b: seq<string>)
    requires Canonical(absolute, acc)
    requires forall i :: 0 <= i < |a| ==> '/' !in a[i]
    requires forall i :: 0 <= i < |b| ==> '/' !in b[i]
    ensures Fold(absolute, acc, a + b) == Fold(absolute, Fold(absolute, acc, a), b)
    decreases |a|
  {
    if a == [] {
      assert a + b == b;
    } else {
      assert (a + b)[0] == a[0];
      assert (a + b)[1..] == a[1..] + b;
      FoldAppend(absolute, Step(absolute, acc, a[0]), a[1..], b);
    }
  }

  /** Names are pushed one by one: folding names onto `acc` appends them. */
  lemma {:induction false} FoldNames(acc: seq<string>, cs: seq<string>)
    requires Canonical(true, acc)
    requires forall i :: 0 <= i < |cs| ==> IsName(cs[i]) && '/' !in cs[i]
    ensures Fold(true, acc, cs) == acc + cs
    decreases |cs|
  {
    if cs != [] {
      var next, rest := acc + [cs[0]], cs[1..];
      assert Step(true, acc, cs[0]) == next;
      assert Fold(true, acc, cs) == Fold(true, next, rest);
      assert forall i :: 0 <= i < |rest| ==> IsName(rest[i]) && '/' !in rest[i] by {
        forall i | 0 <= i < |rest| ensures IsName(rest[i]) && '/' !in rest[i] {
          assert rest[i] == cs[i + 1];
        }
      }
      assert Fold(true, next, rest) == next + rest by { FoldNames(next, rest); }
      ConsAppend(acc, cs);
    }
  }

  /** Moving the head of a list onto the end of another keeps their concatenation. Stated on its own so that the proofs using it need not prove it amid their larger contexts. */
  lemma ConsAppend(acc: seq<string>, cs: seq<string>)
    requires cs != []
    ensures acc + [cs[0]] + cs[1..] == acc + cs
  {
    assert [cs[0]] + cs[1..] == cs;
    ListAssoc(acc, [cs[0]], cs[1..]);
  }

  /** Dropping the last element of a concatenation with a non-empty list drops it from that list. Stated on its own so that the proofs using it need not prove it amid their larger contexts. */
  lemma InitAppend(xs: seq<string>, ys: seq<string>)
    requires ys != []
    ensures (xs + ys)[..|xs + ys| - 1] == xs + ys[..|ys| - 1]
    ensures (xs + ys)[|xs + ys| - 1] == ys[|ys| - 1]
  {
  }

  /** List concatenation regroups freely. Stated on its own so that the proofs using it need not prove it amid their larger contexts. */
  lemma ListAssoc(a: seq<string>, b: seq<string>, c: seq<string>)
    ensures a + b + c == a + (b + c)
  {
  }

  /** In an absolute path each ".." pops one name. */
  lemma {:induction false} FoldPops(acc: seq<string>, k: nat)
    requires Canonical(true, acc) && k <= |acc|
    ensures Fold(true, acc, Repeat("..", k)) == acc[..|acc| - k]
    decreases k
  {
    if k > 0 {
      var r := Repeat("..", k);
      assert r[0] == ".." && r[1..] == Repeat("..", k - 1);
      var popped := acc[..|acc| - 1];
      assert Step(true, acc, "..") == popped;
      FoldPops(popped, k - 1);
      assert popped[..|popped| - (k - 1)] == acc[..|acc| - k];
    }
  }

  /** In an absolute path, climbing past the root stays at the root. */
  lemma {:induction false} FoldPopsAll(acc: seq<string>, k: nat)
    requires Canonical(true, acc) && k >= |acc|
    ensures Fold(true, acc, Repeat("..", k)) == []
    decreases k
  {
    if k > 0 {
      var r := Repeat("..", k);
      assert r[0] == ".." && r[1..] == Repeat("..", k - 1);
      if acc == [] {
        assert Step(true, acc, "..") == [];
        FoldPopsAll(acc, k - 1);
      } else {
        var popped := acc[..|acc| - 1];
        assert Step(true, acc, "..") == popped;
        FoldPopsAll(popped, k - 1);
      }
    }
  }

  /** Removing the empty strings keeps the order and splits over concatenation. */
  lemma {:induction false} NonEmptyAppend(xs: seq<string>, ys: seq<string>)
    ensures NonEmpty(xs + ys) == NonEmpty(xs) + NonEmpty(ys)
    decreases |xs|
  {
    if xs == [] {
      assert xs + ys == ys;
    } else {
      assert (xs + ys)[0] == xs[0];
      assert (xs + ys)[1..] == xs[1..] + ys;
      NonEmptyAppend(xs[1..], ys);
    }
  }

  lemma {:induction false} NonEmptyKeeps(xs: seq<string>)
    requires forall i :: 0 <= i < |xs| ==> xs[i] != ""
    ensures NonEmpty(xs) == xs
    decreases |xs|
  {
    if xs != [] {
      NonEmptyKeeps(xs[1..]);
      assert xs == [xs[0]] + xs[1..];
    }
  }

  /** Splitting after one or two leading separators yields that many empty pieces first. */
  lemma SplitSlashes(n: nat, j: string)
    requires n == 1 || n == 2
    ensures Split(Slashes(n) + j, '/') == Repeat("", n) + Split(j, '/')
  {
    var one := "/" + j;
    assert Split(one, '/') == [""] + Split(j, '/') by {
      assert one == "" + "/" + j;
      SplitConcat("", j, '/');
    }
    if n == 1 {
      assert Slashes(1) + j == one;
      assert Repeat("", 1) == [""];
    } else {
      assert Slashes(2) + j == "" + "/" + one;
      SplitConcat("", one, '/');
      assert Repeat("", 2) == ["", ""];
    }
  }

  /** normpath's own output keeps its count of leading separators. */
  lemma LeadingSlashes(n: nat, j: string)
    requires n == 1 || n == 2
    requires j == "" || j[0] != '/'
    ensures Leading(Slashes(n) + j) == n
  {
    var r := Slashes(n) + j;
    if j != "" {
      assert r[n] == j[0];
    }
  }

  lemma {:induction false} NonEmptyOfEmpties(k: nat)
    ensures NonEmpty(Repeat("", k)) == []
    decreases k
  {
    if k > 0 {
      assert Repeat("", k)[1..] == Repeat("", k - 1);
      NonEmptyOfEmpties(k - 1);
    }
  }

  /**
   * normpath of an absolute path is its leading separators followed by the
   * folded components, and those components are exactly its segments.
   */
  lemma NormPathShape(x: string)
    requires IsAbs(x)
    ensures var c := Fold(true, [], Split(x, '/'));
      && NormPath(x) == Slashes(Leading(x)) + JoinWith(c, "/")
      && Segments(NormPath(x)) == c
      && Leading(NormPath(x)) == Leading(x)
      && Split(NormPath(x), '/') == Repeat("", Leading(x)) + (if c == [] then [""] else c)
  {
    var c := Fold(true, [], Split(x, '/'));
    var lead := Leading(x);
    var j := JoinWith(c, "/");
    assert lead == 1 || lead == 2;
    assert NormPath(x) == Slashes(lead) + j;
    var rest := if c == [] then [""] else c;
    if c != [] {
      SplitJoin(c, '/');
      JoinHead(c, "/");
      NonEmptyKeeps(c);
    }
    assert Split(j, '/') == rest;
    SplitSlashes(lead, j);
    LeadingSlashes(lead, j);
    NonEmptyAppend(Repeat("", lead), rest);
    NonEmptyOfEmpties(lead);
  }

  /** Folding empty components changes nothing. */
  lemma {:induction false} FoldEmpties(absolute: bool, acc: seq<string>, k: nat)
    requires Canonical(absolute, acc)
    ensures Fold(absolute, acc, Repeat("", k)) == acc
  {
    if k > 0 {
      assert Repeat("", k)[1..] == Repeat("", k - 1);
      FoldEmpties(absolute, acc, k - 1);
    }
  }

  /** abspath is idempotent: normalising a normalised absolute path changes nothing. */
  lemma AbsPathIdempotent(p: string, cwd: string)
    requires IsAbs(p) || IsAbs(cwd)
    ensures AbsPath(AbsPath(p, cwd), cwd) == AbsPath(p, cwd)
  {
    var x := Anchored(p, cwd);
    var q := AbsPath(p, cwd);
    NormPathShape(x);
    var c := Fold(true, [], Split(x, '/'));
    var lead := Leading(x);
    var rest := if c == [] then [""] else c;
    assert Split(q, '/') == Repeat("", lead) + rest;
    FoldAppend(true, [], Repeat("", lead), rest);
    FoldEmpties(true, [], lead);
    if c != [] {
      FoldNames([], c);
    }
    assert Fold(true, [], Split(q, '/')) == c;
    NormPathShape(q);
  }

  /** abspath's components are the fold of the anchored path's pieces, and they are all names. */
  lemma AbsSegments(q: string, cwd: string)
    requires IsAbs(cwd)
    ensures Segments(AbsPath(q, cwd)) == Fold(true, [], Split(Anchored(q, cwd), '/'))
    ensures Canonical(true, Segments(AbsPath(q, cwd)))
  {
    NormPathShape(Anchored(q, cwd));
  }

  /** Folding the pieces of `join(a, b)` is folding those of `a`, then those of a relative `b`. */
  lemma JoinFold(acc: seq<string>, a: string, b: string)
    requires Canonical(true, acc) && !IsAbs(b)
    ensures Fold(true, acc, Split(Join(a, b), '/')) == Fold(true, Fold(true, acc, Split(a, '/')), Split(b, '/'))
  {
    if a == "" {
      assert Split(a, '/') == [""];
    } else if EndsWith(a, "/") {
      var a' := a[..|a| - 1];
      assert a == a' + "/" + "";
      assert Join(a, b) == a' + "/" + b;
      SplitConcat(a', "", '/');
      SplitConcat(a', b, '/');
      FoldAppend(true, acc, Split(a', '/'), [""]);
      FoldAppend(true, acc, Split(a', '/'), Split(b, '/'));
    } else {
      assert Join(a, b) == a + "/" + b;
      SplitConcat(a, b, '/');
      FoldAppend(true, acc, Split(a, '/'), Split(b, '/'));
    }
  }

  /** Folding the relative components from the start's components arrives at the target's components. */
  lemma RelativeFold(s: seq<string>, p: seq<string>)
    requires Canonical(true, s) && Canonical(true, p)
    ensures Fold(true, s, Split(JoinRelative(Relative(s, p)), '/')) == p
  {
    var rel := Relative(s, p);
    if rel == [] {
      assert JoinRelative(rel) == ".";
      assert Split(".", '/') == ["."] by {
        assert '/' !in "." by { assert "."[0] == '.'; }
        SplitPlain(".", '/');
      }
      assert Fold(true, s, ["."]) == s;
      assert s == p by { RelativeNone(s, p); }
    } else {
      assert Split(JoinRelative(rel), '/') == rel by {
        assert JoinRelative(rel) == JoinWith(rel, "/");
        SplitJoin(rel, '/');
      }
      RelativeClimbs(s, p);
    }
  }

  /** No relative components means the two lists are the same. */
  lemma RelativeNone(s: seq<string>, p: seq<string>)
    requires Canonical(true, p) && Relative(s, p) == []
    ensures s == p
  {
    var i := CommonPrefix(s, p);
    assert |s| == i && |p| == i;
    assert s == s[..i] && p == p[..i];
  }

  /** Folding the relative components climbs to the common prefix and then descends to the target. */
  lemma RelativeClimbs(s: seq<string>, p: seq<string>)
    requires Canonical(true, s) && Canonical(true, p)
    ensures Fold(true, s, Relative(s, p)) == p
  {
    var i := CommonPrefix(s, p);
    var ups, rest := Repeat("..", |s| - i), p[i..];
    assert Relative(s, p) == ups + rest;
    ClimbToCommon(s, p, i);
    DescendFrom(p, i);
    FoldAppend(true, s, ups, rest);
  }

  /** Folding one ".." per component past a shared prefix climbs back to that prefix. */
  lemma ClimbToCommon(s: seq<string>, p: seq<string>, i: nat)
    requires Canonical(true, s) && i <= |s| && i <= |p| && s[..i] == p[..i]
    ensures Fold(true, s, Repeat("..", |s| - i)) == p[..i]
  {
    FoldPops(s, |s| - i);
    assert s[..|s| - (|s| - i)] == s[..i];
  }

  /** Folding the rest of a canonical list onto its prefix gives the whole list. */
  lemma DescendFrom(p: seq<string>, i: nat)
    requires Canonical(true, p) && i <= |p|
    ensures Fold(true, p[..i], p[i..]) == p
  {
    FoldNames(p[..i], p[i..]);
    SplitAt(p, i);
  }

  /** A list is its prefix followed by the rest. Stated on its own so that the proofs using it need not prove it amid their larger contexts. */
  lemma SplitAt(p: seq<string>, i: nat)
    requires i <= |p|
    ensures p[..i] + p[i..] == p
  {
  }

  /**
   * Following a relative path from `start` leads back to `path`: joining
   * relpath(path, start) onto `start` and normalising gives the components of
   * `path` (the working directory is absolute, as os.getcwd returns it).
   */
  lemma RelPathRoundTrip(path: string, start: string, cwd: string)
    requires IsAbs(cwd)
    ensures Segments(AbsPath(Join(start, RelPath(path, start, cwd)), cwd)) == Segments(AbsPath(path, cwd))
  {
    var t := RelPath(path, start, cwd);
    var s := Segments(AbsPath(start, cwd));
    var p := Segments(AbsPath(path, cwd));
    AbsSegments(start, cwd);
    AbsSegments(path, cwd);
    AbsSegments(Join(start, t), cwd);
    if IsAbs(start) {
      JoinFold([], start, t);
    } else {
      JoinFold([], cwd, start);
      JoinFold([], cwd, Join(start, t));
      JoinFold(Fold(true, [], Split(cwd, '/')), start, t);
    }
    RelativeFold(s, p);
  }

  /** A component that is neither empty nor "." survives the fold's filter. */
  function Kept(cs: seq<string>): (r: seq<string>)
    requires forall i :: 0 <= i < |cs| ==> '/' !in cs[i] && cs[i] != ".."
    ensures forall i :: 0 <= i < |r| ==> IsName(r[i])
  {
    if cs == [] then []
    else if cs[0] == "" || cs[0] == "." then Kept(cs[1..])
    else [cs[0]] + Kept(cs[1..])
  }

  /** Without "..", normpath's fold only drops "" and "." and appends the rest. */
  lemma {:induction false} FoldNoParent(acc: seq<string>, cs: seq<string>)
    requires Canonical(true, acc)
    requires forall i :: 0 <= i < |cs| ==> '/' !in cs[i] && cs[i] != ".."
    ensures Fold(true, acc, cs) == acc + Kept(cs)
    decreases |cs|
  {
    if cs != [] {
      var next, rest := Step(true, acc, cs[0]), cs[1..];
      assert Fold(true, acc, cs) == Fold(true, next, rest);
      assert forall i :: 0 <= i < |rest| ==> '/' !in rest[i] && rest[i] != ".." by {
        forall i | 0 <= i < |rest| ensures '/' !in rest[i] && rest[i] != ".." {
          assert rest[i] == cs[i + 1];
        }
      }
      assert Fold(true, next, rest) == next + Kept(rest) by { FoldNoParent(next, rest); }
      if cs[0] != "" && cs[0] != "." {
        assert next == acc + [cs[0]];
        assert Kept(cs) == [cs[0]] + Kept(rest);
        ListAssoc(acc, [cs[0]], Kept(rest));
      } else {
        assert next == acc && Kept(cs) == Kept(rest);
      }
    }
  }

  /** A normalised absolute path is its leading separators followed by its joined components. */
  lemma NormalShape(root: string)
    requires IsAbs(root) && NormPath(root) == root
    ensures root == Slashes(Leading(root)) + JoinWith(Fold(true, [], Split(root, '/')), "/")
    ensures Leading(root) == 1 || Leading(root) == 2
  {
    NormPathShape(root);
  }

  /** Joining a relative path onto a path shaped like normpath's output keeps its leading separators. */
  lemma JoinLeading(n: nat, j: string, p: string)
    requires n == 1 || n == 2
    requires j == "" || (j[0] != '/' && j[|j| - 1] != '/')
    requires p == "" || p[0] != '/'
    ensures Leading(Join(Slashes(n) + j, p)) == n
  {
    assert !IsAbs(p) by { if p != "" { assert p[..1] == [p[0]]; } }
    if j == "" {
      assert Slashes(n) + j == Slashes(n);
      JoinLeadingBare(n, p);
    } else {
      JoinLeadingNamed(n, j, p);
    }
  }

  lemma JoinLeadingBare(n: nat, p: string)
    requires n == 1 || n == 2
    requires p == "" || p[0] != '/'
    requires !IsAbs(p)
    ensures Leading(Join(Slashes(n), p)) == n
  {
    assert Join(Slashes(n), p) == Slashes(n) + p by {
      assert EndsWith(Slashes(n), "/");
    }
    LeadingSlashes(n, p);
  }

  lemma JoinLeadingNamed(n: nat, j: string, p: string)
    requires n == 1 || n == 2
    requires j != "" && j[0] != '/' && j[|j| - 1] != '/'
    requires !IsAbs(p)
    ensures Leading(Join(Slashes(n) + j, p)) == n
  {
    JoinAfterName(n, j, p);
    LeadingSlashes(n, j + "/" + p);
  }

  /** A relative path joined onto a path ending in a name gets one separator before it. */
  lemma JoinAfterName(n: nat, j: string, p: string)
    requires n == 1 || n == 2
    requires j != "" && j[|j| - 1] != '/'
    requires !IsAbs(p)
    ensures Join(Slashes(n) + j, p) == Slashes(n) + (j + "/" + p)
  {
    var root := Slashes(n) + j;
    assert !EndsWith(root, "/") by { assert root[|root| - 1] == j[|j| - 1]; }
    assert Join(root, p) == root + "/" + p;
    Assoc(Slashes(n), j, "/");
    Assoc(Slashes(n), j + "/", p);
  }

  /** Joining a relative path onto a normalised absolute root keeps the root's leading separators. */
  lemma JoinKeepsLeading(root: string, p: string)
    requires IsAbs(root) && NormPath(root) == root && !IsAbs(p)
    ensures Leading(Join(root, p)) == Leading(root)
  {
    var r0 := Fold(true, [], Split(root, '/'));
    var j := JoinWith(r0, "/");
    NormalShape(root);
    assert p == "" || p[0] != '/' by { if p != "" { assert p[..1] == [p[0]]; } }
    if r0 != [] {
      JoinHead(r0, "/");
      JoinLast(r0, "/");
      assert r0[|r0| - 1][|r0[|r0| - 1]| - 1] in r0[|r0| - 1];
      assert r0[0][0] in r0[0];
    }
    JoinLeading(Leading(root), j, p);
  }

  /**
   * Joining a relative path that has no ".." component onto a normalised
   * absolute root and normalising the result gives a path that starts with
   * the root.
   */
  lemma JoinStaysUnder(root: string, p: string, cwd: string)
    requires IsAbs(root) && NormPath(root) == root
    requires !IsAbs(p) && ".." !in Split(p, '/')
    ensures StartsWith(AbsPath(Join(root, p), cwd), root)
  {
    var x := Join(root, p);
    var cs := Split(p, '/');
    var r0 := Fold(true, [], Split(root, '/'));
    var n := Leading(root);
    NormalShape(root);
    JoinFold([], root, p);
    FoldNoParent(r0, cs);
    NormPathShape(x);
    JoinKeepsLeading(root, p);
    var whole, head := JoinWith(r0 + Kept(cs), "/"), JoinWith(r0, "/");
    assert AbsPath(x, cwd) == Slashes(n) + whole;
    assert root == Slashes(n) + head;
    JoinPrefix(r0, Kept(cs), "/");
    PrefixBoth(Slashes(n), whole, head);
  }

  /** A common prefix keeps one string a prefix of the other. */
  lemma PrefixBoth(pre: string, s: string, t: string)
    requires StartsWith(s, t)
    ensures StartsWith(pre + s, pre + t)
  {
    assert (pre + s)[..|pre + t|] == pre + s[..|t|];
  }

  /** A root made of names, "/" followed by them joined, is normalised and splits into them. */
  lemma RootShape(names: seq<string>, root: string)
    requires |names| >= 1 && forall i :: 0 <= i < |names| ==> IsName(names[i])
    requires root == "/" + JoinWith(names, "/")
    ensures Split(root, '/') == [""] + names
    ensures Leading(root) == 1
    ensures Fold(true, [], Split(root, '/')) == names
    ensures IsAbs(root) && NormPath(root) == root
  {
    var j := JoinWith(names, "/");
    JoinHead(names, "/");
    assert names[0][0] in names[0];
    assert root == Slashes(1) + j;
    SplitSlashes(1, j);
    SplitJoin(names, '/');
    assert Repeat("", 1) == [""];
    LeadingSlashes(1, j);
    FoldAppend(true, [], Repeat("", 1), names);
    FoldEmpties(true, [], 1);
    FoldNames([], names);
  }

  /** The pieces of k ".." components followed by names: what they join to splits back into them, and is relative. */
  lemma ClimbPieces(k: nat, names: seq<string>)
    requires k + |names| >= 1 && forall i :: 0 <= i < |names| ==> IsName(names[i])
    ensures var pieces := Repeat("..", k) + names;
      && (forall i :: 0 <= i < |pieces| ==> '/' !in pieces[i])
      && Split(JoinWith(pieces, "/"), '/') == pieces
      && !IsAbs(JoinWith(pieces, "/"))
  {
    var pieces := Repeat("..", k) + names;
    var p := JoinWith(pieces, "/");
    assert forall i :: 0 <= i < |pieces| ==> '/' !in pieces[i] && pieces[i] != "" by {
      assert forall i :: 0 <= i < k ==> pieces[i] == "..";
      assert forall i :: k <= i < |pieces| ==> pieces[i] == names[i - k];
      assert '/' !in "..";
    }
    SplitJoin(pieces, '/');
    JoinHead(pieces, "/");
    assert pieces[0][0] in pieces[0];
    assert p[..1] == [p[0]];
  }

  /**
   * Joining k ".." components followed by names onto a root made of names
   * climbs k levels, never above "/", and then descends into the names.
   */
  lemma ClimbNormalises(root: string, top: seq<string>, k: nat, names: seq<string>, cwd: string)
    requires |top| >= 1 && forall i :: 0 <= i < |top| ==> IsName(top[i])
    requires root == "/" + JoinWith(top, "/")
    requires k + |names| >= 1 && forall i :: 0 <= i < |names| ==> IsName(names[i])
    ensures AbsPath(Join(root, JoinWith(Repeat("..", k) + names, "/")), cwd)
      == "/" + JoinWith(top[..if k <= |top| then |top| - k else 0] + names, "/")
  {
    var pieces := Repeat("..", k) + names;
    var p := JoinWith(pieces, "/");
    var kept := top[..if k <= |top| then |top| - k else 0];
    ClimbFolds(root, top, k, names);
    FoldedShape(Join(root, p), kept + names, cwd);
  }

  /** The climbing path joined onto the root is absolute, keeps one leading separator and folds to the kept names. */
  lemma ClimbFolds(root: string, top: seq<string>, k: nat, names: seq<string>)
    requires |top| >= 1 && forall i :: 0 <= i < |top| ==> IsName(top[i])
    requires root == "/" + JoinWith(top, "/")
    requires k + |names| >= 1 && forall i :: 0 <= i < |names| ==> IsName(names[i])
    ensures var x := Join(root, JoinWith(Repeat("..", k) + names, "/"));
      && IsAbs(x) && Leading(x) == 1
      && Fold(true, [], Split(x, '/')) == top[..if k <= |top| then |top| - k else 0] + names
  {
    var p := JoinWith(Repeat("..", k) + names, "/");
    ClimbPieces(k, names);
    RootShape(top, root);
    JoinKeepsLeading(root, p);
    JoinFold([], root, p);
    assert Canonical(true, top) && Canonical(true, names);
    ClimbFold(top, k, names);
  }

  /** An absolute path with one leading separator normalises to "/" and the components it folds to. */
  lemma FoldedShape(x: string, c: seq<string>, cwd: string)
    requires IsAbs(x) && Leading(x) == 1 && Fold(true, [], Split(x, '/')) == c
    ensures AbsPath(x, cwd) == "/" + JoinWith(c, "/")
  {
    NormPathShape(x);
    assert Slashes(1) == "/";
  }

  /** Folding k ".." components and then names onto names drops the last k (all, if k is larger) and appends the names. */
  lemma ClimbFold(top: seq<string>, k: nat, names: seq<string>)
    requires Canonical(true, top) && Canonical(true, names)
    ensures Fold(true, top, Repeat("..", k) + names) == top[..if k <= |top| then |top| - k else 0] + names
  {
    var kept := top[..if k <= |top| then |top| - k else 0];
    assert forall i :: 0 <= i < k ==> '/' !in Repeat("..", k)[i] by {
      assert '/' !in "..";
    }
    FoldAppend(true, top, Repeat("..", k), names);
    if k <= |top| {
      FoldPops(top, k);
    } else {
      FoldPopsAll(top, k);
    }
    FoldNames(kept, names);
  }

  /** Joining onto a relative path extended by a separator and a name extends the join the same way. */
  lemma JoinExtend(a: string, b: string, f: string)
    requires b != "" && !IsAbs(b)
    ensures Join(a, b + "/" + f) == Join(a, b) + "/" + f
  {
    assert (b + "/" + f)[..1] == b[..1];
    if a == "" || EndsWith(a, "/") {
      assert a + (b + "/" + f) == a + b + "/" + f;
    } else {
      assert a + "/" + (b + "/" + f) == a + "/" + b + "/" + f;
    }
  }

  /** Appending a separator and a name to a path appends the name to its normalised components. */
  lemma ExtendSegments(x: string, f: string, cwd: string)
    requires IsAbs(cwd) && x != "" && IsName(f)
    ensures Segments(AbsPath(x + "/" + f, cwd)) == Segments(AbsPath(x, cwd)) + [f]
  {
    var a := Anchored(x, cwd);
    if IsAbs(x) {
      assert (x + "/" + f)[..1] == x[..1];
    } else {
      assert (x + "/" + f)[..1] == x[..1];
      JoinExtend(cwd, x, f);
    }
    assert Anchored(x + "/" + f, cwd) == a + "/" + f;
    AbsSegments(x + "/" + f, cwd);
    AbsSegments(x, cwd);
    SplitConcat(a, f, '/');
    SplitPlain(f, '/');
    FoldAppend(true, [], Split(a, '/'), [f]);
    FoldNames(Fold(true, [], Split(a, '/')), [f]);
  }
}
