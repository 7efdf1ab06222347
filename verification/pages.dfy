/**
 * The page furniture (serve.py, render_navbar, render_edit_link,
 * render_raw_link, render_dir): breadcrumbs over the path relative to the
 * root, the edit and raw links, and the directory listing. The two loops
 * are methods, each proved equal to the function that specifies its output.
 */
module Pages {
  import opened Text
  import opened Paths
  import opened Env

  // ---------------------------------------------------------------------
  // Breadcrumbs
  // ---------------------------------------------------------------------

  /** A breadcrumb: the relative path it links to and the text it shows. */
  datatype Crumb = Crumb(target: string, text: string)

  const HOME := Crumb("", "<I>Home</I>")

  /** The components of a relative path that get a crumb: all but ".". */
  function Visible(parts: seq<string>): (v: seq<string>)
    ensures |v| <= |parts|
    ensures forall x :: x in v <==> x in parts && x != "."
  {
    if parts == [] then []
    else
      var last := parts[|parts| - 1];
      assert forall x :: x in parts <==> x in parts[..|parts| - 1] || x == last;
      Visible(parts[..|parts| - 1]) + (if last == "." then [] else [last])
  }

  /** One crumb per visible component, linking to the components up to and including it. */
  function Trail(v: seq<string>): (t: seq<Crumb>)
    ensures |t| == |v|
  {
    seq(|v|, i requires 0 <= i < |v| => Crumb(JoinWith(v[..i + 1], "/"), v[i]))
  }

  /** Home, then the trail of the visible components. */
  function Crumbs(parts: seq<string>): (c: seq<Crumb>)
    ensures |c| == 1 + |Visible(parts)| && c[0] == HOME
  {
    [HOME] + Trail(Visible(parts))
  }

  function CrumbLink(c: Crumb): string {
    "<A HREF='/view/" + c.target + "'>" + c.text + "</A>"
  }

  /** The given crumbs as links. */
  function Links(crumbs: seq<Crumb>): (out: seq<string>)
    ensures |out| == |crumbs|
  {
    seq(|crumbs|, i requires 0 <= i < |crumbs| => CrumbLink(crumbs[i]))
  }

  /** Every crumb but the last as a link, the last as its bare text; the bar puts " > " between them. */
  function NavbarPieces(crumbs: seq<Crumb>): (out: seq<string>)
    requires |crumbs| >= 1
    ensures |out| == |crumbs|
  {
    Links(crumbs[..|crumbs| - 1]) + [crumbs[|crumbs| - 1].text]
  }

  /** The navigation bar over the components of a relative path. */
  function NavbarOf(parts: seq<string>): string {
    JoinWith(NavbarPieces(Crumbs(parts)), " > ")
  }

  /** The navigation bar of a page, over the components of its path relative to the root. */
  function Navbar(s: Settings, path: string): string {
    NavbarOf(Split(RelPath(path, s.root, s.cwd), '/'))
  }

  /** render_navbar */
  method RenderNavbar(s: Settings, path: string) returns (html: string)
    ensures html == Navbar(s, path)
  {
    var parts := Split(RelPath(path, s.root, s.cwd), '/');
    html := RenderCrumbs(parts);
  }

  /** The loops of render_navbar over the components of the relative path. */
  method RenderCrumbs(parts: seq<string>) returns (html: string)
    ensures html == NavbarOf(parts)
  {
    var stack: seq<string> := [];
    var crumbs: seq<Crumb> := [];
    var i := 0;
    while i < |parts|
      invariant 0 <= i <= |parts|
      invariant stack == Visible(parts[..i])
      invariant crumbs == Trail(stack)
    {
      var p := parts[i];
      VisibleStep(parts, i);
      if p != "." {
        TrailStep(stack, p);
        stack := stack + [p];
        crumbs := crumbs + [Crumb(JoinWith(stack, "/"), p)];
      }
      i := i + 1;
    }
    assert parts[..i] == parts;
    crumbs := [HOME] + crumbs;
    var output: seq<string> := [];
    var j := 0;
    while j < |crumbs| - 1
      invariant 0 <= j <= |crumbs| - 1
      invariant output == Links(crumbs[..j])
    {
      LinksStep(crumbs, j);
      output := output + [CrumbLink(crumbs[j])];
      j := j + 1;
    }
    output := output + [crumbs[|crumbs| - 1].text];
    html := JoinWith(output, " > ");
  }

  /** Taking one more crumb adds its link. */
  lemma LinksStep(crumbs: seq<Crumb>, j: nat)
    requires j < |crumbs|
    ensures Links(crumbs[..j + 1]) == Links(crumbs[..j]) + [CrumbLink(crumbs[j])]
  {
    assert crumbs[..j + 1][..j] == crumbs[..j];
  }

  /** Taking one more component adds it to the visible ones unless it is ".". */
  lemma VisibleStep(parts: seq<string>, i: nat)
    requires i < |parts|
    ensures parts[i] == "." ==> Visible(parts[..i + 1]) == Visible(parts[..i])
    ensures parts[i] != "." ==> Visible(parts[..i + 1]) == Visible(parts[..i]) + [parts[i]]
  {
    assert parts[..i + 1][..i] == parts[..i];
    assert Visible(parts[..i]) + [] == Visible(parts[..i]);
  }

  /** A further visible component adds one crumb, linking to all components so far. */
  lemma TrailStep(v: seq<string>, p: string)
    ensures Trail(v + [p]) == Trail(v) + [Crumb(JoinWith(v + [p], "/"), p)]
  {
    var w := v + [p];
    forall i | 0 <= i < |v|
      ensures Trail(w)[i] == Trail(v)[i]
    {
      assert w[..i + 1] == v[..i + 1];
    }
    assert w[..|v| + 1] == w;
  }

  /** Each crumb after Home links to the previous crumb's target extended by its own text. */
  lemma CrumbChain(parts: seq<string>, i: nat)
    requires 1 <= i < |Crumbs(parts)|
    ensures var c := Crumbs(parts);
      c[i].text == Visible(parts)[i - 1]
      && c[i].target == if i == 1 then c[i].text else c[i - 1].target + "/" + c[i].text
  {
    var v := Visible(parts);
    var c := Crumbs(parts);
    assert c[i] == Trail(v)[i - 1] == Crumb(JoinWith(v[..i], "/"), v[i - 1]);
    if i > 1 {
      assert c[i - 1] == Trail(v)[i - 2] == Crumb(JoinWith(v[..i - 1], "/"), v[i - 2]);
      assert v[..i] == v[..i - 1] + [v[i - 1]];
      JoinAppend(v[..i - 1], [v[i - 1]], "/");
    } else {
      assert v[..1] == [v[0]];
    }
  }

  /** Without "." components every component gets a crumb, in order. */
  lemma {:induction false} VisibleKeepsAll(parts: seq<string>)
    requires "." !in parts
    ensures Visible(parts) == parts
  {
    if parts != [] {
      assert parts[..|parts| - 1] + [parts[|parts| - 1]] == parts;
      VisibleKeepsAll(parts[..|parts| - 1]);
    }
  }

  /** The common prefix of a list with itself is all of it. Stated on its own so that the proofs using it need not prove it amid their larger contexts. */
  lemma CommonPrefixSelf(a: seq<string>)
    ensures CommonPrefix(a, a) == |a|
  {
  }

  /** A path that normalises to the root has the bare Home label as its navigation bar. */
  lemma NavbarAtRoot(s: Settings, path: string)
    requires AbsPath(path, s.cwd) == AbsPath(s.root, s.cwd)
    ensures Navbar(s, path) == "<I>Home</I>"
  {
    RelPathAtRoot(s, path);
    NavbarOfDot();
  }

  /** A path that normalises to the root is "." relative to it. */
  lemma RelPathAtRoot(s: Settings, path: string)
    requires AbsPath(path, s.cwd) == AbsPath(s.root, s.cwd)
    ensures RelPath(path, s.root, s.cwd) == "."
  {
    var p := Segments(AbsPath(s.root, s.cwd));
    CommonPrefixSelf(p);
    assert Relative(p, p) == [];
  }

  /** The bar over the single component "." is the bare Home label. */
  lemma NavbarOfDot()
    ensures NavbarOf(Split(".", '/')) == "<I>Home</I>"
  {
    assert '/' !in "." by { assert "."[0] == '.'; }
    SplitPlain(".", '/');
    assert Visible(["."]) == [];
    assert Crumbs(["."]) == [HOME];
  }

  /** A page one component below the root shows a link to Home, then its own name. */
  lemma NavbarOneDeep(s: Settings, path: string, name: string)
    requires RelPath(path, s.root, s.cwd) == name && name != "." && '/' !in name
    ensures Navbar(s, path) == "<A HREF='/view/'><I>Home</I></A> > " + name
  {
    SplitPlain(name, '/');
    NavbarOfOne(name);
  }

  lemma NavbarOfOne(name: string)
    requires name != "."
    ensures NavbarOf([name]) == "<A HREF='/view/'><I>Home</I></A> > " + name
  {
    assert Visible([name]) == [name] by {
      assert [name][..0] == [];
    }
    assert [name][..1] == [name];
    var c := Crumbs([name]);
    assert c == [HOME, Crumb(name, name)];
    assert c[..1] == [HOME];
    assert Links([HOME]) == [CrumbLink(HOME)];
    assert NavbarPieces(c) == [CrumbLink(HOME), name];
    var link := CrumbLink(HOME);
    assert link == "<A HREF='/view/'><I>Home</I></A>";
    assert [link, name][1..] == [name];
    assert JoinWith([link, name], " > ") == link + " > " + name;
  }

  // ---------------------------------------------------------------------
  // Edit and raw links
  // ---------------------------------------------------------------------

  /**
   * render_edit_link: the edit route on the page's path relative to the
   * root, which is never empty and never absolute, and which, joined back
   * onto the root as the handlers do, normalises to the page's own
   * components.
   */
  function EditLink(s: Settings, path: string): (r: string)
    ensures var t := RelPath(path, s.root, s.cwd);
      && r == "&nbsp;<A CLASS='link' HREF='/edit/" + t + "'>e</A>"
      && t != "" && !IsAbs(t)
      && (IsAbs(s.cwd) ==> Segments(AbsPath(Join(s.root, t), s.cwd)) == Segments(AbsPath(path, s.cwd)))
  {
    LeadsBack(s, path);
    "&nbsp;<A CLASS='link' HREF='/edit/" + RelPath(path, s.root, s.cwd) + "'>e</A>"
  }

  /** render_raw_link: the raw view of the same relative path, which leads back to the page as the edit link's does. */
  function RawLink(s: Settings, path: string): (r: string)
    ensures var t := RelPath(path, s.root, s.cwd);
      && r == "&nbsp;<A CLASS='link' HREF='/view/" + t + "?raw'>r</A>"
      && t != "" && !IsAbs(t)
      && (IsAbs(s.cwd) ==> Segments(AbsPath(Join(s.root, t), s.cwd)) == Segments(AbsPath(path, s.cwd)))
  {
    LeadsBack(s, path);
    "&nbsp;<A CLASS='link' HREF='/view/" + RelPath(path, s.root, s.cwd) + "?raw'>r</A>"
  }

  /** The page's path relative to the root leads back to it whenever the working directory is absolute. */
  lemma LeadsBack(s: Settings, path: string)
    ensures IsAbs(s.cwd) ==>
      Segments(AbsPath(Join(s.root, RelPath(path, s.root, s.cwd)), s.cwd)) == Segments(AbsPath(path, s.cwd))
  {
    if IsAbs(s.cwd) {
      RelPathRoundTrip(path, s.root, s.cwd);
    }
  }

  // ---------------------------------------------------------------------
  // Directory listing
  // ---------------------------------------------------------------------

  /** Version-control directories the listing hides. */
  const EXCLUDED: set<string> := {".git", ".svn", ".hg", "CVS"}

  /** The entries the listing shows, in listing order. */
  function Shown(entries: seq<string>): (r: seq<string>)
    ensures |r| <= |entries|
    ensures forall x :: x in r <==> x in entries && x !in EXCLUDED
  {
    if entries == [] then []
    else
      var last := entries[|entries| - 1];
      assert forall x :: x in entries <==> x in entries[..|entries| - 1] || x == last;
      Shown(entries[..|entries| - 1]) + (if last in EXCLUDED then [] else [last])
  }

  /**
   * One list item, linking to the entry through the directory's path
   * relative to the root; the entry's name, as listed, is the link's text
   * and ends the line.
   */
  function Item(rel: string, f: string): (r: string)
    ensures StartsWith(r, "<LI><A HREF='/view/")
    ensures EndsWith(r, "'>" + f + "</A></LI>\n")
  {
    var r := "<LI><A HREF='/view/" + Join(rel, f) + "'>" + f + "</A></LI>\n";
    assert r == "<LI><A HREF='/view/" + (Join(rel, f) + ("'>" + f + "</A></LI>\n"));
    r
  }

  /** The items of the given names, concatenated in order. */
  function Items(rel: string, names: seq<string>): string {
    if names == [] then "" else Items(rel, names[..|names| - 1]) + Item(rel, names[|names| - 1])
  }

  /**
   * The listing of a directory whose entries are given and whose path
   * relative to the root is `rel`: a list that is empty when every entry is
   * a version-control directory.
   */
  function Listing(rel: string, entries: seq<string>): (r: string)
    ensures StartsWith(r, "<UL>") && EndsWith(r, "</UL>")
    ensures (forall i :: 0 <= i < |entries| ==> entries[i] in EXCLUDED) ==> r == "<UL></UL>"
  {
    var items := Items(rel, Shown(entries));
    Bracketed(items);
    AllHidden(entries);
    "<UL>" + items + "</UL>"
  }

  /** A list's items sit between its tags. */
  lemma Bracketed(items: string)
    ensures StartsWith("<UL>" + items + "</UL>", "<UL>") && EndsWith("<UL>" + items + "</UL>", "</UL>")
  {
    assert "<UL>" + items + "</UL>" == "<UL>" + (items + "</UL>");
  }

  /** A directory of version-control entries only shows nothing. */
  lemma AllHidden(entries: seq<string>)
    ensures (forall i :: 0 <= i < |entries| ==> entries[i] in EXCLUDED) ==> Shown(entries) == []
  {
    if Shown(entries) != [] {
      assert Shown(entries)[0] in Shown(entries);
    }
  }

  /** render_dir, given what os.listdir returned for the directory. */
  method RenderDir(s: Settings, path: string, entries: seq<string>) returns (html: string)
    ensures html == Listing(RelPath(path, s.root, s.cwd), entries)
  {
    ghost var rel := RelPath(path, s.root, s.cwd);
    html := "<UL>";
    var i := 0;
    while i < |entries|
      invariant 0 <= i <= |entries|
      invariant html == "<UL>" + Items(rel, Shown(entries[..i]))
    {
      var f := entries[i];
      ListingStep(rel, entries, i);
      if f !in EXCLUDED {
        var rpath := RelPath(path, s.root, s.cwd);
        var pjoin := Join(rpath, f);
        var line := "<LI><A HREF='/view/" + pjoin + "'>" + f + "</A></LI>\n";
        assert line == Item(rel, f);
        html := html + line;
      }
      i := i + 1;
    }
    assert entries[..i] == entries;
    html := html + "</UL>";
  }

  /** Taking one more entry adds its item to the listing unless it is excluded. */
  lemma ListingStep(rel: string, entries: seq<string>, i: nat)
    requires i < |entries|
    ensures entries[i] in EXCLUDED ==> Items(rel, Shown(entries[..i + 1])) == Items(rel, Shown(entries[..i]))
    ensures entries[i] !in EXCLUDED ==>
      "<UL>" + Items(rel, Shown(entries[..i + 1])) == "<UL>" + Items(rel, Shown(entries[..i])) + Item(rel, entries[i])
  {
    ShownStep(entries, i);
    if entries[i] !in EXCLUDED {
      ItemsStep(rel, Shown(entries[..i]), entries[i]);
      Assoc("<UL>", Items(rel, Shown(entries[..i])), Item(rel, entries[i]));
    }
  }

  /** Taking one more entry adds it to the shown ones unless it is excluded. */
  lemma ShownStep(entries: seq<string>, i: nat)
    requires i < |entries|
    ensures entries[i] in EXCLUDED ==> Shown(entries[..i + 1]) == Shown(entries[..i])
    ensures entries[i] !in EXCLUDED ==> Shown(entries[..i + 1]) == Shown(entries[..i]) + [entries[i]]
  {
    assert entries[..i + 1][..i] == entries[..i];
    assert Shown(entries[..i]) + [] == Shown(entries[..i]);
  }

  /** One more name adds its item at the end. */
  lemma ItemsStep(rel: string, names: seq<string>, f: string)
    ensures Items(rel, names + [f]) == Items(rel, names) + Item(rel, f)
  {
    assert (names + [f])[..|names|] == names;
  }

  /** Showing distributes over concatenation, so the listing keeps the directory's order. */
  lemma {:induction false} ShownAppend(xs: seq<string>, ys: seq<string>)
    ensures Shown(xs + ys) == Shown(xs) + Shown(ys)
    decreases |ys|
  {
    if ys == [] {
      assert xs + ys == xs;
    } else {
      var init, last := ys[..|ys| - 1], ys[|ys| - 1];
      var tail := if last in EXCLUDED then [] else [last];
      InitAppend(xs, ys);
      var a, b := Shown(xs), Shown(init);
      assert Shown(xs + ys) == Shown(xs + init) + tail;
      assert Shown(ys) == b + tail;
      assert Shown(xs + init) == a + b by { ShownAppend(xs, init); }
      ListAssoc(a, b, tail);
    }
  }

  /** A directory without version-control entries is listed whole, in order. */
  lemma {:induction false} ShownKeepsAll(entries: seq<string>)
    requires forall i :: 0 <= i < |entries| ==> entries[i] !in EXCLUDED
    ensures Shown(entries) == entries
  {
    if entries != [] {
      assert entries[..|entries| - 1] + [entries[|entries| - 1]] == entries;
      ShownKeepsAll(entries[..|entries| - 1]);
    }
  }

  /**
   * Each listed entry links to the directory's path relative to the root, a
   * separator and its name: relpath never ends in a separator, and a name
   * from a listing holds none.
   */
  lemma ItemLink(rel: string, f: string)
    requires rel != "" && rel[|rel| - 1] != '/'
    requires f != "" && '/' !in f
    ensures Item(rel, f) == "<LI><A HREF='/view/" + (rel + "/" + f) + "'>" + f + "</A></LI>\n"
  {
    assert f[..1] != "/" by { assert f[0] in f; }
    assert !EndsWith(rel, "/");
    assert Join(rel, f) == rel + "/" + f;
  }

  /**
   * Each link in a directory's listing, joined back onto the root as the
   * view handler does, normalises to the directory's own components
   * followed by the entry's name.
   */
  lemma ListingLinksLead(s: Settings, dir: string, f: string)
    requires IsAbs(s.cwd) && IsName(f)
    ensures var rel := RelPath(dir, s.root, s.cwd);
      && Item(rel, f) == "<LI><A HREF='/view/" + (rel + "/" + f) + "'>" + f + "</A></LI>\n"
      && Segments(AbsPath(Join(s.root, rel + "/" + f), s.cwd)) == Segments(AbsPath(dir, s.cwd)) + [f]
  {
    var rel := RelPath(dir, s.root, s.cwd);
    ItemLink(rel, f);
    TargetLeads(s, dir, f);
  }

  /** Joining "rel/f" onto the root reaches the directory's entry f. */
  lemma TargetLeads(s: Settings, dir: string, f: string)
    requires IsAbs(s.cwd) && IsName(f)
    ensures var rel := RelPath(dir, s.root, s.cwd);
      Segments(AbsPath(Join(s.root, rel + "/" + f), s.cwd)) == Segments(AbsPath(dir, s.cwd)) + [f]
  {
    var rel := RelPath(dir, s.root, s.cwd);
    JoinExtend(s.root, rel, f);
    ExtendSegments(Join(s.root, rel), f, s.cwd);
    RelPathRoundTrip(dir, s.root, s.cwd);
  }
}
