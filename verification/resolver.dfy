/**
 * The jail check (serve.py, check_path): a request path is joined onto the
 * root, and the joined path is accepted only if its normalised form starts
 * with the root as a string; only then is its existence checked. The path
 * handed on is the joined path as written, not its normalised form.
 */
module Resolver {
  import opened Text
  import opened Paths
  import opened Env

  const ACCESS_DENIED := 401
  const NOT_FOUND := 404

  datatype Resolution = Resolved(path: string) | Denied(code: int)

  /** What check_path joins onto the root: a missing or empty request path stands for the root itself. */
  function Requested(root: string, shortPath: Option<string>): string {
    if shortPath == None || shortPath.value == "" then root else shortPath.value
  }

  /** The jail test, a plain string prefix on the normalised path. */
  predicate InJail(s: Settings, path: string) {
    StartsWith(AbsPath(path, s.cwd), s.root)
  }

  /**
   * check_path: 401 exactly when the normalised joined path does not start
   * with the root, whether or not it exists; 404 exactly when it passes the
   * jail but does not exist; otherwise the joined path itself.
   */
  function CheckPath(s: Settings, fs: FileSystem, shortPath: Option<string>): (r: Resolution)
    ensures var full := Join(s.root, Requested(s.root, shortPath));
      && (r == Denied(ACCESS_DENIED) <==> !InJail(s, full))
      && (r == Denied(NOT_FOUND) <==> InJail(s, full) && full !in fs.existing)
      && (r.Resolved? <==> InJail(s, full) && full in fs.existing)
      && (r.Resolved? ==> r.path == full)
  {
    var full := Join(s.root, Requested(s.root, shortPath));
    if !InJail(s, full) then Denied(ACCESS_DENIED)
    else if full !in fs.existing then Denied(NOT_FOUND)
    else Resolved(full)
  }

  /** A root as abspath makes it: absolute and already normalised. */
  predicate NormalRoot(s: Settings) {
    IsAbs(s.root) && NormPath(s.root) == s.root
  }

  /** A missing or empty request path resolves to the root itself, which always passes the jail. */
  lemma EmptyPathIsRoot(s: Settings, fs: FileSystem, shortPath: Option<string>)
    requires NormalRoot(s)
    requires shortPath == None || shortPath == Some("")
    ensures CheckPath(s, fs, shortPath) == if s.root in fs.existing then Resolved(s.root) else Denied(NOT_FOUND)
  {
    assert Join(s.root, s.root) == s.root;
    assert AbsPath(s.root, s.cwd) == s.root;
  }

  /**
   * A relative request path with no ".." component is never refused by the
   * jail: it resolves, or it is missing.
   */
  lemma PlainPathsPass(s: Settings, fs: FileSystem, p: string)
    requires NormalRoot(s)
    requires p != "" && !IsAbs(p) && ".." !in Split(p, '/')
    ensures CheckPath(s, fs, Some(p)) == if Join(s.root, p) in fs.existing then Resolved(Join(s.root, p)) else Denied(NOT_FOUND)
  {
    JoinStaysUnder(s.root, p, s.cwd);
  }

  /** Climbing out of the root with ".." is refused with 401 whether or not the target exists. */
  lemma EscapeIsDenied(s: Settings, fs: FileSystem, request: string)
    requires s.root == "/srv/wiki" && request == "../../etc/passwd"
    ensures AbsPath(Join(s.root, request), s.cwd) == "/etc/passwd"
    ensures CheckPath(s, fs, Some(request)) == Denied(ACCESS_DENIED)
  {
    EscapeNormalises(s.root, request, s.cwd);
    EtcOutsideWiki();
  }

  lemma EtcOutsideWiki()
    ensures !StartsWith("/etc/passwd", "/srv/wiki")
  {
    assert "/etc/passwd"[1] == 'e' && "/srv/wiki"[1] == 's';
  }

  lemma EscapeNormalises(root: string, request: string, cwd: string)
    requires root == "/srv/wiki" && request == "../../etc/passwd"
    ensures AbsPath(Join(root, request), cwd) == "/etc/passwd"
  {
    var top, names := ["srv", "wiki"], ["etc", "passwd"];
    WikiRoot(root);
    EscapeRequest(request);
    EscapeClimb(root, request, cwd, top, names);
    EscapeSpelled(names);
  }

  lemma EscapeSpelled(names: seq<string>)
    requires names == ["etc", "passwd"]
    ensures "/" + JoinWith(names, "/") == "/etc/passwd"
  {
    assert JoinWith(names, "/") == "etc" + "/" + "passwd";
  }

  /**
   * The jail is a string prefix, not directory containment: a sibling
   * directory whose name extends the root's is accepted.
   */
  lemma SiblingPassesJail(s: Settings, fs: FileSystem, request: string)
    requires s.root == "/srv/wiki" && request == "../wiki2/notes"
    requires s.root + "/" + request in fs.existing
    ensures AbsPath(Join(s.root, request), s.cwd) == "/srv/wiki2/notes"
    ensures CheckPath(s, fs, Some(request)) == Resolved(s.root + "/" + request)
  {
    SiblingNormalises(s.root, request, s.cwd);
    JoinOntoWiki(s.root, request);
    assert "/srv/wiki2/notes"[..9] == s.root;
  }

  lemma SiblingNormalises(root: string, request: string, cwd: string)
    requires root == "/srv/wiki" && request == "../wiki2/notes"
    ensures AbsPath(Join(root, request), cwd) == "/srv/wiki2/notes"
  {
    var top, names := ["srv", "wiki"], ["wiki2", "notes"];
    WikiRoot(root);
    SiblingRequest(request);
    SiblingClimb(root, request, cwd, top, names);
    SiblingSpelled(["srv", "wiki2", "notes"]);
  }

  lemma SiblingSpelled(names: seq<string>)
    requires names == ["srv", "wiki2", "notes"]
    ensures "/" + JoinWith(names, "/") == "/srv/wiki2/notes"
  {
    JoinThree(names[0], names[1], names[2]);
    assert names == [names[0], names[1], names[2]];
  }

  lemma JoinThree(a: string, b: string, c: string)
    ensures JoinWith([a, b, c], "/") == a + "/" + b + "/" + c
  {
    var bc := JoinWith([b, c], "/");
    assert bc == b + "/" + c by {
      assert [b, c][1..] == [c];
      assert JoinWith([c], "/") == c;
    }
    assert JoinWith([a, b, c], "/") == a + "/" + bc by {
      assert [a, b, c][1..] == [b, c];
    }
    Assoc(a + "/", b, "/");
    Assoc(a + "/", b + "/", c);
  }

  /** "/srv/wiki" as a root made of names. */
  lemma WikiRoot(root: string)
    requires root == "/srv/wiki"
    ensures root == "/" + JoinWith(["srv", "wiki"], "/")
  {
    assert JoinWith(["srv", "wiki"], "/") == "srv" + "/" + "wiki";
  }

  /** "../../etc/passwd" as two ".." components followed by names. */
  lemma EscapeRequest(request: string)
    requires request == "../../etc/passwd"
    ensures request == JoinWith(Repeat("..", 2) + ["etc", "passwd"], "/")
    ensures IsName("etc") && IsName("passwd")
  {
    assert "etc"[0] == 'e' && "passwd"[0] == 'p';
    var parts := Repeat("..", 2) + ["etc", "passwd"];
    assert parts == ["..", "..", "etc", "passwd"];
    assert parts[1..] == ["..", "etc", "passwd"];
    JoinThree(parts[1], parts[2], parts[3]);
  }

  /** "../wiki2/notes" as one ".." component followed by names. */
  lemma SiblingRequest(request: string)
    requires request == "../wiki2/notes"
    ensures request == JoinWith(Repeat("..", 1) + ["wiki2", "notes"], "/")
    ensures IsName("wiki2") && IsName("notes")
  {
    assert "wiki2"[0] == 'w' && "notes"[0] == 'n';
    var parts := Repeat("..", 1) + ["wiki2", "notes"];
    assert parts == ["..", "wiki2", "notes"];
    JoinThree(parts[0], parts[1], parts[2]);
  }

  /** Two levels up from "/srv/wiki" is "/". */
  lemma EscapeClimb(root: string, request: string, cwd: string, top: seq<string>, names: seq<string>)
    requires top == ["srv", "wiki"] && names == ["etc", "passwd"]
    requires root == "/" + JoinWith(top, "/")
    requires request == JoinWith(Repeat("..", 2) + names, "/")
    ensures AbsPath(Join(root, request), cwd) == "/" + JoinWith(names, "/")
  {
    ExampleNames();
    assert top[0] == "srv" && top[1] == "wiki" && names[0] == "etc" && names[1] == "passwd";
    ClimbNormalises(root, top, 2, names, cwd);
    assert top[..0] + names == names;
  }

  /** One level up from "/srv/wiki" is "/srv". */
  lemma SiblingClimb(root: string, request: string, cwd: string, top: seq<string>, names: seq<string>)
    requires top == ["srv", "wiki"] && names == ["wiki2", "notes"]
    requires root == "/" + JoinWith(top, "/")
    requires request == JoinWith(Repeat("..", 1) + names, "/")
    ensures AbsPath(Join(root, request), cwd) == "/" + JoinWith(["srv", "wiki2", "notes"], "/")
  {
    ExampleNames();
    assert top[0] == "srv" && top[1] == "wiki" && names[0] == "wiki2" && names[1] == "notes";
    ClimbNormalises(root, top, 1, names, cwd);
    assert top[..1] + names == ["srv", "wiki2", "notes"];
  }

  /** The directory names the examples above use are plain names. */
  lemma ExampleNames()
    ensures IsName("srv") && IsName("wiki") && IsName("wiki2") && IsName("notes")
    ensures IsName("etc") && IsName("passwd")
  {
    assert "srv"[0] == 's' && "wiki"[0] == 'w' && "wiki2"[0] == 'w' && "notes"[0] == 'n';
    assert "etc"[0] == 'e' && "passwd"[0] == 'p';
  }

  /** Joining a relative request onto "/srv/wiki" puts one separator between them. */
  lemma JoinOntoWiki(root: string, request: string)
    requires root == "/srv/wiki" && request != "" && request[0] == '.'
    ensures Join(root, request) == root + "/" + request
  {
    assert root[8] == 'i';
    assert request[..1] != "/";
  }
}
