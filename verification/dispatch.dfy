/**
 * The render dispatcher (serve.py, dispatch). The source signals a finished
 * page by raising ContentReadyException and an error by aborting; here both
 * are values of `Outcome`, and a normal return is `NoRender`. An uncaught
 * exception (a failed readlink, listdir or open, or the interpreter's
 * recursion limit) is the server error 500.
 */
module Dispatcher {
  import opened Text
  import opened Paths
  import opened Env
  import opened Resolver
  import opened Mime
  import opened Pages

  const SERVER_ERROR := 500

  const SYMLINK := "inode/symlink"
  const DIRECTORY := "inode/directory"
  const EMPTY := "inode/x-empty"
  const MARKDOWN := "text/x-markdown"
  const CREOLE := "text/x-creole"
  const TEXTILE := "text/x-textile"
  const RST := "text/x-restructured-text"

  const EMPTY_FILE := "<I>(empty file)</I>"

  /**
   * How the type labels are spelled: all seven differ, the three special
   * ones lie outside text/ and the four markup ones inside it. A helper on
   * constants only, which the proofs below use to tell the branches apart.
   */
  lemma TypeLabels()
    ensures SYMLINK != DIRECTORY && SYMLINK != EMPTY && DIRECTORY != EMPTY
    ensures MARKDOWN != CREOLE && MARKDOWN != TEXTILE && MARKDOWN != RST
    ensures CREOLE != TEXTILE && CREOLE != RST && TEXTILE != RST
    ensures !StartsWith(SYMLINK, "text/") && !StartsWith(DIRECTORY, "text/") && !StartsWith(EMPTY, "text/")
    ensures StartsWith(MARKDOWN, "text/") && StartsWith(CREOLE, "text/") && StartsWith(TEXTILE, "text/") && StartsWith(RST, "text/")
  {
    assert SYMLINK[6] == 's' && DIRECTORY[6] == 'd' && EMPTY[6] == 'x';
    assert MARKDOWN[7] == 'm' && CREOLE[7] == 'c' && TEXTILE[7] == 't' && RST[7] == 'r';
    assert SYMLINK[..5][0] == 'i' && DIRECTORY[..5][0] == 'i' && EMPTY[..5][0] == 'i';
  }

  datatype Outcome = NoRender | Rendered(content: string, ctype: string, style: string) | Abort(code: int)

  /** A finished page as ContentReadyException carries it by default: HTML, no extra style. */
  function Page(content: string): Outcome {
    Rendered(content, "text/html", "")
  }

  /** The wiki-link base markdown is given: the page's directory relative to the root. */
  function WikiBase(s: Settings, path: string): string {
    "/view/" + Dirname(RelPath(path, s.root, s.cwd)) + "/"
  }

  /** Read the file and hand its text to a renderer; a file that cannot be read is an uncaught IOError. */
  function RenderFile(fs: FileSystem, path: string, render: string -> string): Outcome {
    if path in fs.contents then Page(render(fs.contents[path])) else Abort(SERVER_ERROR)
  }

  /**
   * The pygments branch: a lexer by type, by file name when the type only
   * gives the plain-text lexer; ClassNotFound from either is a normal return.
   * pygments has no lexer for a missing type, so that one renders nothing.
   */
  function Highlight(libs: Libraries, fs: FileSystem, ctype: Option<string>, path: string): (r: Outcome)
    ensures r == NoRender <==>
      (ctype == None
       || libs.lexerForMimetype(ctype.value) == None
       || (libs.lexerForMimetype(ctype.value) == Some(TextLexer) && libs.lexerForFilename(path) == None))
    ensures r.Rendered? ==> r.ctype == "text/html" && r.style == libs.styleDefs
  {
    if ctype == None then NoRender
    else
      match libs.lexerForMimetype(ctype.value)
      case None => NoRender
      case Some(byType) =>
        var lexer := if byType == TextLexer then libs.lexerForFilename(path) else Some(byType);
        match lexer
        case None => NoRender
        case Some(lx) =>
          if path in fs.contents then Rendered(libs.highlight(fs.contents[path], lx), "text/html", libs.styleDefs)
          else Abort(SERVER_ERROR)
  }

  /**
   * The block after the special types: nothing in simple mode, else the
   * first installed renderer for the exact type, else pygments. What it
   * renders is HTML, styled only by pygments, and it fails only on a file
   * it cannot read.
   */
  function Markup(s: Settings, fs: FileSystem, ctype: Option<string>, path: string): (r: Outcome)
    ensures s.simple ==> r == NoRender
    ensures r.Rendered? ==> r.ctype == "text/html" && (r.style == "" || r.style == s.libs.styleDefs)
    ensures r.Abort? ==> r.code == SERVER_ERROR && path !in fs.contents
    ensures !s.libs.hasPygments && ctype !in {Some(MARKDOWN), Some(CREOLE), Some(TEXTILE), Some(RST)} ==> r == NoRender
  {
    var libs := s.libs;
    if s.simple then NoRender
    else if libs.hasMarkdown && ctype == Some(MARKDOWN) then
      RenderFile(fs, path, text => libs.markdown(text, WikiBase(s, path)))
    else if libs.hasCreole && ctype == Some(CREOLE) then RenderFile(fs, path, libs.creole)
    else if libs.hasTextile && ctype == Some(TEXTILE) then RenderFile(fs, path, libs.textile)
    else if libs.hasDocutils && ctype == Some(RST) then RenderFile(fs, path, libs.docutils)
    else if libs.hasPygments then Highlight(libs, fs, ctype, path)
    else NoRender
  }

  /**
   * dispatch(ctype, path) with `fuel` nested calls left before the
   * interpreter's recursion error. Whatever it renders is HTML, and it
   * aborts only with 401 or 500.
   */
  function Dispatch(s: Settings, fs: FileSystem, fuel: nat, ctype: Option<string>, path: string): (r: Outcome)
    ensures r.Rendered? ==> r.ctype == "text/html"
    ensures r.Abort? ==> r.code == ACCESS_DENIED || r.code == SERVER_ERROR
    decreases fuel
  {
    if ctype == Some(SYMLINK) then
      if path !in fs.links then Abort(SERVER_ERROR)
      else
        var realpath := AbsPath(fs.links[path], s.cwd);
        if !InJail(s, realpath) then Abort(ACCESS_DENIED)
        else if fuel == 0 then Abort(SERVER_ERROR)
        else
          var inner := Dispatch(s, fs, fuel - 1, DiscernType(s.libs, fs, realpath), realpath);
          if inner != NoRender then inner else Markup(s, fs, ctype, path)
    else if ctype == Some(DIRECTORY) then
      if path in fs.listing then Page(Listing(RelPath(path, s.root, s.cwd), fs.listing[path])) else Abort(SERVER_ERROR)
    else if ctype == Some(EMPTY) then Page(EMPTY_FILE)
    else Markup(s, fs, ctype, path)
  }

  // ---------------------------------------------------------------------
  // The chain, case by case
  // ---------------------------------------------------------------------

  /** The four markup formats, each with its own type label and renderer. */
  datatype MarkupKind = MarkdownKind | CreoleKind | TextileKind | RstKind

  /** The installed markup renderer registered for a type, if any: a lookup, with no order among the four. */
  function KindOf(libs: Libraries, ctype: Option<string>): Option<MarkupKind> {
    if ctype == Some(RST) && libs.hasDocutils then Some(RstKind)
    else if ctype == Some(TEXTILE) && libs.hasTextile then Some(TextileKind)
    else if ctype == Some(CREOLE) && libs.hasCreole then Some(CreoleKind)
    else if ctype == Some(MARKDOWN) && libs.hasMarkdown then Some(MarkdownKind)
    else None
  }

  function Apply(s: Settings, kind: MarkupKind, path: string, text: string): string {
    match kind
    case MarkdownKind => s.libs.markdown(text, WikiBase(s, path))
    case CreoleKind => s.libs.creole(text)
    case TextileKind => s.libs.textile(text)
    case RstKind => s.libs.docutils(text)
  }

  /**
   * Outside simple mode, a type that an installed markup renderer is
   * registered for is rendered by that renderer alone, with no extra style,
   * and pygments is not consulted; any other type goes to pygments when it
   * is installed, and otherwise renders nothing.
   */
  lemma MarkupChain(s: Settings, fs: FileSystem, ctype: Option<string>, path: string)
    requires !s.simple
    ensures var r := Markup(s, fs, ctype, path);
      match KindOf(s.libs, ctype)
      case Some(kind) =>
        r == if path in fs.contents then Rendered(Apply(s, kind, path, fs.contents[path]), "text/html", "") else Abort(SERVER_ERROR)
      case None =>
        r == if s.libs.hasPygments then Highlight(s.libs, fs, ctype, path) else NoRender
  {
    TypeLabels();
  }

  /** A replacement for every renderer, lexer lookup and highlighter, and for pygments' availability. */
  datatype Renderers = Renderers(
    markdown: (string, string) -> string,
    creole: string -> string,
    textile: string -> string,
    docutils: string -> string,
    hasPygments: bool,
    lexerForMimetype: string -> Option<Lexer>,
    lexerForFilename: string -> Option<Lexer>,
    highlight: (string, Lexer) -> string,
    styleDefs: string)

  function WithRenderers(libs: Libraries, r: Renderers): Libraries {
    libs.(markdown := r.markdown, creole := r.creole, textile := r.textile, docutils := r.docutils,
          hasPygments := r.hasPygments, lexerForMimetype := r.lexerForMimetype,
          lexerForFilename := r.lexerForFilename, highlight := r.highlight, styleDefs := r.styleDefs)
  }

  /** Type discovery reads only the tables, Magic and which markup formats registered their extensions. */
  lemma DiscoveryIgnoresRenderers(libs: Libraries, r: Renderers, fs: FileSystem, path: string)
    ensures DiscernType(libs, fs, path) == DiscernType(WithRenderers(libs, r), fs, path)
  {
    var other := WithRenderers(libs, r);
    assert TablesOf(other) == TablesOf(libs);
    assert other.hasMagic == libs.hasMagic && other.magic(fs, path) == libs.magic(fs, path);
  }

  /**
   * In simple mode no markup renderer and no pygments call is made: the
   * outcome is the same whatever the renderers, the lexers, the highlighter
   * and pygments' availability are, and nothing rendered carries a style.
   */
  lemma {:induction false} SimpleIgnoresRenderers(s: Settings, r: Renderers, fs: FileSystem, fuel: nat, ctype: Option<string>, path: string)
    requires s.simple
    ensures Dispatch(s, fs, fuel, ctype, path) == Dispatch(s.(libs := WithRenderers(s.libs, r)), fs, fuel, ctype, path)
    ensures Dispatch(s, fs, fuel, ctype, path).Rendered? ==> Dispatch(s, fs, fuel, ctype, path).style == ""
    decreases fuel
  {
    var s' := s.(libs := WithRenderers(s.libs, r));
    assert s'.simple && s'.root == s.root && s'.cwd == s.cwd;
    SimpleMarkupAlike(s, s', fs, ctype, path);
    if ctype == Some(SYMLINK) && path in fs.links {
      var realpath := AbsPath(fs.links[path], s.cwd);
      if InJail(s, realpath) && fuel > 0 {
        DiscoveryIgnoresRenderers(s.libs, r, fs, realpath);
        SimpleIgnoresRenderers(s, r, fs, fuel - 1, DiscernType(s.libs, fs, realpath), realpath);
      }
    }
  }

  /** In simple mode the markup block renders nothing, under either of two settings. */
  lemma SimpleMarkupAlike(s: Settings, s': Settings, fs: FileSystem, ctype: Option<string>, path: string)
    requires s.simple && s'.simple
    ensures Markup(s, fs, ctype, path) == NoRender == Markup(s', fs, ctype, path)
  {
  }

  // ---------------------------------------------------------------------
  // Special types
  // ---------------------------------------------------------------------

  /**
   * A directory is always its listing and an empty file always the fixed
   * notice, before any renderer is considered: neither depends on simple
   * mode, the libraries or the remaining stack.
   */
  lemma SpecialTypesShortCircuit(s: Settings, s': Settings, fs: FileSystem, fuel: nat, fuel': nat, path: string)
    requires s.root == s'.root && s.cwd == s'.cwd
    ensures Dispatch(s, fs, fuel, Some(DIRECTORY), path)
      == if path in fs.listing then Rendered(Listing(RelPath(path, s.root, s.cwd), fs.listing[path]), "text/html", "") else Abort(SERVER_ERROR)
    ensures Dispatch(s, fs, fuel, Some(DIRECTORY), path) == Dispatch(s', fs, fuel', Some(DIRECTORY), path)
    ensures Dispatch(s, fs, fuel, Some(EMPTY), path) == Rendered(EMPTY_FILE, "text/html", "")
    ensures Dispatch(s, fs, fuel, Some(EMPTY), path) == Dispatch(s', fs, fuel', Some(EMPTY), path)
  {
    TypeLabels();
  }

  /** In simple mode every type but the three special ones renders nothing, so the view falls back. */
  lemma SimpleRendersNothing(s: Settings, fs: FileSystem, fuel: nat, t: string, path: string)
    requires s.simple && t != SYMLINK && t != DIRECTORY && t != EMPTY
    ensures Dispatch(s, fs, fuel, Some(t), path) == NoRender
  {
    assert Markup(s, fs, Some(t), path) == NoRender;
  }

  /** A path with no type is no special case, and neither a markup renderer nor pygments renders it. */
  lemma UntypedRendersNothing(s: Settings, fs: FileSystem, fuel: nat, path: string)
    ensures Dispatch(s, fs, fuel, None, path) == NoRender
  {
    assert Markup(s, fs, None, path) == NoRender;
  }

  /** Outside simple mode, with markdown installed, a readable markdown file is rendered by markdown with its wiki-link base. */
  lemma MarkdownRenders(s: Settings, fs: FileSystem, fuel: nat, path: string)
    requires !s.simple && s.libs.hasMarkdown && path in fs.contents
    ensures Dispatch(s, fs, fuel, Some(MARKDOWN), path)
      == Rendered(s.libs.markdown(fs.contents[path], WikiBase(s, path)), "text/html", "")
  {
    MarkupTypeReachesMarkup(s, fs, fuel, MARKDOWN, path);
    assert Markup(s, fs, Some(MARKDOWN), path)
      == RenderFile(fs, path, text => s.libs.markdown(text, WikiBase(s, path)));
  }

  /** A markup type is no special case: dispatch hands it straight to the markup block. */
  lemma MarkupTypeReachesMarkup(s: Settings, fs: FileSystem, fuel: nat, t: string, path: string)
    requires t == MARKDOWN || t == CREOLE || t == TEXTILE || t == RST
    ensures Dispatch(s, fs, fuel, Some(t), path) == Markup(s, fs, Some(t), path)
  {
    TypeLabels();
    assert StartsWith(t, "text/");
  }

  /** A directory that cannot be listed is an uncaught error, whatever the settings. */
  lemma UnlistedDirectoryFails(s: Settings, fs: FileSystem, fuel: nat, path: string)
    requires path !in fs.listing
    ensures Dispatch(s, fs, fuel, Some(DIRECTORY), path) == Abort(SERVER_ERROR)
  {
    TypeLabels();
  }

  /** text/html is not special: it falls through to the markup block, so pygments highlights it when installed. */
  lemma HtmlFallsThrough(s: Settings, fs: FileSystem, fuel: nat, path: string)
    ensures Dispatch(s, fs, fuel, Some("text/html"), path) == Markup(s, fs, Some("text/html"), path)
  {
    TypeLabels();
  }

  // ---------------------------------------------------------------------
  // Symbolic links
  // ---------------------------------------------------------------------

  /** A link whose target normalises outside the jail is refused with 401, however deep the stack. */
  lemma SymlinkEscapeDenied(s: Settings, fs: FileSystem, fuel: nat, path: string)
    requires IsAbs(s.cwd) && path in fs.links
    requires !StartsWith(AbsPath(fs.links[path], s.cwd), s.root)
    ensures Dispatch(s, fs, fuel, Some(SYMLINK), path) == Abort(ACCESS_DENIED)
  {
    AbsPathIdempotent(fs.links[path], s.cwd);
  }

  /**
   * A link whose target stays in the jail is dispatched again on the
   * target, with the target's own type; what that produces is the answer,
   * and only when it produces nothing does the link itself reach the markup
   * block, still typed as a link.
   */
  lemma SymlinkFollows(s: Settings, fs: FileSystem, fuel: nat, path: string)
    requires IsAbs(s.cwd) && path in fs.links && fuel > 0
    requires StartsWith(AbsPath(fs.links[path], s.cwd), s.root)
    ensures var target := AbsPath(fs.links[path], s.cwd);
      var inner := Dispatch(s, fs, fuel - 1, DiscernType(s.libs, fs, target), target);
      Dispatch(s, fs, fuel, Some(SYMLINK), path) == if inner != NoRender then inner else Markup(s, fs, Some(SYMLINK), path)
  {
    AbsPathIdempotent(fs.links[path], s.cwd);
  }

  /** A link to a directory inside the jail shows the target directory's listing, with links relative to the target. */
  lemma SymlinkToDirectory(s: Settings, fs: FileSystem, fuel: nat, path: string)
    requires IsAbs(s.cwd) && path in fs.links && fuel > 0
    requires var target := AbsPath(fs.links[path], s.cwd);
      StartsWith(target, s.root) && DiscernType(s.libs, fs, target) == Some(DIRECTORY) && target in fs.listing
    ensures var target := AbsPath(fs.links[path], s.cwd);
      Dispatch(s, fs, fuel, Some(SYMLINK), path)
        == Rendered(Listing(RelPath(target, s.root, s.cwd), fs.listing[target]), "text/html", "")
  {
    var target := AbsPath(fs.links[path], s.cwd);
    SymlinkFollows(s, fs, fuel, path);
    SpecialTypesShortCircuit(s, s, fs, fuel - 1, fuel - 1, target);
  }

  /** A page directly under the root gives markdown the wiki-link base "/view//": its directory is empty. */
  lemma TopLevelWikiBase(s: Settings, path: string)
    requires '/' !in RelPath(path, s.root, s.cwd)
    ensures WikiBase(s, path) == "/view//"
  {
    DirnameOfName(RelPath(path, s.root, s.cwd));
    assert WikiBase(s, path) == "/view/" + "" + "/";
    RootBase();
  }

  /** A page in a sub-directory gives markdown that directory as the wiki-link base. */
  lemma NestedWikiBase(s: Settings, path: string, dir: string, name: string)
    requires RelPath(path, s.root, s.cwd) == dir + "/" + name
    requires dir != "" && dir[|dir| - 1] != '/' && '/' !in name
    ensures WikiBase(s, path) == "/view/" + dir + "/"
  {
    DirnameOfChild(dir, name);
  }

  /** The base of a top-level page, spelled out. Stated on its own so that the proofs using it need not prove it amid their larger contexts. */
  lemma RootBase()
    ensures "/view/" + "" + "/" == "/view//"
  {
  }
}
