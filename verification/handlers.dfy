/**
 * The decisions inside the three request handlers of serve.py: view, edit
 * and post. The page template, Bottle's static-file server and its
 * redirect are left as the values they are handed: a page's path, body,
 * style and content type, the file to stream, the location to go to.
 */
module Handlers {
  import opened Text
  import opened Paths
  import opened Env
  import opened Resolver
  import opened Mime
  import opened Pages
  import opened Dispatcher

  const FORBIDDEN := 403

  /** Bottle's content type for a page returned as a string. */
  const HTML_UTF8 := "text/html; charset=UTF-8"

  datatype Response =
    | Page(path: string, body: string, style: string, contentType: string)
    | StaticFile(path: string)
    | Redirect(location: string)
    | Error(code: int)

  /** os.path.isdir: true of a directory even when it cannot be listed. */
  predicate IsDir(fs: FileSystem, path: string) {
    path in fs.dirs
  }

  /**
   * What a view does once no renderer produced a page: readable text is
   * shown preformatted, any other known type is streamed, and a missing
   * type or an unreadable text file is a server error.
   */
  function Fallback(fs: FileSystem, ctype: Option<string>, full: string): (r: Response)
    ensures r.Page? <==> ctype.Some? && StartsWith(ctype.value, "text/") && full in fs.contents
    ensures r.Page? ==> r.path == full && r.body == "<PRE>" + fs.contents[full] + "</PRE>" && r.style == ""
    ensures r.StaticFile? <==> ctype.Some? && !StartsWith(ctype.value, "text/")
    ensures r.StaticFile? ==> r.path == full
    ensures !r.Page? && !r.StaticFile? ==> r == Error(SERVER_ERROR)
  {
    if ctype == None then Error(SERVER_ERROR)
    else if StartsWith(ctype.value, "text/") then
      if full in fs.contents then Page(full, "<PRE>" + fs.contents[full] + "</PRE>", "", HTML_UTF8)
      else Error(SERVER_ERROR)
    else StaticFile(full)
  }

  /** view(short_path), with `raw` telling whether the query string holds "raw". */
  function View(s: Settings, fs: FileSystem, shortPath: Option<string>, raw: bool): (r: Response)
    ensures var check := CheckPath(s, fs, shortPath);
      (check.Denied? ==> r == Error(check.code))
      && (r.Page? || r.StaticFile? ==> check.Resolved? && r.path == check.path)
  {
    match CheckPath(s, fs, shortPath)
    case Denied(code) => Error(code)
    case Resolved(full) => Show(s, fs, full, raw)
  }

  /** What view does with a path that passed the check. */
  function Show(s: Settings, fs: FileSystem, full: string, raw: bool): (r: Response)
    ensures r.Page? || r.StaticFile? ==> r.path == full
  {
    var ctype := DiscernType(s.libs, fs, full);
    if raw && !IsDir(fs, full) then StaticFile(full)
    else
      match Dispatch(s, fs, s.stackRoom, ctype, full)
      case Abort(code) => Error(code)
      case Rendered(content, ct, style) => Page(full, content, style, ct + "; charset=utf-8")
      case NoRender => Fallback(fs, ctype, full)
  }

  /**
   * The types edit accepts: every text type and XML, the wiki's markup
   * formats among them. None of the special types dispatch handles is
   * editable, so a path typed as a directory, a link or an empty file is
   * refused.
   */
  predicate Editable(ctype: string)
    ensures Editable(ctype) ==> ctype != DIRECTORY && ctype != SYMLINK && ctype != EMPTY
    ensures ctype == MARKDOWN || ctype == CREOLE || ctype == TEXTILE || ctype == RST ==> Editable(ctype)
  {
    TypeLabels();
    StartsWith(ctype, "text/") || ctype == "application/xml"
  }

  /** How "%s" prints the optional path: None when the bare route was used. */
  function ShortText(shortPath: Option<string>): string {
    if shortPath == None then "None" else shortPath.value
  }

  /**
   * The edit form: posts to the same path, cancels back to its view, and
   * holds the file's text verbatim just before the form's close.
   */
  function EditForm(shortPath: Option<string>, data: string): (r: string)
    ensures StartsWith(r, FORM_OPEN + ShortText(shortPath) + FORM_BUTTONS + ShortText(shortPath) + FORM_AREA)
    ensures EndsWith(r, data + FORM_CLOSE)
  {
    FORM_OPEN + ShortText(shortPath) + FORM_BUTTONS + ShortText(shortPath) + FORM_AREA + data + FORM_CLOSE
  }

  // The fixed text of the edit form, between the places the path and the file's text go.
  const FORM_OPEN := "<FORM METHOD='POST' ACTION='/post/"
  const FORM_BUTTONS := "' ENCTYPE='multipart/form-data'><INPUT TYPE='submit'><INPUT TYPE='button' VALUE='Cancel' onclick='window.location = \"/view/"
  const FORM_AREA := "\"'><BR><TEXTAREA NAME='data' ROWS=50 COLS=100>"
  const FORM_CLOSE := "</TEXTAREA></FORM>"

  /** edit(short_path) */
  function Edit(s: Settings, fs: FileSystem, shortPath: Option<string>): (r: Response)
    ensures var check := CheckPath(s, fs, shortPath);
      (check.Denied? ==> r == Error(check.code))
      && (r.Page? ==> check.Resolved? && r.path == check.path)
      && !r.StaticFile? && !r.Redirect?
  {
    match CheckPath(s, fs, shortPath)
    case Denied(code) => Error(code)
    case Resolved(full) => EditTyped(fs, shortPath, full, DiscernType(s.libs, fs, full))
  }

  /** What edit does with a path that passed the check, given the type discern_type found for it. */
  function EditTyped(fs: FileSystem, shortPath: Option<string>, full: string, ctype: Option<string>): (r: Response)
    ensures r.Page? ==> r.path == full
    ensures !r.StaticFile? && !r.Redirect?
  {
    if ctype == None then Error(SERVER_ERROR)
    else if !Editable(ctype.value) then Error(FORBIDDEN)
    else if full !in fs.contents then Error(SERVER_ERROR)
    else Page(full, EditForm(shortPath, fs.contents[full]), "", HTML_UTF8)
  }

  /** A response together with the filesystem after the request. */
  datatype Commit = Commit(response: Response, after: FileSystem)

  /**
   * post(short_path): the target is opened for writing, which empties it,
   * then the submitted field is written; a directory cannot be opened, and
   * a missing field fails after the file was emptied.
   */
  function Post(s: Settings, fs: FileSystem, shortPath: string, data: Option<string>): (c: Commit)
    ensures var check := CheckPath(s, fs, Some(shortPath));
      && (check.Denied? ==> c == Commit(Error(check.code), fs))
      && (check.Resolved? && IsDir(fs, check.path) ==> c == Commit(Error(SERVER_ERROR), fs))
      && (check.Resolved? && !IsDir(fs, check.path) ==>
            c.after == fs.(contents := fs.contents[check.path := if data.Some? then data.value else ""])
            && c.response == if data.Some? then Redirect("/view/" + shortPath) else Error(SERVER_ERROR))
  {
    match CheckPath(s, fs, Some(shortPath))
    case Denied(code) => Commit(Error(code), fs)
    case Resolved(full) =>
      if IsDir(fs, full) then Commit(Error(SERVER_ERROR), fs)
      else
        var emptied := fs.(contents := fs.contents[full := ""]);
        match data
        case None => Commit(Error(SERVER_ERROR), emptied)
        case Some(text) => Commit(Redirect("/view/" + shortPath), fs.(contents := fs.contents[full := text]))
  }

  // ---------------------------------------------------------------------
  // View
  // ---------------------------------------------------------------------

  /**
   * In simple mode a file of an ordinary type is never rendered: text is
   * shown preformatted in the page, anything else is streamed as it is.
   */
  lemma SimpleViewFallback(s: Settings, fs: FileSystem, shortPath: Option<string>, t: string)
    requires s.simple
    requires CheckPath(s, fs, shortPath).Resolved?
    requires var full := CheckPath(s, fs, shortPath).path;
      DiscernType(s.libs, fs, full) == Some(t) && t != SYMLINK && t != DIRECTORY && t != EMPTY
    ensures var full := CheckPath(s, fs, shortPath).path;
      && (StartsWith(t, "text/") && full in fs.contents ==>
            View(s, fs, shortPath, false) == Page(full, "<PRE>" + fs.contents[full] + "</PRE>", "", HTML_UTF8))
      && (!StartsWith(t, "text/") ==> View(s, fs, shortPath, false) == StaticFile(full))
  {
    var full := CheckPath(s, fs, shortPath).path;
    assert View(s, fs, shortPath, false) == Show(s, fs, full, false);
    SimpleRendersNothing(s, fs, s.stackRoom, t, full);
    assert Show(s, fs, full, false) == Fallback(fs, Some(t), full);
  }

  /** The raw view of anything but a directory streams it, before its type is looked at. */
  lemma RawStreams(s: Settings, fs: FileSystem, shortPath: Option<string>)
    requires CheckPath(s, fs, shortPath).Resolved?
    requires !IsDir(fs, CheckPath(s, fs, shortPath).path)
    ensures View(s, fs, shortPath, true) == StaticFile(CheckPath(s, fs, shortPath).path)
  {
  }

  /**
   * Whenever the view dispatches (it is not the raw view of a non-directory),
   * a page rendered by dispatch is shown with dispatch's content, style and
   * type, an abort is the response, and nothing rendered leads to the
   * fallback, in every mode.
   */
  lemma ViewDispatches(s: Settings, fs: FileSystem, shortPath: Option<string>, raw: bool)
    requires CheckPath(s, fs, shortPath).Resolved?
    requires var full := CheckPath(s, fs, shortPath).path; !(raw && !IsDir(fs, full))
    ensures var full := CheckPath(s, fs, shortPath).path;
      var ctype := DiscernType(s.libs, fs, full);
      match Dispatch(s, fs, s.stackRoom, ctype, full)
      case Rendered(content, ct, style) => View(s, fs, shortPath, raw) == Page(full, content, style, ct + "; charset=utf-8")
      case Abort(code) => View(s, fs, shortPath, raw) == Error(code)
      case NoRender => View(s, fs, shortPath, raw) == Fallback(fs, ctype, full)
  {
  }

  /**
   * A path no type is found for fails with 500 unless it is streamed raw:
   * no special type, renderer or lexer applies to it, and the fallback's
   * type test then fails.
   */
  lemma UntypedView(s: Settings, fs: FileSystem, shortPath: Option<string>, raw: bool)
    requires CheckPath(s, fs, shortPath).Resolved?
    requires var full := CheckPath(s, fs, shortPath).path;
      DiscernType(s.libs, fs, full) == None && !(raw && !IsDir(fs, full))
    ensures View(s, fs, shortPath, raw) == Error(SERVER_ERROR)
  {
    var full := CheckPath(s, fs, shortPath).path;
    UntypedRendersNothing(s, fs, s.stackRoom, full);
  }

  /**
   * A directory that cannot be listed fails with 500 in the plain and the
   * raw view alike: the raw view does not stream a directory, and dispatch
   * cannot list it.
   */
  lemma UnlistableDirectory(s: Settings, fs: FileSystem, shortPath: Option<string>, raw: bool)
    requires CheckPath(s, fs, shortPath).Resolved?
    requires var full := CheckPath(s, fs, shortPath).path;
      IsDir(fs, full) && full !in fs.listing && DiscernType(s.libs, fs, full) == Some(DIRECTORY)
    ensures View(s, fs, shortPath, raw) == Error(SERVER_ERROR)
  {
    var full := CheckPath(s, fs, shortPath).path;
    UnlistedDirectoryFails(s, fs, s.stackRoom, full);
  }

  /**
   * Outside simple mode, with markdown installed, a readable ".md" file is
   * shown as the page markdown renders from its text, with the wiki-link
   * base of its directory, no extra style and the HTML type.
   */
  lemma MarkdownView(s: Settings, fs: FileSystem, shortPath: Option<string>, stem: string)
    requires !s.simple && s.libs.hasMarkdown
    requires ".md" !in s.libs.suffixMap && ".md" !in s.libs.encodings
    requires stem != "" && stem[|stem| - 1] != '/' && stem[|stem| - 1] != '.'
    requires CheckPath(s, fs, shortPath) == Resolved(stem + ".md") && stem + ".md" in fs.contents
    ensures var full := stem + ".md";
      View(s, fs, shortPath, false)
        == Page(full, s.libs.markdown(fs.contents[full], WikiBase(s, full)), "", "text/html; charset=utf-8")
  {
    var full := stem + ".md";
    MarkdownFiles(s.libs, fs, stem, ".md");
    MarkdownRenders(s, fs, s.stackRoom, full);
    RenderedPage(s, fs, shortPath, full);
    HtmlCharset();
  }

  /** The content type of a rendered page, spelled out, stated apart from the proofs that use it. */
  lemma HtmlCharset()
    ensures "text/html" + "; charset=utf-8" == "text/html; charset=utf-8"
  {
  }

  /** A view that dispatches a non-raw request shows what dispatch rendered. */
  lemma RenderedPage(s: Settings, fs: FileSystem, shortPath: Option<string>, full: string)
    requires CheckPath(s, fs, shortPath) == Resolved(full)
    requires Dispatch(s, fs, s.stackRoom, DiscernType(s.libs, fs, full), full).Rendered?
    ensures var r := Dispatch(s, fs, s.stackRoom, DiscernType(s.libs, fs, full), full);
      View(s, fs, shortPath, false) == Page(full, r.content, r.style, r.ctype + "; charset=utf-8")
  {
  }

  /**
   * A raw view of anything but a directory streams the file without
   * dispatching, so a symbolic link whose target escapes the jail is
   * refused by the plain view but streamed by the raw one.
   */
  lemma RawSkipsLinkCheck(s: Settings, fs: FileSystem, shortPath: Option<string>)
    requires IsAbs(s.cwd)
    requires CheckPath(s, fs, shortPath).Resolved?
    requires var full := CheckPath(s, fs, shortPath).path;
      && !IsDir(fs, full) && full in fs.links
      && DiscernType(s.libs, fs, full) == Some(SYMLINK)
      && !StartsWith(AbsPath(fs.links[full], s.cwd), s.root)
    ensures var full := CheckPath(s, fs, shortPath).path;
      View(s, fs, shortPath, false) == Error(ACCESS_DENIED) && View(s, fs, shortPath, true) == StaticFile(full)
  {
    var full := CheckPath(s, fs, shortPath).path;
    SymlinkEscapeDenied(s, fs, s.stackRoom, full);
  }

  /** Climbing out of the jail is refused before anything else, for the plain and the raw view alike. */
  lemma ViewEscapeDenied(s: Settings, fs: FileSystem, request: string, raw: bool)
    requires s.root == "/srv/wiki" && request == "../../etc/passwd"
    ensures View(s, fs, Some(request), raw) == Error(ACCESS_DENIED)
  {
    EscapeIsDenied(s, fs, request);
  }

  // ---------------------------------------------------------------------
  // Edit
  // ---------------------------------------------------------------------

  /**
   * For a path that resolves, edit refuses with 403 exactly when the type
   * is known and is neither text nor XML, and shows the form exactly when
   * the type is editable and the file can be read.
   */
  lemma EditGate(s: Settings, fs: FileSystem, shortPath: Option<string>)
    requires CheckPath(s, fs, shortPath).Resolved?
    ensures var full := CheckPath(s, fs, shortPath).path;
      var ctype := DiscernType(s.libs, fs, full);
      && (Edit(s, fs, shortPath) == Error(FORBIDDEN) <==> ctype.Some? && !Editable(ctype.value))
      && (Edit(s, fs, shortPath).Page? <==> ctype.Some? && Editable(ctype.value) && full in fs.contents)
      && (Edit(s, fs, shortPath).Page? ==> Edit(s, fs, shortPath).body == EditForm(shortPath, fs.contents[full]))
  {
    var full := CheckPath(s, fs, shortPath).path;
    assert Edit(s, fs, shortPath) == EditTyped(fs, shortPath, full, DiscernType(s.libs, fs, full));
  }

  // ---------------------------------------------------------------------
  // Post
  // ---------------------------------------------------------------------

  /** A post changes the text under the target's key and under no other key of the map, and never what exists or what links where. */
  lemma PostChangesOnlyTarget(s: Settings, fs: FileSystem, shortPath: string, data: string)
    requires CheckPath(s, fs, Some(shortPath)).Resolved?
    ensures var full := CheckPath(s, fs, Some(shortPath)).path;
      var after := Post(s, fs, shortPath, Some(data)).after;
      && after.existing == fs.existing && after.dirs == fs.dirs && after.listing == fs.listing && after.links == fs.links
      && (!IsDir(fs, full) ==> full in after.contents && after.contents[full] == data)
      && (forall q :: q != full ==> (q in after.contents <==> q in fs.contents))
      && (forall q :: q != full && q in fs.contents ==> after.contents[q] == fs.contents[q])
  {
  }

  /** A post leaves every path resolving as it did, so the redirect and later requests reach the same file. */
  lemma PostKeepsResolution(s: Settings, fs: FileSystem, shortPath: string, data: Option<string>, other: Option<string>)
    ensures CheckPath(s, Post(s, fs, shortPath, data).after, other) == CheckPath(s, fs, other)
  {
  }

  /**
   * After a successful post, editing the same path shows a form holding the
   * posted text, provided the file is typed by its name rather than by
   * Magic sniffing the new contents.
   */
  lemma PostThenEdit(s: Settings, fs: FileSystem, shortPath: string, data: string)
    requires CheckPath(s, fs, Some(shortPath)).Resolved?
    requires var full := CheckPath(s, fs, Some(shortPath)).path;
      !IsDir(fs, full) && Truthy(GuessType(s.libs, full)) && Editable(GuessType(s.libs, full).value)
    ensures var full := CheckPath(s, fs, Some(shortPath)).path;
      var c := Post(s, fs, shortPath, Some(data));
      c.response == Redirect("/view/" + shortPath)
      && Edit(s, c.after, Some(shortPath)) == Page(full, EditForm(Some(shortPath), data), "", HTML_UTF8)
  {
    PostKeepsResolution(s, fs, shortPath, Some(data), Some(shortPath));
    var full := CheckPath(s, fs, Some(shortPath)).path;
    var c := Post(s, fs, shortPath, Some(data));
    assert c.response == Redirect("/view/" + shortPath);
    assert c.after.contents[full] == data;
    EditAfterPost(s, c.after, shortPath, full, data);
  }

  /** Editing a resolving path typed by its name, whose file holds `data`, shows the form around `data`. */
  lemma EditAfterPost(s: Settings, after: FileSystem, shortPath: string, full: string, data: string)
    requires CheckPath(s, after, Some(shortPath)) == Resolved(full)
    requires full in after.contents && after.contents[full] == data
    requires Truthy(GuessType(s.libs, full)) && Editable(GuessType(s.libs, full).value)
    ensures Edit(s, after, Some(shortPath)) == Page(full, EditForm(Some(shortPath), data), "", HTML_UTF8)
  {
    var ctype := GuessType(s.libs, full);
    assert DiscernType(s.libs, after, full) == ctype;
    EditShowsForm(after, Some(shortPath), full, ctype.value, data);
    assert Edit(s, after, Some(shortPath)) == EditTyped(after, Some(shortPath), full, ctype);
  }

  /** An editable type and a readable file give the form around the file's text. */
  lemma EditShowsForm(fs: FileSystem, shortPath: Option<string>, full: string, t: string, data: string)
    requires Editable(t) && full in fs.contents && fs.contents[full] == data
    ensures EditTyped(fs, shortPath, full, Some(t)) == Page(full, EditForm(shortPath, data), "", HTML_UTF8)
  {
  }

  /** In simple mode, viewing a text file after a post shows the posted text preformatted. */
  lemma PostThenViewSimple(s: Settings, fs: FileSystem, shortPath: string, data: string)
    requires s.simple
    requires CheckPath(s, fs, Some(shortPath)).Resolved?
    requires var full := CheckPath(s, fs, Some(shortPath)).path;
      !IsDir(fs, full) && Truthy(GuessType(s.libs, full)) && StartsWith(GuessType(s.libs, full).value, "text/")
    ensures var full := CheckPath(s, fs, Some(shortPath)).path;
      var after := Post(s, fs, shortPath, Some(data)).after;
      View(s, after, Some(shortPath), false) == Page(full, "<PRE>" + data + "</PRE>", "", HTML_UTF8)
  {
    var full := CheckPath(s, fs, Some(shortPath)).path;
    var after := Post(s, fs, shortPath, Some(data)).after;
    PostKeepsResolution(s, fs, shortPath, Some(data), Some(shortPath));
    TypeLabels();
    SimpleViewFallback(s, after, Some(shortPath), GuessType(s.libs, full).value);
  }
}
