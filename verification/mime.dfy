/**
 * Type discovery (serve.py, discern_type): the file name's extension is
 * looked up in mimetypes' tables, extended at start-up with the wiki's own
 * registrations, and only when that gives nothing is Magic asked, if it is
 * installed.
 */
module Mime {
  import opened Text
  import opened Paths
  import opened Env

  /**
   * What mimetypes knows once the wiki has started: its own tables and
   * which markup formats registered their extensions.
   */
  datatype Tables = Tables(
    baseTypes: map<string, string>,
    commonTypes: map<string, string>,
    suffixMap: map<string, string>,
    encodings: set<string>,
    markdown: bool,
    creole: bool,
    textile: bool,
    docutils: bool)

  function TablesOf(libs: Libraries): Tables {
    Tables(libs.baseTypes, libs.commonTypes, libs.suffixMap, libs.encodings,
           libs.hasMarkdown, libs.hasCreole, libs.hasTextile, libs.hasDocutils)
  }

  /**
   * What the wiki's add_type calls put in the strict table for an
   * extension: each markup format only when its renderer imported, and
   * four common source and text formats always. The extensions are
   * distinct, so the order of the calls does not matter. Every registered
   * type is truthy, so a registered extension never reaches Magic.
   */
  function Registration(t: Tables, ext: string): (r: Option<string>)
    ensures r.Some? ==> r.value != ""
    ensures ext == ".pl" || ext == ".c" || ext == ".h" || ext == ".org" ==> r.Some?
    ensures r == Some("text/x-markdown") ==> t.markdown && (ext == ".md" || ext == ".markdown")
    ensures r == Some("text/x-creole") ==> t.creole
    ensures r == Some("text/x-textile") ==> t.textile
    ensures r == Some("text/x-restructured-text") ==> t.docutils
  {
    if t.markdown && (ext == ".md" || ext == ".markdown") then Some("text/x-markdown")
    else if t.creole && ext == ".creole" then Some("text/x-creole")
    else if t.textile && ext == ".textile" then Some("text/x-textile")
    else if t.docutils && ext == ".rst" then Some("text/x-restructured-text")
    else if ext == ".pl" then Some("application/x-perl")
    else if ext == ".c" then Some("text/x-csrc")
    else if ext == ".h" then Some("text/x-chdr")
    else if ext == ".org" then Some("text/plain")
    else None
  }

  /** The strict table after the registrations: a registration replaces what the table had for its extension. */
  function Strict(t: Tables, ext: string): Option<string> {
    if Registration(t, ext).Some? then Registration(t, ext)
    else if ext in t.baseTypes then Some(t.baseTypes[ext])
    else None
  }

  /** The non-strict table of common but unofficial types. */
  function Common(t: Tables, ext: string): Option<string> {
    if ext in t.commonTypes then Some(t.commonTypes[ext]) else None
  }

  /** ASCII lower case, as str.lower on a byte string. */
  function LowerChar(c: char): char {
    if 'A' <= c <= 'Z' then (c as int - 'A' as int + 'a' as int) as char else c
  }

  function Lower(s: string): string {
    seq(|s|, i requires 0 <= i < |s| => LowerChar(s[i]))
  }

  /** posixpath.splitext: the part before the extension and the extension. */
  function SplitExt(p: string): (r: (string, string))
    ensures r.0 + r.1 == p && r.1 == Extension(p)
  {
    var e := Extension(p);
    (p[..|p| - |e|], e)
  }

  /**
   * The extension mimetypes types a path by: one rewrite through the suffix
   * map, then, when that extension names a compression, the one before it.
   */
  function TypedExtension(t: Tables, path: string): string {
    var (base0, ext0) := SplitExt(path);
    var (base, ext) := if ext0 in t.suffixMap then SplitExt(base0 + t.suffixMap[ext0]) else (base0, ext0);
    if ext in t.encodings then Extension(base) else ext
  }

  /**
   * mimetypes.guess_type(path, strict=False)[0]: the extension as written,
   * then lower-cased, in the strict table with the registrations, and only
   * when both miss, the same two in the non-strict table; None when all
   * four miss. A registration therefore wins over everything else.
   */
  function Guess(t: Tables, path: string): (r: Option<string>)
    ensures var ext := TypedExtension(t, path);
      && (r == None <==> Strict(t, ext) == None && Strict(t, Lower(ext)) == None
                         && Common(t, ext) == None && Common(t, Lower(ext)) == None)
      && (Registration(t, ext).Some? ==> r == Registration(t, ext))
      && (Strict(t, ext).Some? ==> r == Strict(t, ext))
      && (Strict(t, ext) == None && Strict(t, Lower(ext)).Some? ==> r == Strict(t, Lower(ext)))
      && (r.Some? && Strict(t, ext) == None && Strict(t, Lower(ext)) == None ==>
            r == Common(t, ext) || r == Common(t, Lower(ext)))
  {
    var ext := TypedExtension(t, path);
    if Strict(t, ext).Some? then Strict(t, ext)
    else if Strict(t, Lower(ext)).Some? then Strict(t, Lower(ext))
    else if Common(t, ext).Some? then Common(t, ext)
    else Common(t, Lower(ext))
  }

  /** The type guessed from the name with the installed libraries' tables. */
  function GuessType(libs: Libraries, path: string): Option<string> {
    Guess(TablesOf(libs), path)
  }

  /** Python truthiness of an optional string: None and "" are false. */
  predicate Truthy(t: Option<string>) {
    t.Some? && t.value != ""
  }

  /**
   * discern_type: Magic is consulted only when the extension gives no type
   * and Magic is installed; otherwise the extension's answer, None included,
   * is the result.
   */
  function DiscernType(libs: Libraries, fs: FileSystem, path: string): (r: Option<string>)
    ensures Truthy(GuessType(libs, path)) || !libs.hasMagic ==> r == GuessType(libs, path)
    ensures !Truthy(GuessType(libs, path)) && libs.hasMagic ==> r == Some(libs.magic(fs, path))
    ensures r == None ==> !libs.hasMagic && GuessType(libs, path) == None
  {
    var t := GuessType(libs, path);
    if !Truthy(t) && libs.hasMagic then Some(libs.magic(fs, path)) else t
  }

  /** An extension as splitext finds it: a dot followed by a non-empty name without dots or separators. */
  predicate PlainExtension(e: string) {
    |e| >= 2 && e[0] == '.' && forall k :: 1 <= k < |e| ==> e[k] != '.' && e[k] != '/'
  }

  /** A plain extension appended to a stem that ends in an ordinary character is the path's extension. */
  lemma ExtensionOf(stem: string, e: string)
    requires PlainExtension(e)
    requires stem != "" && stem[|stem| - 1] != '/' && stem[|stem| - 1] != '.'
    ensures Extension(stem + e) == e
    ensures SplitExt(stem + e) == (stem, e)
  {
    var p := stem + e;
    var sep := LastIndexOf(p, '/');
    var dot := LastIndexOf(p, '.');
    assert p[|stem|] == '.';
    assert forall k :: |stem| - 1 <= k < |p| ==> p[k] != '/';
    assert dot == |stem|;
    assert sep < |stem| - 1;
    assert sep + 1 <= |stem| - 1 < dot && p[|stem| - 1] != '.';
    assert p[dot..] == e;
  }

  /**
   * A file named with a registered extension is typed by the registration,
   * whatever mimetypes' own table says and whether or not Magic is
   * installed, unless that extension is a compression or suffix alias.
   */
  lemma RegisteredExtension(libs: Libraries, fs: FileSystem, stem: string, e: string, t: string)
    requires Registration(TablesOf(libs), e) == Some(t) && t != "" && PlainExtension(e)
    requires e !in libs.suffixMap && e !in libs.encodings
    requires stem != "" && stem[|stem| - 1] != '/' && stem[|stem| - 1] != '.'
    ensures DiscernType(libs, fs, stem + e) == Some(t)
  {
    ExtensionOf(stem, e);
    assert TypedExtension(TablesOf(libs), stem + e) == e;
  }

  /** With markdown installed, a ".md" file is typed text/x-markdown. */
  lemma MarkdownFiles(libs: Libraries, fs: FileSystem, stem: string, e: string)
    requires libs.hasMarkdown && e == ".md"
    requires e !in libs.suffixMap && e !in libs.encodings
    requires stem != "" && stem[|stem| - 1] != '/' && stem[|stem| - 1] != '.'
    ensures DiscernType(libs, fs, stem + e) == Some("text/x-markdown")
  {
    assert PlainExtension(e) by { assert e[1] == 'm' && e[2] == 'd'; }
    assert Registration(TablesOf(libs), e) == Some("text/x-markdown");
    RegisteredExtension(libs, fs, stem, e, "text/x-markdown");
  }
}
