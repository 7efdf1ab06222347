/**
 * What the request pipeline reads besides the request itself: the process
 * settings (the jail root, the working directory, simple mode), the optional
 * libraries, each of which may be missing, and the filesystem.
 *
 * The libraries are uninterpreted: a markup renderer is a function from the
 * decoded file text to HTML, the highlighter a pair of lexer lookups, a
 * formatter and its style sheet, and Magic a function of the filesystem and
 * the path, because libmagic reads the file it is asked about.
 */
module Env {

  datatype Option<+T> = None | Some(value: T)

  /** A pygments lexer; only the plain-text lexer is told apart from the others. */
  datatype Lexer = TextLexer | NamedLexer(name: string)

  /**
   * The filesystem, keyed by the path strings the code hands to the OS:
   * `existing` holds the paths os.path.exists accepts, `dirs` those
   * os.path.isdir accepts, `contents` the text open() reads from a path,
   * `listing` what os.listdir returns for a directory (in the OS's order),
   * and `links` what os.readlink returns for a symbolic link. A directory
   * that cannot be listed is in `dirs` but not in `listing`. Each spelling of a path is its own key: a link
   * and its target are not tied together except through `links`.
   */
  datatype FileSystem = FileSystem(
    existing: set<string>,
    dirs: set<string>,
    contents: map<string, string>,
    listing: map<string, seq<string>>,
    links: map<string, string>)

  datatype Libraries = Libraries(
    // mimetypes' strict extension table as loaded at start-up, before the wiki's registrations
    baseTypes: map<string, string>,
    // mimetypes' non-strict table of common but unofficial types
    commonTypes: map<string, string>,
    // mimetypes' suffix_map (".tgz" to ".tar.gz") and the keys of its encodings_map (".gz", ".bz2", ...)
    suffixMap: map<string, string>,
    encodings: set<string>,
    hasMagic: bool,
    magic: (FileSystem, string) -> string,
    hasMarkdown: bool,
    // markdown with the wikilinks and codehilite extensions, given the text and the wiki-link base URL
    markdown: (string, string) -> string,
    hasCreole: bool,
    creole: string -> string,
    hasTextile: bool,
    textile: string -> string,
    hasDocutils: bool,
    docutils: string -> string,
    hasPygments: bool,
    // None stands for pygments' ClassNotFound; a missing type never has a lexer, so only a type is looked up
    lexerForMimetype: string -> Option<Lexer>,
    lexerForFilename: string -> Option<Lexer>,
    highlight: (string, Lexer) -> string,
    // HtmlFormatter(style='default').get_style_defs()
    styleDefs: string)

  /**
   * The process-wide configuration: `root` is the jail, `cwd` the directory
   * abspath resolves against, and `stackRoom` how many nested dispatch calls
   * fit on the interpreter's stack before it raises its recursion error.
   */
  datatype Settings = Settings(root: string, cwd: string, simple: bool, libs: Libraries, stackRoom: nat)
}
