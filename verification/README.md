# valet: the request pipeline of a directory-tree wiki, in Dafny

valet (`serve.py`) serves a directory tree over HTTP as a wiki. Its core is
the path from a request to a response:

- `check_path` joins the request path onto the root. It refuses the joined
  path with 401 unless the normalised form starts with the root, and with 404
  unless the path exists.
- `discern_type` asks `mimetypes` for the file's type by its extension. The
  table is extended at start-up with the wiki's own registrations. Only when
  that gives nothing is Magic asked.
- `dispatch` handles the special types. A symbolic link is followed after its
  target is checked against the jail. A directory becomes a listing, and an
  empty file becomes a fixed notice. Outside simple mode, markup is rendered
  by the first installed renderer for the type, and otherwise pygments
  highlights the file.
- `render_navbar`, `render_edit_link`, `render_raw_link` and `render_dir`
  build the page furniture.
- `view`, `edit` and `post` are the three request handlers.

Modules:

- `Text` has the string operations Python gives the code: `startswith`, `split`
  and `join`.
- `Paths` models `posixpath`: `join`, `normpath`, `abspath`, `relpath`,
  `dirname` and `splitext`.
- `Env` holds the settings, the optional libraries and the filesystem.
- `Resolver` is `check_path`.
- `Mime` is the type discovery.
- `Pages` is the navigation bar, the links and the directory listing.
  `RenderNavbar` and `RenderDir` are loops proved equal to the functions that
  specify their output.
- `Dispatcher` is `dispatch`.
- `Handlers` holds `view`, `edit` and `post`.

## How the model represents the source

- **Control flow.** The source ends a request by raising
  `ContentReadyException` or calling `abort`. Here `Dispatch` returns an
  `Outcome` instead (`NoRender`, `Rendered` or `Abort`), and the handlers
  return a `Response`.
- **Uncaught exceptions.** Bottle turns an uncaught exception into a server
  error, so each one becomes the 500 code. These are:
  - a failed `readlink`, `listdir` or `open`;
  - `ctype.startswith` on a missing type;
  - writing a missing form field;
  - the interpreter's recursion limit.
- **The filesystem** is a value keyed by the exact path strings the code hands
  to the OS:
  - `existing`: the paths that exist;
  - `dirs`: the paths `os.path.isdir` accepts. A directory that cannot be
    listed is among them but has no `listing` entry;
  - `contents`: the readable files;
  - `listing`: the directories and their entries;
  - `links`: the symbolic links and their targets.
- **Post.** `post` is a function from a filesystem to the filesystem after the
  request.

Three consequences of the source's own code:

- The jail is a string prefix, not directory containment. With root
  `/srv/wiki`, the request `../wiki2/notes` is accepted (`SiblingPassesJail`).
- The raw view streams any non-directory before `dispatch` runs. A symbolic
  link whose target lies outside the jail is refused by the plain view but
  streamed by the raw one (`RawSkipsLinkCheck`).
- `text/html` is not a special type. The `pass` on its branch falls through to
  the markup block, so pygments highlights HTML files when it is installed
  (`HtmlFallsThrough`).

Four further facts of the code, which the model keeps:

- **Symbolic links.** The code has no bound of its own on link-following.
  A cycle the OS itself sees fails `os.path.exists` and gets 404 from the
  check (`serve.py:81`). But `dispatch` resolves a relative link target
  against the working directory, not against the link's own directory
  (`serve.py:95`), so a chain that exists only through that resolution can
  keep `dispatch` recursing until the interpreter's recursion limit raises
  an uncaught error, which is a 500. `Settings.stackRoom` stands for the room
  left on the interpreter's stack. It is not a depth limit of the wiki.
- **Read-only mode.** The code parses `--readonly` but never reads it, so the
  edit link is always rendered and edits are always accepted. The model has no
  read-only mode.
- **Directory pages.** The template renders the edit and raw links on every
  page, directories included.
- **Failures.** A missing type fails `view` and `edit` with an uncaught error
  (500), except that the raw view of a non-directory streams the file before
  its type is looked at (`UntypedView`). Of the renderers' failures, only pygments' "no lexer" is recovered.

## Model

| member | source | states |
|---|---|---|
| Text.Split | serve.py:150 | `split('/')` gives at least one piece, and no piece holds the separator |
| Text.JoinSplit | serve.py:150-165 | joining the pieces of a split with the same separator gives back the string |
| Text.SplitJoin | serve.py:150-165 | splitting the join of separator-free pieces gives back the pieces |
| Paths.Join | serve.py:78 | `os.path.join` ends with its second argument; the result is absolute iff either argument is |
| Paths.NormPath | serve.py:79 | `normpath` never gives "" and keeps an absolute path absolute |
| Paths.Step | serve.py:79 | one turn of normpath's loop keeps the component list canonical (no "", no ".", no ".." once absolute) and grows it by at most one |
| Paths.Fold | serve.py:79 | normpath's loop over all components gives a canonical list no longer than the start and the components together |
| Paths.AbsPath | serve.py:79 | `abspath` never gives "" and is absolute when the working directory is |
| Paths.AbsPathIdempotent | serve.py:95-96 | `abspath` applied twice, as the link check does, equals applying it once |
| Paths.RelPath | serve.py:150 | `relpath` is non-empty and relative, and never ends in a separator |
| Paths.RelPathRoundTrip | serve.py:167-171 | a relative path from `relpath`, joined back onto its start and normalised, has the original path's components |
| Paths.Dirname | serve.py:110 | `dirname` is a prefix of its argument |
| Paths.DirnameOfName | serve.py:110 | `dirname` of a path without separators is "" |
| Paths.DirnameOfChild | serve.py:110 | `dirname` of "d/f" is d, when d does not end in a separator and f holds none |
| Paths.Extension | serve.py:87 | the extension `splitext` finds is empty, or it starts with a dot, ends the path and holds no separator |
| Paths.JoinStaysUnder | serve.py:78-79 | a relative path without ".." joined onto a normalised absolute root normalises to a path that starts with the root |
| Paths.ClimbNormalises | serve.py:78-79 | k ".." components and then names, joined onto a root made of names, climb k levels (never above "/") and then descend into the names |
| Paths.JoinExtend | serve.py:178 | joining onto a relative path extended by "/" and a name extends the join the same way |
| Paths.ExtendSegments | serve.py:178-179 | appending "/" and a name to a path appends the name to its normalised components |
| Resolver.CheckPath | serve.py:76-83 | 401 iff the normalised joined path does not start with the root; 404 iff it passes but does not exist; otherwise the joined path as written |
| Resolver.EmptyPathIsRoot | serve.py:77-83 | a missing or empty request path resolves to the root itself, or 404 if the root is missing |
| Resolver.PlainPathsPass | serve.py:78-83 | a relative request without ".." components is never refused by the jail |
| Resolver.EscapeIsDenied | serve.py:78-80 | "../../etc/passwd" under "/srv/wiki" normalises to "/etc/passwd" and is refused with 401 whether or not it exists |
| Resolver.SiblingPassesJail | serve.py:78-83 | "../wiki2/notes" under "/srv/wiki" normalises to "/srv/wiki2/notes" and is accepted, since the jail is a string prefix |
| Mime.SplitExt | serve.py:87 | `splitext` splits a path into a stem and the extension, which concatenate back to the path |
| Mime.Registration | serve.py:25-64 | the wiki's `add_type` calls: each registered type is truthy; ".pl", ".c", ".h" and ".org" are always registered; a markup type is registered only when its renderer imported |
| Mime.Guess | serve.py:87 | `guess_type(strict=False)`: the extension is looked up as written, then lower-cased, first in the strict table with the wiki's registrations, then in the common table; a registration or a strict entry wins, the common table answers only when the strict one has neither form, and the result is None iff all four lookups miss |
| Mime.DiscernType | serve.py:86-90 | Magic is asked exactly when the extension gives no truthy type and Magic is installed; otherwise the extension's answer is the result, and None only without Magic |
| Mime.RegisteredExtension | serve.py:27-64 | a file with a registered extension is typed by the registration, whatever the base table says and whether or not Magic is installed |
| Mime.MarkdownFiles | serve.py:25-28 | with markdown installed, a ".md" file is typed text/x-markdown |
| Pages.Visible | serve.py:154-155 | the components that get a crumb are exactly those other than "." |
| Pages.Crumbs | serve.py:154-159 | Home first, then one crumb per visible component |
| Pages.RenderNavbar | serve.py:149-165 | the loops build exactly the navigation bar over the components of the path relative to the root |
| Pages.RenderCrumbs | serve.py:150-165 | the two loops over the components and the crumbs build the bar: every crumb but the last as a link, joined by " > " |
| Pages.CrumbChain | serve.py:154-159 | each crumb after Home shows its component and links to the previous crumb's target extended by "/" and that component |
| Pages.VisibleKeepsAll | serve.py:154-157 | without "." components, every component gets a crumb, in order |
| Pages.NavbarAtRoot | serve.py:149-165 | a page that normalises to the root shows only the bare Home label |
| Pages.NavbarOneDeep | serve.py:149-165 | a page one component below the root shows a link to Home, then its own name |
| Pages.EditLink | serve.py:167-168 | the edit link names the page by its path relative to the root, which is non-empty and relative and, joined back onto the root, normalises to the page's own components |
| Pages.RawLink | serve.py:170-171 | the raw link names the page by the same relative path, `?raw` appended, and that path leads back to the page in the same way |
| Pages.Shown | serve.py:175-176 | the listing shows exactly the entries other than ".git", ".svn", ".hg" and "CVS" |
| Pages.RenderDir | serve.py:173-181 | the loop builds exactly the listing of the shown entries, in directory order, inside `<UL>` |
| Pages.ShownAppend | serve.py:175-176 | filtering distributes over concatenation, so the listing keeps the directory's order |
| Pages.ShownKeepsAll | serve.py:175-176 | a directory without version-control entries is listed whole, in order |
| Pages.Item | serve.py:177-179 | a list item links under `/view/` and its text is the entry's name as listed, ending the line |
| Pages.ItemLink | serve.py:177-179 | each entry links to the directory's relative path, one "/" and the entry's name |
| Pages.Listing | serve.py:173-181 | the listing is one `<UL>` list, empty when every entry is a version-control directory |
| Pages.ListingLinksLead | serve.py:177-179 | each listing link, joined back onto the root, normalises to the directory's components followed by the entry's name |
| Dispatcher.Dispatch | serve.py:93-144 | whatever dispatch renders is HTML, and it aborts only with 401 or 500 |
| Dispatcher.Highlight | serve.py:131-144 | pygments renders nothing iff the type is missing or has no lexer, or gives only the text lexer and the file name has none; what it renders is HTML with the formatter's style |
| Dispatcher.Markup | serve.py:107-144 | nothing in simple mode, nor without pygments for a type no markup renderer handles; what it renders is HTML styled only by pygments; it fails (500) only on a file it cannot read |
| Dispatcher.MarkupChain | serve.py:107-130 | outside simple mode, a type with an installed markup renderer is rendered by that renderer alone with no style; any other type goes to pygments if installed, otherwise nothing |
| Dispatcher.SimpleIgnoresRenderers | serve.py:107 | in simple mode no renderer or highlighter is consulted: the outcome is the same for any renderers, and nothing rendered has a style |
| Dispatcher.DiscoveryIgnoresRenderers | serve.py:86-90 | the type of a file does not depend on the renderers, lexers or highlighter |
| Dispatcher.SpecialTypesShortCircuit | serve.py:100-103 | a directory is always its listing (500 if unlistable) and an empty file always the fixed notice, whatever the mode, libraries or stack |
| Dispatcher.SimpleRendersNothing | serve.py:93-107 | in simple mode every type other than a link, a directory or an empty file renders nothing, whatever the stack |
| Dispatcher.UntypedRendersNothing | serve.py:93-144 | a path with no type is no special case, and no markup renderer or lexer renders it |
| Dispatcher.UnlistedDirectoryFails | serve.py:100-101 | a directory `os.listdir` refuses is an uncaught error (500) |
| Dispatcher.MarkdownRenders | serve.py:108-118 | outside simple mode with markdown installed, a readable markdown file is rendered by markdown with the wiki-link base of its directory, as HTML without extra style |
| Dispatcher.HtmlFallsThrough | serve.py:104-105 | text/html is not short-circuited: it reaches the markup block |
| Dispatcher.SymlinkEscapeDenied | serve.py:94-97 | a link whose target normalises outside the jail is refused with 401 |
| Dispatcher.SymlinkFollows | serve.py:94-99 | a link inside the jail is dispatched on its target with the target's type; only when that renders nothing does the link reach the markup block |
| Dispatcher.SymlinkToDirectory | serve.py:94-101 | a link to a directory inside the jail shows the target's listing, with links relative to the target |
| Dispatcher.TopLevelWikiBase | serve.py:110-115 | markdown wiki links of a page directly under the root get the base "/view//" |
| Dispatcher.NestedWikiBase | serve.py:110-115 | markdown wiki links of a page in a sub-directory get that directory as their base, "/view/<dir>/" |
| Handlers.View | serve.py:213-229 | a refused path is the check's error; a page or a streamed file is always the resolved path |
| Handlers.Show | serve.py:215-229 | once the path has passed the check, a page or a streamed file always names that path; `RawStreams` and `ViewDispatches` state each of its cases |
| Handlers.RawStreams | serve.py:217-219 | the raw view of a resolved non-directory streams it, whatever its type |
| Handlers.ViewDispatches | serve.py:220-229 | otherwise, in every mode, a rendered outcome becomes a page with dispatch's content, style and type plus the charset; an abort is the response; nothing rendered leads to `Fallback` |
| Handlers.RenderedPage | serve.py:227-229 | a non-raw view shows what dispatch rendered as a page of the resolved path |
| Handlers.UntypedView | serve.py:215-226 | a path with no type fails with 500 in every mode unless it is streamed raw |
| Handlers.UnlistableDirectory | serve.py:217-220 | a directory that cannot be listed fails with 500 in the plain and the raw view alike |
| Handlers.MarkdownView | serve.py:108-118 | outside simple mode with markdown installed, a readable ".md" file is shown as the page markdown renders from its text, with its directory's wiki-link base, no style and the HTML type |
| Handlers.Fallback | serve.py:221-226 | a readable text file is shown inside `<PRE>`; any other known type is streamed; a missing type or an unreadable text file is a 500 |
| Handlers.SimpleViewFallback | serve.py:220-226 | in simple mode a readable text file is shown inside `<PRE>`, and any other ordinary type is streamed |
| Handlers.RawSkipsLinkCheck | serve.py:217-220 | a link whose target escapes the jail is refused (401) by the plain view but streamed by the raw view |
| Handlers.ViewEscapeDenied | serve.py:214 | climbing out of the root is refused with 401 by the plain and the raw view alike |
| Handlers.Edit | serve.py:233-244 | a refused path is the check's error; a page is always the resolved path; edit never streams or redirects |
| Handlers.Editable | serve.py:236 | edit accepts `text/*` and `application/xml`: every markup type is editable, and no special type (directory, link, empty file) is |
| Handlers.EditForm | serve.py:239-243 | the form posts to the request's path and cancels back to its view, and holds the file's text verbatim just before its close |
| Handlers.EditTyped | serve.py:235-244 | once the path has passed the check, edit gives a page naming that path or an error, never a streamed file or a redirect |
| Handlers.EditGate | serve.py:235-244 | 403 iff the type is known and neither text/* nor application/xml; the form is shown iff the type is editable and the file readable, and it holds the file's text |
| Handlers.Post | serve.py:247-251 | a refused path or a directory, listable or not, changes nothing; otherwise the file gets the posted text and the client is redirected to its view, or the file is left empty and the request fails if the field is missing |
| Handlers.PostChangesOnlyTarget | serve.py:248-250 | a post changes the text stored under the target's key and under no other key of the model's map, and never what exists, what lists or what links |
| Handlers.PostKeepsResolution | serve.py:247-251 | after a post, every request path resolves as before |
| Handlers.PostThenEdit | serve.py:233-251 | after a successful post of a file typed by its name, edit shows a form holding the posted text |
| Handlers.PostThenViewSimple | serve.py:213-251 | in simple mode, viewing a text file after a post shows the posted text inside `<PRE>` |

## Left out

- Routing and Bottle itself are not modelled. This covers the route table, the root redirect (`serve.py:207-209`), `static_file`, `redirect` and `response`. A response is the value handed to them.
- The page template (`serve.py:186-202`) is not modelled. A page is its path, body, style and content type; the navigation bar and links it embeds are `Pages.Navbar`, `EditLink` and `RawLink`.
- UTF-8 decoding is not modelled. File text is a decoded string, and a decoding error is not modelled.
- The external libraries are uninterpreted functions: markdown, creole, textile, docutils, pygments and Magic. Magic is a function of the filesystem and the path because it reads the file. An exception raised inside a renderer or inside Magic's `from_file` is not modelled; only pygments' "no lexer" outcome is. For example, `from_file` on a dangling link's target without an extension (`serve.py:89`, reached from `serve.py:99`) raises and gives a 500 in the source, while the model's `magic` always returns a type.
- Only the parts of `mimetypes` that `guess_type` uses on a plain path are modelled. The base tables are parameters. Left out are the `data:` URL handling and the repeated `suffix_map` rewriting: the model applies one rewrite, and in the default table no rewrite leads to another.
- Dispatcher.Dispatch: `stackRoom` stands for the interpreter's recursion limit. The source has no depth limit of its own.
- The abort message texts are left out; only the status codes are kept.
- The "no lexer found" line printed on pygments' ClassNotFound is left out.
- FileSystem: paths are keys as spelled, so the model has no aliasing. A symbolic link and its target, or `x/../y`, `./y` and `y`, are independent keys, while to the OS they name one file. `open` follows links (`serve.py:222`, `serve.py:238`, `serve.py:249`), but in the model reading a link's key does not read its target's text. Only `dispatch` follows a link, through `links`.
- Handlers.Post: writes only the key it was given. In the source, `open(full_path, 'wb')` follows a link, so posting to a link inside the jail (for example `/srv/wiki/l.txt` pointing at `/etc/motd`, typed text/plain by its name) overwrites the target, even outside the jail. The model does not tie the link's key to its target, so `PostChangesOnlyTarget` proves that no other key of the model's map changes, not that no other file does.
- Handlers.Post: only a directory target (any path `os.path.isdir` accepts, listable or not) is modelled as failing to open. Other OS errors on write, such as permissions or a full disk, are left out.
- Concurrent requests are not modelled; each request is a function of one filesystem state.
- Command-line parsing and server start-up (`serve.py:254-268`) are not modelled. The root, simple mode and the libraries are the `Settings` value; the port and the unused `--readonly` flag play no part.
- `tests.py` is not part of this model.
