# magento2-ls in Dafny

magento2-ls is a language server for Magento 2 projects. It indexes a
project and answers two editor requests: go-to-definition and completion.

It indexes three kinds of file:
- the modules registered by `registration.php` files (modules, libraries, themes);
- the RequireJS aliases and mixins of `requirejs-config.js` files;
- the classes, public methods and constants of PHP files.

It answers the two requests like this:
- **Go-to-definition.** The server finds the item under the cursor: a
  RequireJS component in a JavaScript file, or a class, method, constant or
  template reference in an XML file. It then lists the files (or the PHP
  ranges) that define it, searching the module's `view/<area>` directories
  and the themes in Magento's area fallback order.
- **Completion.** In XML files the server offers class names (module class
  prefixes, then the PHP classes of the typed module), template references
  (module names, then the module's `.phtml` files) and event names.

This project models that core and proves properties of the model.

There are two generations of the index:
- the first-generation `Indexer` object (`src/indexer.rs`), filled by the
  JavaScript indexer;
- the later `State` object (`src/state.rs`). State records which keys
  each file contributed, so re-reading a file first retracts every key
  that file contributed. Retraction is by key: a key that another file
  also contributed, or later overwrote, goes with it.

Both are Dafny classes whose methods update their fields in place. Each
method is proved against a specification function:
- `Provenance` holds the tables, the provenance record, insertion and
  retraction as values.
- `State`'s methods are proved to move its snapshot exactly as those
  functions do.

Go-to-definition and completion are proved against pure functions of the
index and the file system. The finders keep their loops: each loop is
proved to produce the locations of the existing candidates, in order.

How the outside world is represented:
- **The file system** is a set of existing paths.
- **A path** is its sequence of components. `Path::join` splits the joined
  text at `/` and drops empty and `.` components.
- **Glob results** are parameters of type `Path -> seq<Path>`, from a
  directory to what the glob below it yields, in glob order.
- **Tree-sitter parses and queries** are their results: sequences of query
  matches, or nodes with a kind, a text, a span and children.
- **Hash-map iteration order** is unspecified in Rust. It is a ghost
  out-parameter that enumerates the map's keys exactly once.
- **Threads, locking, `eprintln!` and URL conversion** are not modelled.

Files:
- `text.dfy`: `Options`, and `Text`, the string operations of Rust's standard library that the code uses.
- `paths.dfy`: `Paths`, the `PathBuf` operations.
- `ts.dfy`: `Ts`, from `src/ts.rs`.
- `m2.dfy`: `M2`, from `src/m2.rs`.
- `js.dfy` (`Js`) and `js_index.dfy` (`JsIndex`): from `src/js.rs`.
- `xml.dfy`: `Xml`, from `src/xml.rs`.
- `php.dfy`: `Php`, from `src/php.rs`.
- `indexer.dfy`: `Indexing`, from `src/indexer.rs`.
- `provenance.dfy` (`Provenance`), `state.dfy` (`Store`) and `listing.dfy` (`Listing`): from `src/state.rs`.
- `locations.dfy` (`Locations`) and `candidates.dfy` (`Candidates`): the candidate-then-`path_to_location` pattern of `src/lsp/definition*`.
- `definition_phtml.dfy`, `definition_component.dfy`, `definition_php.dfy` and `definition.dfy`: from `src/lsp/definition/*.rs` and `src/lsp/definition.rs`.
- `completion.dfy`: `Completion`, from `src/lsp/completion.rs`.

## Model

| member | source | states |
|---|---|---|
| Ts.U32 | src/ts.rs:7-12 | the `as u32` cast: below 2^32 a value is unchanged; otherwise it is reduced modulo 2^32 and lands below 2^32 |
| Ts.GetRangeFromNode | src/ts.rs:4-15 | the node's start and end rows and columns become the range's lines and characters, each cast to 32 bits |
| Ts.NodeAtPosition | src/ts.rs:21-34 | the three early rejections: a line outside the node's rows, before the start column on the first row, after the end column on the last row; a line strictly between is accepted |
| Ts.NodeAtPositionIsInRange | src/ts.rs:21-34 | the test holds exactly when the position lies in the node's range, both ends included, ordered by line then character |
| M2.PathCandidates | src/m2.rs:28-34 | only `frontend`, `adminhtml` and `base` occur, none twice, and `base` comes last; frontend holds `frontend` but not `adminhtml`, adminhtml the reverse; base has all three, in the order `frontend`, `adminhtml`, `base`; two entries for the other areas |
| M2.LowerArea | src/m2.rs:36-41 | frontend and adminhtml fall back to base; base falls back to nothing |
| M2.Append | src/m2.rs:64-70 | joining each part in turn yields the path followed by the parts' components |
| M2.PartsComponentsOfNames | src/m2.rs:64-70 | plain names are appended as one component each, in the given order |
| M2.AppendExt | src/m2.rs:72-86 | `.ext` is added after the whole file name, whether or not it already has an extension; the directories are unchanged |
| M2.AppendExtCart | src/m2.rs:211-218 | the repository's unit test: `.../Block/Cart` with `php` becomes `.../Block/Cart.php` |
| M2.GetExt | src/m2.rs:141-147 | the lower-cased extension, or "" when there is none; never holds an upper-case letter |
| M2.HasComponents | src/m2.rs:119-139 | the scan as written accepts exactly when the parts follow, contiguously, the FIRST component equal to the first part |
| M2.HasComponentsExamples | src/m2.rs:187-209 | the repository's four unit tests of `has_components` on `app/code/Magento/Checkout/Block/Cart.php` |
| M2.FirstRunIsRun | src/m2.rs:119-139 | whatever the scan accepts is a genuine contiguous run of the parts |
| M2.FirstRunMissesLaterRun | src/m2.rs:119-139 | a `view/frontend` run after an earlier unrelated `view` component is not recognised by the scan as written |
| M2.HasRunFrom | src/m2.rs:119-139 | corrected test: true exactly when the parts occur as a contiguous run at some index at or after the start |
| M2.GetArea | src/m2.rs:97-111 | with the corrected run test: base when `view/base` or `design/base` occurs; otherwise frontend for a frontend pair, then adminhtml for an adminhtml pair; base by default (stated as three if-and-only-ifs) |
| M2.GetAreaAsWritten | src/m2.rs:97-111 | `get_area` as written, over the scan as written: the same three if-and-only-ifs, stated over `M2.FirstRunMatches` |
| M2.FirstRunAgrees | src/m2.rs:119-139 | when the first part occurs at most once in the path, the scan as written and the corrected test agree |
| M2.GetAreaAgrees | src/m2.rs:97-111 | when `view` and `design` each occur at most once, `get_area` as written and the corrected area agree |
| M2.GetAreaAsWrittenDiverges | src/m2.rs:97-111 | on `srv/view/shop/app/code/Acme/Cart/view/frontend/web/x.js`, `get_area` as written answers base and the corrected area frontend |
| M2.IsFrontend | src/m2.rs:149-152 | corrected: true exactly when `view/frontend` or `app/design/frontend` occurs as a contiguous run |
| M2.IsFrontendAsWritten | src/m2.rs:149-152 | `is_frontend` as written: true only for a frontend path, and equal to `M2.IsFrontend` when `view` and `app` each occur at most once |
| M2.IsFrontendAsWrittenDiverges | src/m2.rs:149-152 | the shop path above is frontend, yet `is_frontend` as written answers false |
| M2.IsTest | src/m2.rs:154-156 | corrected: true exactly when `dev/tests` occurs as a contiguous run |
| M2.IsTestAsWritten | src/m2.rs:154-156 | `is_test` as written: true only for a test path, and equal to `M2.IsTest` when `dev` occurs at most once |
| M2.IsTestAsWrittenDiverges | src/m2.rs:154-156 | `home/dev/shop/dev/tests/unit` is a test path, yet `is_test` as written answers false |
| M2.FrontendViewArea | src/m2.rs:149-152 | a path holding `view/frontend` is a frontend path and has the frontend area unless a base directory also occurs |
| M2.IsPartOfModuleName | src/m2.rs:165-172 | true exactly when every character is alphanumeric or `_` |
| M2.IsPartOfClassName | src/m2.rs:174-181 | true exactly when every character is alphanumeric or a backslash |
| M2.NameTestExamples | src/m2.rs:220-248 | the repository's six unit tests of the two character tests, and the empty text accepted by both |
| Paths.RelativeTo | src/m2.rs:88-90 | the path below `base` when `base` is a prefix of it, the path unchanged otherwise |
| Js.GetNodeText | src/js.rs:191-209 | the node text with `Text.Trim` applied for `\`; for a string node, `Text.Trim` then applied again for the first character of its first child's text, when that text is not empty; never longer than the node text |
| Js.GetNodeTextOfQuoted | src/js.rs:191-209 | a quoted identifier with no quote or backslash at either end reads as itself without its quotes, e.g. `'jquery'` as `jquery` |
| Js.KindOf | src/js.rs:182-189 | `map`, `paths` and `mixins` name their sections; every other text names none (each an if-and-only-if) |
| Js.GetKind | src/js.rs:182-189 | a section exactly when the key node's text is one of the three section names |
| Js.ResolveComponentText | src/js.rs:85-90 | a result is never itself mapped; an unmapped name resolves to itself |
| Js.ChainLengthBound | src/js.rs:85-90 | an alias chain that reaches an unmapped name after `k` steps visits `k` distinct mapped names, so `k` is at most the number of aliases |
| Js.ResolveEnoughFuel | src/js.rs:85-90 | such a chain resolves, with one more unit of fuel than there are aliases, to the unmapped name at its end |
| Js.ResolvedChainEnd | src/js.rs:85-90 | conversely, whatever resolves is the end of the alias chain: every earlier name is mapped and the result is not |
| Js.ResolveFollowsChain | src/js.rs:85-90 | a chain of aliases that reaches an unmapped name after k steps resolves to that name, given more than k units of fuel |
| Js.ResolveCycle | src/js.rs:85-90 | a cycle of aliases never resolves, whatever the fuel |
| Js.ResolveTwoCycle | src/js.rs:85-90 | the two-name cycle `a -> b -> a` never resolves |
| Js.ResolveFuelMonotone | src/js.rs:85-90 | more fuel never changes a result already reached |
| Js.TextToComponent | src/js.rs:92-114 | a leading `.` gives a relative component in the file's directory; `Vendor_Module/rest` gives the module component when the module is known and nothing when it is not; anything else gives a plain component (each an if-and-only-if) |
| Js.TextToComponentModule | src/js.rs:99-110 | a registered `M/rest`, with M capitalised and holding one `_`, is the module component (M, rest, M's directory) |
| Js.TextToComponentSomeModule | src/js.rs:261-279 | the repository's unit test: `Some_Module/some/view` is the module component of `Some_Module` with file `some/view` |
| Js.TextToComponentPlain | src/js.rs:281-308 | the repository's unit tests: `jquery` and `jquery-ui-modules/widget` are plain components |
| Js.FirstAtPosition | src/js.rs:73-80 | the index of the first string under the cursor, with no earlier one under it; none when no string is under it |
| Js.ItemAt | src/js.rs:58-83 | nothing when no string of a `define` list is under the cursor |
| Js.ItemAtChainEnd | src/js.rs:58-83 | when a string is under the cursor and its alias chain ends after `k` steps, the item is the component of the name at the chain's end |
| Js.GetItemFromPos | src/js.rs:58-83 | the loop answers the first string under the cursor, resolved through the aliases and then classified |
| Js.WebCandidate | src/js.rs:41-42 | for a plain area name and a non-empty path: `<root>/view/<area>/web`, then the path's directories, then its file name with the extension set to `js` |
| Js.MakeWebUris | src/js.rs:38-49 | the existing candidates among base, frontend and backend, in that order |
| Js.ExistingWebCandidates | src/js.rs:40-46 | the loop keeps exactly the existing candidates, in area order |
| JsIndex.UpdateIndexFromConfig | src/js.rs:116-180 | the alias and mixin tables become the entries of the config applied in order; modules and themes are unchanged |
| JsIndex.AddEntry | src/js.rs:174-178 | a `map` or `paths` entry sets the alias, a `mixins` entry the mixin, any other entry nothing; the modules and themes are unchanged |
| JsIndex.LastAliasWins | src/js.rs:171-179 | after a config is read, an alias holds the value of the last `map` or `paths` entry for its key |
| JsIndex.AliasUntouched | src/js.rs:171-179 | a key that no alias entry names keeps its alias, or stays absent |
| JsIndex.LastMixinWins | src/js.rs:171-179 | a mixin holds the value of the last `mixins` entry for its key |
| JsIndex.UnknownSectionsIgnored | src/js.rs:174-178 | entries of any other section change neither table |
| Indexing.Indexer.constructor | src/indexer.rs:26-35 | every table is empty; the root is the one given |
| Indexing.Indexer.GetModulePath | src/indexer.rs:37-39 | the module's directory exactly when it is registered |
| Indexing.Indexer.AddModulePath | src/indexer.rs:41-43 | inserts or overwrites the module; every other table is unchanged |
| Indexing.Indexer.AddAdminThemePath | src/indexer.rs:45-47 | inserts or overwrites the admin theme; every other table is unchanged |
| Indexing.Indexer.AddFrontThemePath | src/indexer.rs:49-51 | inserts or overwrites the front theme; every other table is unchanged |
| Indexing.Indexer.GetComponentMap | src/indexer.rs:53-55 | the alias exactly when the name is mapped |
| Indexing.Indexer.AddComponentMap | src/indexer.rs:57-62 | inserts or overwrites the alias and returns the value it replaced; every other table is unchanged |
| Indexing.Indexer.AddComponentMixin | src/indexer.rs:64-69 | inserts or overwrites the mixin and returns the value it replaced; every other table is unchanged |
| Indexing.Indexer.ListFrontThemesPaths | src/indexer.rs:71-75 | every front theme's directory once, following an order that lists each theme exactly once |
| Indexing.Indexer.ListAdminThemesPaths | src/indexer.rs:77-81 | every admin theme's directory once, following an order that lists each theme exactly once |
| Indexing.Indexer.ItemFromPosition | src/indexer.rs:87-94 | no item without an extension; the lower-cased extension `js` uses the JavaScript lookup and `xml` the XML lookup; any other extension gives none |
| Indexing.Indexer.GetItemFromPosition | src/indexer.rs:87-94 | the dispatch answers exactly that |
| Xml.AttrStep | src/xml.rs:60-79 | non-attributes change nothing; once the lookup has given up it stays given up |
| Xml.NodeStep | src/xml.rs:55-58 | a node not under the cursor changes nothing |
| Xml.BeforeFirst | src/xml.rs:88-90 | the text before the first separator, which holds none and is as long as the separator's first index; the whole text when there is no separator |
| Xml.FirstTwoPieces | src/xml.rs:88-91 | the first two pieces `split("::")` yields: the first piece is as long as the index of the first `::`; the second is the rest after it, up to the index of the next `::`, or the whole rest when there is none |
| Xml.FirstTwoPiecesTripleColon | src/xml.rs:88-91 | `A:::B` splits into `A` and `:B`: the second piece starts right after the first `::` |
| Xml.Classify | src/xml.rs:84-98 | nothing without a class; a method with a method name; otherwise a constant whose class and name are `Xml.FirstTwoPieces` of the class text when it holds `::`, a class when it does not |
| Xml.AbortAt | src/xml.rs:66-77 | a `class`, `instance` or `method` attribute without a value node, in a tag under the cursor, makes the whole lookup give nothing |
| Xml.ScanOnlyAtCursor | src/xml.rs:53-55 | only the matched nodes under the cursor decide the item |
| Xml.GetItemFromPosition | src/xml.rs:49-98 | the scan with early return equals the specification, later nodes under the cursor overwriting earlier findings |
| Php.RegisterParamKinds | src/php.rs:49-79 | `RegisterParamToModule` (`register_param_to_module`): two `/` make a theme keeping the name as written; one `/` makes a library; otherwise one `_` makes a module; otherwise nothing (each an if-and-only-if) |
| Php.ModuleNameReplacesUnderscore | src/php.rs:69-75 | the module registration `Vendor_Module` names `Vendor\Module` |
| Php.LibraryParam | src/php.rs:52-68 | `vendor/package` registers the library named after its two halves |
| Php.LibrarySegments | src/php.rs:57-67 | `vendor/head-tail` names the three Pascal-cased segments `Vendor`, `Head`, `Tail`; without a `-` it names the two segments |
| Php.Unquote | src/php.rs:109 | `Text.Trim` for `"` and then for `'`, applied to the argument; never longer |
| Php.UnquoteQuoted | src/php.rs:109 | a module name in single quotes, with no quote at either end, reads back as itself |
| Php.GetModulesMap | src/php.rs:107-122 | the insert loop builds the module map of the registrations in order |
| Php.ModulesMapLastRegistration | src/php.rs:107-122 | a registered module or library maps to the directory of its last registration file |
| Php.ModulesMapOnlyRegistered | src/php.rs:114-121 | a name that no registration produces (themes included) is absent |
| Php.LastOf | src/php.rs:159-165 | a match of one of the given patterns after which no match has one of them, so the last; none exactly when no match has one of them |
| Php.Members | src/php.rs:166-191 | every member is keyed by its own non-empty name |
| Php.MembersKeys | src/php.rs:166-191 | a name is a method (or constant) exactly when some non-empty match of that pattern carries it |
| Php.MembersLastWins | src/php.rs:166-191 | a member is the last non-empty match of that pattern with its name, at that match's range |
| Php.ParsedClass | src/php.rs:194-226 | none without a namespace, without a class or interface, or when both names are empty; otherwise `namespace\Class` from the last namespace and class matches (`Php.LastOf`), in the file, at the range of the last class name, with the method and constant members |
| Php.ParsePhpFile | src/php.rs:133-227 | the single pass equals the specification |
| Text.TrimStart | src/lsp/completion.rs:59 | `trim_start_matches`: never longer, and the result does not start with the character |
| Text.TrimStartSlice | src/lsp/completion.rs:59 | what `trim_start_matches` drops is a run of the character, and what it keeps is the rest of the input |
| Text.TrimEnd | src/js.rs:195 | `trim_end_matches`, the second half of `trim_matches`: never longer, and the result does not end with the character |
| Text.TrimEndSlice | src/js.rs:195 | what `trim_end_matches` keeps is a prefix of the input, and only copies of the character follow it |
| Text.Trim | src/php.rs:109 | `trim_matches`: never longer, and neither end of the result is the character |
| Text.TrimSlice | src/php.rs:109 | `trim_matches` keeps the slice of the input that starts after the leading copies of the character, and only copies of it follow that slice |
| Text.TrimEnclosed | src/js.rs:191-209 | trimming a character off a text enclosed in it returns the text, when neither of its ends is that character |
| Text.SortedDistinct | src/state.rs:157-162 | `sort_unstable` then `dedup`: strictly increasing, with exactly the elements of the input |
| Text.SortedUnique | src/state.rs:157-162 | two strictly sorted lists with the same elements are equal, so the result does not depend on the sort's instability |
| Provenance.AreaId | src/state.rs:22-30 | frontend, adminhtml and base occupy slots 0, 1 and 2 (each an if-and-only-if) |
| Provenance.Without | src/state.rs:115 | `retain(m != x)`: every copy of x removed and every other module kept |
| Provenance.MaybeTrack | src/state.rs:49-60 | without a source file nothing changes; with one the trackee is appended to that file's list, created if needed; other files' lists are unchanged |
| Provenance.TrackeeOf | src/state.rs:175-265 | every `add_*` call records a trackee; setting the source file records none |
| Provenance.RetractAllModules | src/state.rs:114-116 | after retraction a module is listed exactly when it was listed and no trackee names it |
| Provenance.RetractAllModulePaths | src/state.rs:117-119 | a module path stays exactly when no trackee names it, and keeps its directory |
| Provenance.RetractAllFrontThemes | src/state.rs:120-131 | a front theme stays exactly when it is retracted neither as frontend nor as base, and keeps its directory |
| Provenance.RetractAllAdminThemes | src/state.rs:120-131 | an admin theme stays exactly when it is retracted neither as adminhtml nor as base, and keeps its directory |
| Provenance.RetractAllJsMaps | src/state.rs:108-110 | an area's alias stays exactly when no trackee names it for that area |
| Provenance.RetractAllJsMixins | src/state.rs:111-113 | an area's mixin list stays exactly when no trackee names it for that area |
| Provenance.RetractAllRemoves | src/state.rs:104-135 | every key tracked under a file is absent after the file is cleared |
| Provenance.ComponentMapInsert | src/state.rs:234-245 | an added alias is found in its area with its value; other areas and the mixins are unchanged |
| Provenance.MixinInsert | src/state.rs:247-265 | a mixin is appended to the name's list; a value that is no component changes nothing |
| Provenance.Clear | src/state.rs:104-135 | the file's list is dropped and each key on it retracted; an untracked file changes nothing |
| Provenance.RunWithoutSource | src/state.rs:56-60 | with no source file set, no insertion is tracked |
| Provenance.ApplyTracks | src/state.rs:56-60 | under source file p, one insertion appends its trackee to p's list |
| Provenance.RunTracksUnderSource | src/state.rs:49-60 | under source file p, every insertion is recorded in p's list, in order |
| Provenance.RunKeepsOtherFiles | src/state.rs:49-60 | under source file p, no other file's list appears, disappears or changes |
| Provenance.ClearUndoesIndexing | src/state.rs:137-147 | indexing a fresh file and then clearing it leaves none of the keys it inserted |
| Provenance.ClearTakesSharedKey | src/state.rs:104-135 | when file `a` registers module path `n` and file `b` then overwrites and tracks it, clearing `a` still removes `n`, while `b` stays tracked |
| Store.TrackingList.constructor | src/state.rs:45-47 | no file is tracked |
| Store.TrackingList.Track | src/state.rs:49-54 | appends to the file's list, creating it if needed |
| Store.TrackingList.MaybeTrack | src/state.rs:56-60 | tracks under the current source file, or does nothing without one |
| Store.TrackingList.Untrack | src/state.rs:62-64 | removes the file's list and returns it exactly when there was one |
| Store.Register | src/state.rs:309-320 | the root is registered; nothing changes when it already was, otherwise it is appended |
| Store.RegisterIdempotent | src/state.rs:309-320 | registering the same root twice is registering it once |
| Store.RegisterKeepsDistinct | src/state.rs:309-320 | registration never introduces a duplicate root |
| Store.LongestRegisteredPrefix | src/state.rs:326-337 | the longest proper prefix of the segments that names a registered module; none when no prefix does |
| Store.SplitClass | src/state.rs:322-339 | the module directory of the longest registered proper prefix, and the remaining segments in order (at least one), which rebuild the class; none exactly when no prefix is registered |
| Store.State.constructor | src/state.rs:85-98 | no source file, nothing tracked, every table empty, no buffers, no workspaces |
| Store.State.SetSourceFile | src/state.rs:100-102 | later insertions are recorded under the path; nothing else changes |
| Store.State.AddModule | src/state.rs:175-181 | records provenance, then appends the module (duplicates kept) |
| Store.State.AddModulePath | src/state.rs:183-195 | records provenance, then inserts or overwrites |
| Store.State.AddAdminThemePath | src/state.rs:197-208 | records an adminhtml theme trackee, then inserts |
| Store.State.AddFrontThemePath | src/state.rs:210-221 | records a frontend theme trackee, then inserts |
| Store.State.AddComponentMap | src/state.rs:234-245 | records provenance, then inserts into the area's table |
| Store.State.AddComponentMixin | src/state.rs:247-265 | always records provenance; appends only a value that reads as a component |
| Store.State.ApplyMutation | src/state.rs:100-265 | any of the calls an indexer makes moves the state as the specification says |
| Store.State.RetractOne | src/state.rs:107-132 | removes the one key the trackee names; a base theme leaves both theme tables |
| Store.State.ClearFromSource | src/state.rs:104-135 | the loop over the untracked list equals retracting all of it; buffers and workspaces are unchanged |
| Store.State.SetFile | src/state.rs:137-147 | clear, then the indexers' calls, then the buffer is stored; workspaces are unchanged |
| Store.State.GetFile | src/state.rs:149-151 | the buffer exactly when the file is open |
| Store.State.DelFile | src/state.rs:153-155 | only the buffer is dropped; the file's indexed facts stay |
| Store.State.GetModules | src/state.rs:157-162 | strictly sorted, with exactly the listed modules |
| Store.State.GetModuleClassPrefixes | src/state.rs:164-169 | one prefix per module, in order, with `_` replaced by a backslash and every other character kept |
| Store.State.GetModulePath | src/state.rs:171-173 | the directory exactly when the module is registered |
| Store.State.GetComponentMap | src/state.rs:223-225 | the alias of the area exactly when the name is mapped there |
| Store.State.GetComponentMapsForArea | src/state.rs:227-232 | every alias name of the area exactly once |
| Store.State.GetComponentMixinsForArea | src/state.rs:267-275 | the name's mixins in the area, or the empty list |
| Store.State.ListFrontThemesPaths | src/state.rs:277-279 | every front theme's directory once, following an order that lists each theme exactly once |
| Store.State.ListAdminThemesPaths | src/state.rs:281-283 | every admin theme's directory once, following an order that lists each theme exactly once |
| Store.State.AddWorkspacePath | src/state.rs:289-291 | appends the root, duplicates included; the index is unchanged |
| Store.State.HasWorkspacePath | src/state.rs:293-295 | true exactly when the root is registered |
| Store.State.UpdateIndex | src/state.rs:309-320 | a known root starts no indexer; a new root is registered and starts two; the index is unchanged |
| Store.State.GetItemFromPosition | src/state.rs:297-303 | `js` files use the JavaScript answer, `xml` files the XML answer, others none |
| Store.State.SplitClassToPathAndSuffix | src/state.rs:322-339 | the popping loop equals the specification |
| Listing.Keys | src/state.rs:227-232 | every key once: no repeats, as many as the map has |
| Listing.Values | src/state.rs:277-283 | the value of every key once, following an order that lists each key exactly once |
| Locations.PathToLocation | src/lsp/definition.rs:40-49 | an existing file is a location at its start; anything else is nothing |
| Locations.LocateAppend | src/lsp/definition.rs:40-49 | locating two candidate lists one after the other locates their concatenation |
| Locations.LocateExisting | src/lsp/definition.rs:40-49 | every location found is an existing candidate at the start of the file |
| Candidates.PushUnder | src/lsp/definition/phtml.rs:57-62 | the loop appends, in order, the locations of the existing `<dir>/<parts>` candidates |
| Candidates.PushAcross | src/lsp/definition/phtml.rs:41-46 | the loop appends, in order, the locations of the existing `<base>/view/<area>/...` candidates |
| DefinitionPhtml.ModuleTemplates | src/lsp/definition/phtml.rs:39-47 | no candidates for an unregistered module; one per area directory otherwise |
| DefinitionPhtml.ModuleTemplateShape | src/lsp/definition/phtml.rs:41-42 | a module candidate is `<module>/view/<area>/templates/<template>` |
| DefinitionPhtml.UnregisteredModuleSearchesThemes | src/lsp/definition/phtml.rs:32-48 | an unregistered module contributes nothing, and the themes are still searched |
| DefinitionPhtml.TemplateLocationsBound | src/lsp/definition/phtml.rs:10-78 | each location is an existing candidate; there are at most as many as area directories plus themes |
| DefinitionPhtml.ModuleBeforeThemes | src/lsp/definition/phtml.rs:10-22 | the module's templates come before any theme's |
| DefinitionPhtml.BaseSearchesBothThemes | src/lsp/definition/phtml.rs:24-30 | a base template: the module, then the front themes, then the admin themes |
| DefinitionPhtml.AddPhtmlInModLocation | src/lsp/definition/phtml.rs:32-48 | appends the existing module templates of the area's directories |
| DefinitionPhtml.AddPhtmlInThemes | src/lsp/definition/phtml.rs:57-62 | appends the existing `<theme>/<module>/templates/<template>` files, in theme order |
| DefinitionPhtml.AddPhtmlInAdminThemeLocation | src/lsp/definition/phtml.rs:50-63 | the same over every admin theme, each exactly once |
| DefinitionPhtml.AddPhtmlInFrontThemeLocation | src/lsp/definition/phtml.rs:65-78 | the same over every front theme, each exactly once |
| DefinitionPhtml.FindAdmin | src/lsp/definition/phtml.rs:10-15 | the existing adminhtml and base module templates, then the admin themes' |
| DefinitionPhtml.FindFront | src/lsp/definition/phtml.rs:17-22 | the existing frontend and base module templates, then the front themes' |
| DefinitionPhtml.FindBase | src/lsp/definition/phtml.rs:24-30 | all three area directories, then the front themes, then the admin themes |
| DefinitionComponent.PlainCandidateShape | src/lsp/definition/component.rs:16 | a plain candidate is `<workspace>/lib/web/<component>.js` |
| DefinitionComponent.FindPlain | src/lsp/definition/component.rs:12-22 | the existing plain candidates, in workspace order |
| DefinitionComponent.FindRel | src/lsp/definition/component.rs:24-28 | one location when the relative file exists, nothing at all otherwise |
| DefinitionComponent.RelReplacesExtension | src/lsp/definition/component.rs:25-26 | a relative name with an extension has it replaced by `js`, not extended |
| DefinitionComponent.ComponentCandidates | src/lsp/definition/component.rs:48-57 | only module components have candidates, one per area directory |
| DefinitionComponent.NonModComponentIgnored | src/lsp/definition/component.rs:47-58 | a mixin that is not a module component adds nothing, wherever it stands |
| DefinitionComponent.SearchedComponents | src/lsp/definition/component.rs:37-45 | the component itself, then its mixins for the edited file's area |
| DefinitionComponent.BaseComponentFirst | src/lsp/definition/component.rs:37-58 | the component's own files come before its mixins' files |
| DefinitionComponent.ModLocation | src/lsp/definition/component.rs:30-61 | the existing `view/<area>/web/<file>.js` files of the component and its mixins, in order |
| DefinitionComponent.HtmlCandidateShape | src/lsp/definition/component.rs:66-67 | an HTML candidate is `view/<area>/web/<file>` with nothing appended |
| DefinitionComponent.ModHtmlLocation | src/lsp/definition/component.rs:63-74 | the existing HTML candidates, in area order |
| DefinitionPhp.ClassFileShape | src/lsp/definition/php.rs:42-46 | the class file is the module directory, the segments, and `.php` on the last one |
| DefinitionPhp.PhpClassFound | src/lsp/definition/php.rs:38-54 | a class is found only through a registered module and an existing file that parses; it is that file's class |
| DefinitionPhp.GetPhpClassFromClassName | src/lsp/definition/php.rs:38-54 | the lookup equals the specification |
| DefinitionPhp.FindClass | src/lsp/definition/php.rs:8-14 | the class's file and name range exactly when the class is found |
| DefinitionPhp.FindMethod | src/lsp/definition/php.rs:16-25 | the method's range when declared, the class's range otherwise; nothing when the class is not found |
| DefinitionPhp.FindConst | src/lsp/definition/php.rs:27-36 | the constant's range when declared, the class's range otherwise; nothing when the class is not found |
| Definition.Single | src/lsp/definition.rs:34-36 | a found location as a one-element list; nothing otherwise |
| Definition.DefinitionsNone | src/lsp/definition.rs:14-38 | nothing exactly when there is no item, a relative file is missing, or a class, method or constant's class is not found |
| Definition.DefinitionsExist | src/lsp/definition.rs:25-33 | every component or template location names an existing file, at its start |
| Definition.GetLocationFromParams | src/lsp/definition.rs:14-38 | the dispatch equals the specification, with theme orders that enumerate the theme maps |
| Completion.PrefixItems | src/lsp/completion.rs:75-92 | one class item per module, in order, labelled with the module's class prefix (no `_`), replacing the text's range |
| Completion.ClassCandidate | src/lsp/completion.rs:113-119 | the module's class prefix and a backslash, then the file's relative path without `.php` |
| Completion.FullItemsMembers | src/lsp/completion.rs:112-140 | an item is offered exactly when some globbed file names a class that is not a registration and starts with the typed prefix |
| Completion.FullCompletionNone | src/lsp/completion.rs:99-108 | nothing exactly when the text has no backslash or its first two segments joined by `_` are not a registered module |
| Completion.FullCompletionTyped | src/lsp/completion.rs:103-127 | every class starts with the typed namespace and the module's prefix, and is no registration |
| Completion.ClassCompletionCases | src/lsp/completion.rs:54-73 | leading backslashes ignored; none only for non-class text without a backslash, or for a failed full lookup with two or more; prefixes only without a backslash; prefixes first with one; full only with two or more |
| Completion.ClassCompletionEdits | src/lsp/completion.rs:54-142 | every class suggestion replaces the range of the text at the cursor |
| Completion.CompletionForClassesFull | src/lsp/completion.rs:94-142 | the glob loop equals the specification |
| Completion.CompletionForClasses | src/lsp/completion.rs:54-73 | the dispatch on backslashes equals the specification |
| Completion.ModuleItems | src/lsp/completion.rs:149-163 | one module item per module, in `get_modules` order, without an edit |
| Completion.TemplateLabelsMembers | src/lsp/completion.rs:170-186 | a label is collected exactly when some area's templates directory holds a file with that relative path |
| Completion.TemplateCompletionCases | src/lsp/completion.rs:144-195 | module-name text lists the modules; `<module>::` text lists the module's template labels, strictly sorted, exactly those found under the area's directories; otherwise, or for an unknown module, nothing |
| Completion.CompletionForTemplate | src/lsp/completion.rs:144-195 | the method equals the specification |
| Completion.CollectTemplates | src/lsp/completion.rs:170-186 | the loop collects every area's labels, in area then glob order |
| Completion.CompletionsGuards | src/lsp/completion.rs:14-52 | suggestions need an open XML buffer and a matched node; a template attribute always gets template completion; event names only in `events.xml` |
| Completion.GetCompletionFromParams | src/lsp/completion.rs:14-52 | the dispatch equals the specification, arms tried in source order |

## Left out

- Reading files, the network and threads are not modelled: `std::fs::read_to_string`, URL conversion, `spawn`, `spawn_index`, `into_arc`/`as_arc` and the log lines. File contents enter the model as the query matches or nodes they parse to.
- Tree-sitter parsing and its query language are not modelled. Each query is replaced by the sequence of matches it yields, in order, with the captures the code reads.
- `Indexer::root_path` (src/indexer.rs:83-85) and the glob walks of `js::update_index` (src/js.rs:15-36) and `get_modules_map` (src/php.rs:83-99) are I/O. The per-file steps they drive are modelled: `JsIndex.UpdateIndexFromConfig` and `Php.GetModulesMap` (over all registrations, in glob order).
- `js::get_item_from_position` (src/js.rs:51-56) and the file read in `xml::get_item_from_position` are I/O. The item lookup on the parsed content is modelled.
- `php::update_index`, `js::maybe_index_file` and `php::maybe_index_file` are called by src/indexer.rs and src/state.rs. Their sources are not part of this model. `Store.State.SetFile` takes the calls they make to the index as a parameter, a sequence of `Mutation`s.
- `xml::get_current_position_path`, `match_path` and `completion::events` are not part of this model. The node at the cursor (the XML paths it matches, its text and range) and the event items are parameters of `Completion.Completions`.
- `is_xml`, `to_path_string` and `string_components` are not part of this model. They are read as: the lower-cased extension is `xml`; the components joined by `/`; the components.
- Completion.TemplateLabel: `relative_to` on a glob entry that failed (`unwrap_or_default`) is not modelled. Neither is a glob pattern error, which makes `completion_for_template` answer nothing (`.ok()?`).
- Completion.CompletionForClassesFull: a failed glob entry becomes an empty path in the source. The model has no failed entries.
- The PathBuf model is limited: absolute paths, `..` components, platform separators and non-UTF-8 names are not modelled.
- `Path::join` with an absolute argument is not modelled; it would replace the whole path.
- Paths.Extension follows `Path::extension`: a leading dot does not start an extension.
- Unicode is reduced to ASCII. `char::is_alphanumeric`, `char::is_uppercase` and `to_lowercase` are modelled for ASCII letters and digits only.
- Php.RegisterParamToModule: `to_case(Case::Pascal)` is the parameter `pascal`. The convert_case library is not part of this model.
- Store.State.GetItemFromPosition: it and `Definition.GetLocationFromParams` take the `State`-generation lookups `js::get_item_from_position` and `xml::get_item_from_position` on parsed content as the parameters `jsItem` and `xmlItem`. The versions of src/js.rs and src/xml.rs written against `State` are not part of this model; the ones modelled (`Js.ItemAt`, `Xml.GetItemFromPosition`) are written against `Indexer`.
- Js.ResolveComponentText: the source recurses without bound and overflows its stack on an alias cycle. The model spends one unit of fuel per step: `Js.ItemAt` gives it one more than the number of aliases, which `Js.ResolveEnoughFuel` proves is enough for every chain that ends; a cycle gives None (`Js.ResolveCycle`).
- M2.GetArea: it and the finders that use it, like `M2.IsFrontend` and `M2.IsTest`, use the corrected run test of the Findings table. `get_area`, `is_frontend` and `is_test` as written are `M2.GetAreaAsWritten`, `M2.IsFrontendAsWritten` and `M2.IsTestAsWritten`. They agree with the corrected forms when the first part occurs at most once, and differ on a path with an earlier `view`, `app` or `dev`.
- Js.GetNodeText: requires `Delimited`. A string node without a first child makes the source call itself on the same node forever, and the model excludes that case.
- Indexing.Indexer.ListFrontThemesPaths and the other listings promise no particular order, because Rust's `HashMap` iteration order is unspecified. Every finder that uses a listing returns the order it used as a ghost out-parameter.
- The `State`, `Indexer` and `TrackingList` methods state their new state through `old(...)`. Their properties are proved on the `Provenance` functions they are tied to.
- `workspace_paths` (src/state.rs:285-287) is a plain read of the `workspaces` field.
- `get_module_class_prefixes` feeds completion, and src/lsp/completion.rs takes an `ArcIndexer` while calling `State` methods (`get_file`, `get_modules`, `get_module_class_prefixes`, `get_module_path`). Completion is therefore modelled over `Store.State`.
- `files.sort_unstable_by(label)` followed by `dedup` is modelled as the sorted, duplicate-free list of labels. Items with equal labels are equal here: they share a kind and have no edit.
- Mutex locking and concurrent indexing are not modelled. Every operation runs on a state no other thread touches.

## Findings

| source | as written | input that shows it | evidently intended | confidence | as-written member | corrected member |
|---|---|---|---|---|---|---|
| src/m2.rs:119-139 | `has_components` starts matching at the first component equal to `parts[0]` and returns false at the first mismatch after it; later occurrences of `parts[0]` are never tried | `srv/view/shop/app/code/Acme/Cart/view/frontend/web` with parts `[view, frontend]`: the scan starts at the first `view`, fails on `shop` and answers false, so `get_area` says base instead of frontend | true whenever the parts occur anywhere in the path as a contiguous run | not executed | M2.HasComponents, M2.GetAreaAsWritten, M2.IsFrontendAsWritten, M2.IsTestAsWritten (shown by M2.FirstRunMissesLaterRun, M2.GetAreaAsWrittenDiverges, M2.IsFrontendAsWrittenDiverges, M2.IsTestAsWrittenDiverges) | M2.HasRunFrom (used through M2.HasRun by M2.GetArea, M2.IsFrontend and M2.IsTest) |
