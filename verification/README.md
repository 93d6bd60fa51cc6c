# Bookmark import of MeNav, modelled in Dafny

MeNav builds a navigation site from YAML configuration. Its bookmark
processor reads a browser bookmarks export, which is Netscape-format HTML.
It turns the export into categories of sites. It also makes sure the site
configuration's `navigation:` list has a bookmarks entry.

This project models the two text-processing cores of
`src/bookmark-processor.js`:

- `parseBookmarks` and the functions nested inside it;
- the line splice of `upsertBookmarksNavInSiteYml`.

Each loop of the source is a Dafny `method` with a `while` or `for` loop. Its
contract ties the result to a recursive specification function. The
properties the parser promises are lemmas about those functions.

The modules follow the structure of the parser:

- `Text`: the JavaScript string primitives the parser uses. These are
  `trim`, `includes`, the search for a literal (with or without the ASCII
  case folding of the `/i` flag) that the patterns build on, and the
  white-space class `\s`.
- `Seqs`: generic sequence tools. `Keep` is a filtering map, and `Origin`
  maps a kept element back to its input position. `Collect` collects the
  results of a recognizer over an index range. `Visits` is the sequence of
  matches that a global-regex `exec` loop visits.
- `Patterns`: the header and bookmark regular expressions. Each one is a
  recognizer anchored at an offset, plus a leftmost search. The three header
  spellings are Lazy `(.*?)`, Plain `([^<]+)`, and the case-insensitive
  toolbar header.
- `Scanner`: the depth-counting `<DL><p>`/`</DL><p>` loop. The source repeats
  it six times. It is specified declaratively as the first closing marker met
  at depth 1.
- `Ranges`: the folder-range index and the subfolder index. It also holds the
  directness filter of `parseNestedFolder`, which rejects a range when
  another range encloses it.
- `Icons`: `ICON_MAPPING` and its first-match lookup.
- `Sites`: `parseSitesInFolder`. Its pass over the bar's content is also the
  root-bookmark pass of `extractRootBookmarks`.
- `Tree`: the recursive `parseNestedFolder`, with a level cap of 4 and the
  child keys `subcategories`, `groups` and `subgroups`.
- `Driver`: the top level of `parseBookmarks`. It looks up the toolbar,
  falls back to the first container when there is none, and puts the root
  category first.
- `SiteNav`: the nav patch of `upsertBookmarksNavInSiteYml`.

A category is a datatype because the parser builds each object once and then
never changes it. A property that the parser may leave unset, such as
`sites` or the child list, is an `Option`. The reason codes of the nav patch
are the `Reason` datatype.

The code of `extractRootBookmarks` (src/bookmark-processor.js:316-401)
repeats the subfolder pass and the site pass of `parseSitesInFolder`
(:550-635). The two copies are identical: the same Plain header pattern, the
same scan, and subfolders recorded only when a `<DL><p>` follows. So the
model runs `Sites.ParseSitesInFolder` on the bar's content.

These behaviours of the code are kept as written and stated as lemmas:

- The fallback span is computed as `pos - 8`. When the first container is
  balanced, this gives the same span as the toolbar path
  (`Driver.FallbackBalanced`). When no marker follows the first `<DL><p>`,
  the end falls before the start, and `substring` swaps the two
  (`Driver.FallbackWithoutMarkers`).
- `google.com` precedes `drive.google.com` and `docs.google.com` in
  `ICON_MAPPING`. Every Drive or Docs URL therefore gets the Google icon, and
  the Drive and Docs icons are never chosen
  (`Icons.DriveAndDocsIconsUnreachable`).
- Folders more than four levels deep are dropped. A range the filter skips
  lies inside a range of the current level (`Ranges.NestedHasDirectAncestor`),
  but the enclosing folder parses its content one level down only while
  `level < 4` (src/bookmark-processor.js:508; `Tree.NodeContents`). The
  subfolders of a level-4 folder, and the bookmarks inside them, are in no
  category.
- The range pass and the subfolder pass spell the folder header differently
  (Lazy at :412, Plain at :552). A header with an empty name
  (`Patterns.EmptyNameOnlyLazy`), or a name holding `<`, matches the Lazy
  spelling only: it becomes a folder node, yet its bookmarks also stay among
  the parent's sites, since the subfolder pass does not cut them out. A
  header whose name runs over a line break matches the Plain spelling only:
  its bookmarks are cut out of the parent's sites but it never becomes a
  node, so they are in no category. On one-line headers the two agree
  (`Patterns.HeaderStylesAgree`).

## Model

| member | source | states |
|---|---|---|
| Text.Lower | src/bookmark-processor.js:270 | the `/i` flag of the toolbar pattern (also :645) maps each ASCII capital to its lower-case letter, 32 code points up; every other character is unchanged |
| Text.IndexOfFirst | src/bookmark-processor.js:388 | the search for a literal returns the first offset at or after the start where it occurs; no earlier offset holds it, and `None` means none does. It decides `url.includes` (here and :622), the PERSONAL_TOOLBAR_FOLDER test of the toolbar pattern (:270, :645, the only case-folded use) and the ends of the `</H3>` and `</A>` groups |
| Text.Trim | src/bookmark-processor.js:373 | `trim()` returns the infix left after removing white space at both ends; all removed characters are white space, and a non-empty result neither starts nor ends with white space |
| Text.TrimEmptyIffBlank | src/bookmark-processor.js:104 | `line.trim() === ''` holds exactly when every character of the line is white space |
| Text.FirstMatchFirst | src/bookmark-processor.js:415 | a leftmost search returns an offset where the recognizer matches, with no match before it, or reports that none matches up to the bound |
| Patterns.HeaderAt | src/bookmark-processor.js:412 | a header match anchored at `i` starts at `i` and ends within the text, past the `<DT><H3` tag |
| Patterns.LinkAt | src/bookmark-processor.js:601 | a bookmark match anchored at `i` starts at `i` and ends within the text, past the `<DT><A HREF="` tag |
| Patterns.NextHeaderFirst | src/bookmark-processor.js:415 | `exec` from `lastIndex` returns the leftmost header match at or after it; no header matches before it, and `None` means none matches anywhere after |
| Patterns.HeadersStep | src/bookmark-processor.js:415 | the headers visited from `lastIndex` are the next match followed by the headers visited from that match's end, or nothing when there is no next match |
| Patterns.HeadersMatch | src/bookmark-processor.js:415 | every header the `exec` loop visits is a match of the pattern at its own offset |
| Patterns.HeadersOrdered | src/bookmark-processor.js:415 | the visited headers do not overlap and come in text order |
| Patterns.HeadersComplete | src/bookmark-processor.js:415 | every offset where the pattern matches is visited, unless it lies inside an earlier visited match |
| Patterns.LinksStep | src/bookmark-processor.js:604 | the bookmarks visited from `lastIndex` are the next match followed by those visited from its end |
| Patterns.LinksMatch | src/bookmark-processor.js:604 | every visited bookmark is a match of the bookmark pattern at its offset |
| Patterns.LinksOrdered | src/bookmark-processor.js:604 | visited bookmarks do not overlap and come in text order |
| Patterns.LinksComplete | src/bookmark-processor.js:604 | every offset where the bookmark pattern matches is visited, unless an earlier visited match covers it |
| Patterns.PlainNameIsLazyName | src/bookmark-processor.js:552 | when `([^<]+)` ends at a `</H3>` on the same line, the lazy `(.*?)` ends at that same `</H3>` |
| Patterns.HeaderStylesAgree | src/bookmark-processor.js:412 | a one-line header matched by the Plain spelling of the subfolder pass is matched identically by the Lazy spelling of the range pass |
| Patterns.EmptyNameOnlyLazy | src/bookmark-processor.js:552 | a header with an empty name is matched by the Lazy spelling only, never by the Plain one |
| Scanner.OpenMatchesIgnoringCase | src/bookmark-processor.js:293 | the opening-marker test is exactly a case-insensitive match of `<DL><p>` |
| Scanner.CloseMatchesIgnoringCase | src/bookmark-processor.js:294 | the closing-marker test is exactly a case-insensitive match of `</DL><p>` |
| Scanner.OpenIsolated | src/bookmark-processor.js:296-298 | no other marker starts inside an opening marker, so jumping past it skips none |
| Scanner.CloseIsolated | src/bookmark-processor.js:299-305 | no other marker starts inside a closing marker, so jumping past it skips none |
| Scanner.FindOpenFirst | src/bookmark-processor.js:293 | `search(/<DL><p>/i)` returns the first opening marker at or after the cursor, or none when no marker follows |
| Scanner.FindCloseFirst | src/bookmark-processor.js:294 | `search(/<\/DL><p>/i)` returns the first closing marker at or after the cursor, or none when no marker follows |
| Scanner.NextMarkerFirst | src/bookmark-processor.js:296-308 | the loop consumes the first marker of either kind after the cursor, preferring the opening one only when it comes first, and stops when neither remains |
| Scanner.BalancingCloseUnique | src/bookmark-processor.js:287-309 | a container has at most one balancing `</DL><p>` |
| Scanner.BalancingCloseIff | src/bookmark-processor.js:287-309 | the scan finds a close exactly when it is the balancing one: at depth 1, with every earlier close met deeper; it finds none exactly when no close balances |
| Scanner.ScanStepOpen | src/bookmark-processor.js:296-298 | consuming an opening marker keeps the depth equal to 1 + opens - closes, one level deeper |
| Scanner.ScanStepBalance | src/bookmark-processor.js:299-304 | a closing marker consumed at depth 1 is the balancing close |
| Scanner.ScanStepClose | src/bookmark-processor.js:299-305 | a closing marker consumed deeper keeps the invariant, one level up |
| Scanner.ScanStepNone | src/bookmark-processor.js:306-308 | stopping with no marker left means nothing balances, and the cursor is just past the last marker (or where it started) |
| Scanner.ScanContainer | src/bookmark-processor.js:287-309 | the loop returns the balancing close, with the cursor 8 past it, or no close, with the cursor at the end of the last marker |
| Ranges.RangeOf | src/bookmark-processor.js:415-456 | a recorded range keeps the trimmed name, the header offset and the header end, and ends within the text at least 15 characters after the header |
| Ranges.RangeOfIff | src/bookmark-processor.js:425-455 | a header is recorded exactly when a `<DL><p>` follows it and that container balances; the range then ends 8 past the balancing close |
| Ranges.FolderRangesStep | src/bookmark-processor.js:415-457 | the ranges recorded from `lastIndex` are the next header's range, if any, followed by the ranges recorded from that header's end |
| Ranges.ScanFolderRange | src/bookmark-processor.js:416-456 | the loop body records the range of the header, or nothing |
| Ranges.ScanFolderRanges | src/bookmark-processor.js:411-457 | the first pass of `parseNestedFolder` returns exactly the recorded ranges of all visited Lazy headers, in order |
| Ranges.RangeHeader | src/bookmark-processor.js:444-449 | every recorded range comes from a visited Lazy header |
| Ranges.FolderRangeBounds | src/bookmark-processor.js:415-449 | every range starts at a Lazy header match, keeps its end and trimmed name, and ends within the text after the header |
| Ranges.RecordedRangesBalanced | src/bookmark-processor.js:440-449 | every recorded range ends just past the close that balances the first `<DL><p>` after its header |
| Ranges.RangesInHeaderOrder | src/bookmark-processor.js:415-418 | ranges come in header order: each header ends before the next range starts |
| Ranges.RangesComplete | src/bookmark-processor.js:441-449 | every visited Lazy header whose following container balances is recorded |
| Ranges.ContentHasContainer | src/bookmark-processor.js:490 | the content of a balanced range holds a `<DL><p>` |
| Ranges.RecordedContentHasContainer | src/bookmark-processor.js:487-492 | the `<DL><p>` test on a recorded folder's content always passes |
| Ranges.NestedAt | src/bookmark-processor.js:464-474 | the inner loop reports nested exactly when another range starts strictly before and ends no earlier |
| Ranges.NestedIgnoresSelf | src/bookmark-processor.js:466 | skipping the folder itself changes nothing, because no range encloses itself |
| Ranges.NestedHasDirectAncestor | src/bookmark-processor.js:469-478 | every range the filter skips lies inside a range that no other range encloses, that is, one of the current level |
| Ranges.SubfolderOf | src/bookmark-processor.js:555-597 | a recorded subfolder keeps the trimmed name and header offset, and ends within the text at least 7 past the header |
| Ranges.SubfolderOfIff | src/bookmark-processor.js:561-596 | a subfolder is recorded exactly when a `<DL><p>` follows its header; it ends 8 past the balancing close, or at the end of the span when nothing balances |
| Ranges.SubfoldersStep | src/bookmark-processor.js:555 | the subfolders recorded from `lastIndex` are the next header's subfolder, if any, then those recorded after it |
| Ranges.ScanSubfolder | src/bookmark-processor.js:556-596 | the loop body records the subfolder of the header, or nothing |
| Ranges.ScanSubfolders | src/bookmark-processor.js:550-598 | the subfolder pass returns exactly the subfolders of all visited Plain headers, in order |
| Ranges.SubfolderHeader | src/bookmark-processor.js:592-596 | every subfolder comes from a visited Plain header |
| Ranges.SubfolderBounds | src/bookmark-processor.js:555-596 | every subfolder starts at a Plain header match and ends within the span, after its header |
| Icons.FirstKeyFirst | src/bookmark-processor.js:387-392 | the chosen entry is the first, in table order, whose keyword the URL contains; no earlier keyword occurs |
| Icons.LookupIcon | src/bookmark-processor.js:620-626 | the lookup loop returns the icon of the first matching entry, or `fas fa-link` |
| Icons.FirstKeyHit | src/bookmark-processor.js:622-624 | the loop stops at an entry whose keyword occurs |
| Icons.FirstKeySkip | src/bookmark-processor.js:621-622 | the loop passes over an entry whose keyword does not occur |
| Icons.FirstKeyIff | src/bookmark-processor.js:620-626 | entry `i` decides the icon exactly when its keyword occurs and no earlier keyword does |
| Icons.NoKeywordIff | src/bookmark-processor.js:620 | the default icon is chosen exactly when no keyword occurs in the URL |
| Icons.GoogleShadowsDriveAndDocs | src/bookmark-processor.js:135-138 | a Drive or Docs URL is decided at or before the `google.com` entry, and gets the Google icon when no earlier keyword occurs |
| Icons.DriveAndDocsIconsUnreachable | src/bookmark-processor.js:135-138 | no URL gets the Drive or the Docs icon |
| Icons.OnlyDriveAndDocsIcons | src/bookmark-processor.js:126-179 | the Drive and Docs icons appear in the table only at their own entries |
| Sites.SiteOf | src/bookmark-processor.js:628-633 | a site has the trimmed link text as its name, the URL as written, and an empty description |
| Sites.InAnySubfolder | src/bookmark-processor.js:610-616 | the membership loop answers exactly whether the offset lies in a half-open subfolder span |
| Sites.SitesStep | src/bookmark-processor.js:604-635 | the sites from `lastIndex` are what the next link records, followed by the sites after it |
| Sites.SiteFor | src/bookmark-processor.js:605-634 | the loop body records the link's site exactly when the link starts outside every subfolder |
| Sites.ParseSitesInFolder | src/bookmark-processor.js:546-638 | `parseSitesInFolder` returns exactly the sites of the visited links that start outside every subfolder, in order |
| Sites.SiteLink | src/bookmark-processor.js:618-634 | every site comes from a visited link that starts outside every subfolder |
| Sites.SitesComplete | src/bookmark-processor.js:618-634 | every visited link outside all subfolders gives a site |
| Sites.SitesInTextOrder | src/bookmark-processor.js:604 | sites keep the text order of their links, which do not overlap |
| Sites.SiteFields | src/bookmark-processor.js:620-633 | every site carries the icon its URL selects, never the Drive or Docs icon, and an empty description |
| Tree.KeyFor | src/bookmark-processor.js:513-519 | a child key exists exactly at levels 1 to 3 |
| Tree.ChildrenAt | src/bookmark-processor.js:513-519 | the child list is assigned exactly at levels 1 to 3, under `subcategories`, `groups` or `subgroups` |
| Tree.ContentOf | src/bookmark-processor.js:487 | a folder's content is strictly shorter than the span, so the recursion terminates |
| Tree.FolderAt | src/bookmark-processor.js:476-539 | a nested range emits nothing; an emitted folder has the range's name, the folder icon, the parent path extended by its name, and content |
| Tree.ParseFolder | src/bookmark-processor.js:460-540 | the body of the second pass emits exactly the node `FolderAt` describes, or nothing |
| Tree.BuildFolder | src/bookmark-processor.js:495-528 | the node built for a range is the one `NodeOf` describes |
| Tree.BuildParent | src/bookmark-processor.js:508-524 | below the cap with a Lazy header in the content, the node holds the folders one level down, plus its sites if there are any |
| Tree.ParseNestedFolder | src/bookmark-processor.js:407-543 | `parseNestedFolder` returns exactly the nodes emitted for the recorded ranges, in order |
| Tree.NestedFoldersWellFormed | src/bookmark-processor.js:495-539 | every folder returned, at every depth, has the folder icon and the path to it, has content, and has sites whenever it has no children; children appear only at levels 1 to 3, under the key of the level, and then sites only if non-empty |
| Tree.FolderAtWellFormed | src/bookmark-processor.js:476-539 | every emitted folder is well formed |
| Tree.NodeWellFormed | src/bookmark-processor.js:495-535 | a node with content is well formed at its level |
| Tree.NodeOfShape | src/bookmark-processor.js:495-535 | a node with content has the shape of its level, and its children are the folders of its content one level down |
| Tree.WellFormedFrom | src/bookmark-processor.js:495-539 | a node of the right shape whose children are well formed is well formed |
| Tree.FolderAtIff | src/bookmark-processor.js:476-492 | a range gives a node exactly when no other range encloses it and its node has content |
| Tree.NodeContents | src/bookmark-processor.js:501-528 | a node has children exactly when its content holds a Lazy header and the level is 1 to 3; its sites are those directly in its content, and they are absent exactly when there are children and no sites |
| Tree.NestedFoldersIff | src/bookmark-processor.js:460-540 | a category is returned exactly when it is the node, with content, of a range no other range encloses |
| Tree.WellFormedLevels | src/bookmark-processor.js:508 | a well-formed tree built from level 1 is at most four levels deep |
| Driver.JsSubstring | src/bookmark-processor.js:677 | `substring` takes the span between its clamped ends, and swaps them when the first exceeds the second |
| Driver.JsSubstringClamps | src/bookmark-processor.js:677 | `substring` is symmetric in its two ends, and an end below 0 acts as 0 and one past the text as its length |
| Driver.BarEnd | src/bookmark-processor.js:289-303 | the bar's content ends at or after its start and within the text |
| Driver.BarStart | src/bookmark-processor.js:269-284 | the bar's content exists exactly when there is a toolbar header followed by a `<DL><p>`, and starts just past the first such marker |
| Driver.ScanBar | src/bookmark-processor.js:681-720 | the toolbar path yields the bar's content, or nothing when there is no toolbar header or no `<DL><p>` after it |
| Driver.ScanBarEnd | src/bookmark-processor.js:286-314 | the bar's content runs from its start to the balancing close, or to the end of the text |
| Driver.ExtractRootBookmarks | src/bookmark-processor.js:267-404 | `extractRootBookmarks` returns the sites directly on the bookmarks bar, or nothing without a bar |
| Driver.ScanFallback | src/bookmark-processor.js:650-677 | the fallback span runs from just past the first `<DL><p>` to 8 before where the scan stops, through `substring` |
| Driver.ParseCategories | src/bookmark-processor.js:643-725 | the categories are the level-1 folders of the bar's content, or of the fallback span without a toolbar header |
| Driver.RootCategory | src/bookmark-processor.js:732-737 | the root category is named 根目录书签, its path is that name alone, and it holds the root sites |
| Driver.ParseBookmarks | src/bookmark-processor.js:256-745 | `parseBookmarks` returns the categories, with the root category put first exactly when there are root bookmarks |
| Driver.BarEndIff | src/bookmark-processor.js:289-309 | the bar ends exactly at its balancing close, and at the end of the text only when nothing balances |
| Driver.ToolbarWithoutContainer | src/bookmark-processor.js:686-688 | a toolbar header with no `<DL><p>` after it gives no categories and no root bookmarks |
| Driver.FallbackHasNoRoot | src/bookmark-processor.js:647-679 | without a toolbar header there are no root bookmarks, and the result is the fallback's categories alone |
| Driver.RootCategoryFirst | src/bookmark-processor.js:730-742 | with root bookmarks, the result is the root category followed by the other categories unchanged; without them, the categories alone |
| Driver.FallbackBalanced | src/bookmark-processor.js:655-677 | with a balanced first container, the fallback span is its content, the marker excluded |
| Driver.FallbackWithoutMarkers | src/bookmark-processor.js:655-677 | with no marker after the first `<DL><p>`, the span is that marker with the character before it, or the first seven characters when the marker opens the text |
| Driver.CategoriesWellFormed | src/bookmark-processor.js:678 | every category is well formed at level 1, so the tree is at most four levels deep |
| SiteNav.SplitLines | src/bookmark-processor.js:80 | `split(/\r?\n/)` yields at least one piece, and no piece contains a line break |
| SiteNav.SplitJoin | src/bookmark-processor.js:80 | joining the pieces with `\n` gives the text back when it has no `\r\n` break |
| SiteNav.SplitJoinLf | src/bookmark-processor.js:80 | joining the pieces with `\n` gives the text with every `\r\n` break written as `\n` and nothing else changed |
| SiteNav.NavLineIndex | src/bookmark-processor.js:81 | `findIndex` returns the first line matching `/^navigation\s*:/`, or none when no line does |
| SiteNav.FindInsertAt | src/bookmark-processor.js:101-109 | the loop stops at the first line after the `navigation:` line that is neither blank nor a comment and starts a top-level key, or at the end |
| SiteNav.InsertPointFirst | src/bookmark-processor.js:102-108 | no line before the insert point ends the block, and the line at it does |
| SiteNav.InsertPointEndsBlock | src/bookmark-processor.js:101-109 | the entry goes after the `navigation:` line, past only blank lines, comments and non-key lines, and before a top-level key |
| SiteNav.Inserted | src/bookmark-processor.js:113-115 | the inserted lines are the entry, preceded by an empty line exactly when the line before the insert point is not blank |
| SiteNav.NavBlock | src/bookmark-processor.js:95 | the new block ends with a line break |
| SiteNav.Normalized | src/bookmark-processor.js:93 | the text, with a line break appended unless it already ends with one; it is unchanged exactly when it ends with one |
| SiteNav.AppendNavBlock | src/bookmark-processor.js:93-95 | the text written without a `navigation:` line is the normalized file, a spacer unless it is blank, then the new block |
| SiteNav.SpliceEntry | src/bookmark-processor.js:101-118 | the text written with a `navigation:` line is the lines with the entry spliced in at the insert point, joined, plus a final line break |
| SiteNav.UpsertBookmarksNav | src/bookmark-processor.js:61-123 | the patch returns the reason code and new text `Upsert` gives for the parsed view |
| SiteNav.UpdatedIff | src/bookmark-processor.js:62-123 | the file changes exactly when it parses as an object whose `navigation` is absent or a list without a bookmarks item, and new text comes exactly then; a failed read or parse gives `error` |
| SiteNav.AppendedKeepsFile | src/bookmark-processor.js:93-95 | appending keeps the whole file as a prefix, and the new text ends with a line break |
| SiteNav.SpliceKeepsLines | src/bookmark-processor.js:111-116 | the splice keeps every original line in order; removing the inserted lines gives the original lines back |

## Left out

- Logging (`log.info`, `log.warn`, `log.error`) is left out; it has no effect on results.
- File-system access (`fs.readFileSync` and `fs.writeFileSync`) is left out. The nav patch receives the file's text and returns the text to write. A failed read is the `LoadFailed` view and gives `error`. A failed `fs.writeFileSync` is caught at src/bookmark-processor.js:120-121 and also gives `{updated: false, reason: 'error'}`; the model reports the update as made, because writing is the caller's part.
- `yaml.load` is an input: the `YamlView` datatype says what the parser made of the file. A thrown read or parse error is the `LoadFailed` view.
- The regular-expression engine is left out. Each pattern the parser uses is a hand-written recognizer with the same leftmost, first-alternative semantics.
- `/i` is modelled as ASCII case folding of the markers and of the toolbar header. The non-Unicode JavaScript case folding never maps a non-ASCII character to an ASCII letter.
- The white-space class `\s` and `trim` use the JavaScript white-space and line-terminator set.
- Characters are Unicode scalar values. JavaScript counts a character outside the Basic Multilingual Plane as two code units, so its offsets differ, but no comparison the parser makes depends on that.
- The three-line entry that src/bookmark-processor.js:83-89 assembles from `itemIndent`/`propIndent` is the constant `SNIPPET`; the string templates themselves are not modelled.
- `ensureUserConfigInitialized` and `ensureUserSiteYmlExists` (configuration bootstrapping) are not part of this model.
- `getLatestBookmarkFile` (directory listing) is not part of this model.
- `generateBookmarksYaml` (YAML rendering) is not part of this model.
- `updateNavigationWithBookmarks` and `main` (orchestration) are not part of this model.
- The unused `siteCount` variable and the unused top-level `folderRegex`/`bookmarkRegex` constants of `parseBookmarks` are left out; nothing reads them.
- Ranges.NestedHasDirectAncestor: states only that a skipped range lies inside a range of the current level; that the enclosing folder's recursive call records it is not claimed, and is false below level 4 (see above).
- Bookmark conservation (every bookmark on the bar lands in exactly one category) is not proved. The behaviours kept as written above break it in general: folders below level 4 are dropped, a Lazy-only header counts its bookmarks twice, and a Plain-only header spanning lines loses them. The statement restricted to one-line names that are non-empty and free of `<`, at most four levels deep, is not attempted.
- The second argument that `parseNestedFolder` passes to `parseSitesInFolder` is left out, because the callee ignores it.
