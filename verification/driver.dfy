/** The top level of `parseBookmarks`: the root bookmarks of the bookmarks
    bar, the span whose folders become the categories (the bookmarks bar, or
    the first container when the export marks no bar), and the synthetic
    root category put in front when there are root bookmarks. */
module Driver {
  import opened Text
  import opened Patterns
  import opened Scanner
  import opened Sites
  import opened Tree

  /** The name of the root category, 根目录书签 ("root bookmarks"). */
  const ROOT_NAME: string := "\U{6839}\U{76EE}\U{5F55}\U{4E66}\U{7B7E}"
  const ROOT_ICON: string := "fas fa-star"

  /** `String.prototype.substring` on integer arguments: both ends clamped
      to `[0, |s|]`, and swapped when the first exceeds the second. */
  function JsSubstring(s: string, a: int, b: int): (r: string)
    ensures a <= b && 0 <= a && b <= |s| ==> r == s[a..b]
    ensures b < a && 0 <= b && a <= |s| ==> r == s[b..a]
  {
    var from := if a < 0 then 0 else if a > |s| then |s| else a;
    var to := if b < 0 then 0 else if b > |s| then |s| else b;
    if from <= to then s[from..to] else s[to..from]
  }

  /** `substring` is symmetric in its two ends, a negative end acts as 0 and
      an end past the text acts as its length. */
  lemma JsSubstringClamps(s: string, a: int, b: int)
    ensures JsSubstring(s, a, b) == JsSubstring(s, b, a)
    ensures a < 0 ==> JsSubstring(s, a, b) == JsSubstring(s, 0, b)
    ensures b < 0 ==> JsSubstring(s, a, b) == JsSubstring(s, a, 0)
    ensures a > |s| ==> JsSubstring(s, a, b) == JsSubstring(s, |s|, b)
    ensures b > |s| ==> JsSubstring(s, a, b) == JsSubstring(s, a, |s|)
  {
  }

  /** Where the bookmarks bar's content ends: at its balancing `</DL><p>`,
      before the marker, or at the end of the text when nothing balances. */
  function BarEnd(s: string, contentStart: nat): (e: nat)
    requires contentStart <= |s|
    ensures contentStart <= e <= |s|
  {
    match BalancingClose(s, contentStart)
    case Some(c) => c
    case None => |s|
  }

  /** Where the bookmarks bar's content starts: just past the first `<DL><p>`
      after the toolbar header, if there are both. */
  function BarStart(s: string): (r: Option<nat>)
    ensures r.Some? <==> NextHeader(s, 0, Toolbar).Some? && FindOpen(s, NextHeader(s, 0, Toolbar).value.end).Some?
    ensures r.Some? ==> r.value == FindOpen(s, NextHeader(s, 0, Toolbar).value.end).value + 7
    ensures r.Some? ==> OpenAt(s, r.value - 7) && r.value <= |s|
  {
    match NextHeader(s, 0, Toolbar)
    case None => None
    case Some(h) =>
      FindOpenFirst(s, h.end);
      match FindOpen(s, h.end)
      case None => None
      case Some(d) => Some(d + 7)
  }

  /** The content of the bookmarks bar, if the export has one. */
  function BarContent(s: string): Option<string> {
    match BarStart(s)
    case None => None
    case Some(start) => Some(s[start..BarEnd(s, start)])
  }

  /** The bookmarks bar's content: the toolbar header, the first `<DL><p>`
      after it, then the container scan. This sequence opens both
      `extractRootBookmarks` and the main path of `parseBookmarks`. */
  method ScanBar(s: string) returns (content: Option<string>)
    ensures content == BarContent(s)
  {
    var bookmarkBarMatch := NextHeader(s, 0, Toolbar);
    if bookmarkBarMatch.None? {
      return None;
    }
    var dlMatch := FindOpen(s, bookmarkBarMatch.value.end);
    if dlMatch.None? {
      assert BarStart(s).None?;
      return None;
    }
    var contentStart := dlMatch.value + 7;
    assert BarStart(s) == Some(contentStart);
    var barContent := ScanBarEnd(s, contentStart);
    content := Some(barContent);
  }

  /** The container scan of the bookmarks bar, entered at depth 1 just past
      its `<DL><p>`: the content ends before the balancing `</DL><p>`, or at
      the end of the text. */
  method ScanBarEnd(s: string, contentStart: nat) returns (content: string)
    requires contentStart <= |s|
    ensures content == s[contentStart..BarEnd(s, contentStart)]
  {
    var close, pos := ScanContainer(s, contentStart);
    var contentEnd := |s|;
    if close.Some? {
      contentEnd := close.value;
    }
    content := s[contentStart..contentEnd];
  }

  /** The bookmarks directly on the bookmarks bar. */
  function RootSites(s: string): seq<Site> {
    match BarContent(s)
    case None => []
    case Some(content) => SitesIn(content)
  }

  /** `extractRootBookmarks`: the bar's content, then the site pass on it. */
  method ExtractRootBookmarks(s: string) returns (rootSites: seq<Site>)
    ensures rootSites == RootSites(s)
  {
    var content := ScanBar(s);
    if content.None? {
      return [];
    }
    rootSites := ParseSitesInFolder(content.value);
  }

  /** The span of the fallback, when the export marks no bookmarks bar: from
      just past the first `<DL><p>` to 8 characters before where the scan
      stops, taken with `substring`. */
  function FallbackContent(s: string): Option<string> {
    match FindOpen(s, 0)
    case None => None
    case Some(d) =>
      var dlStart := d + 7;
      var pos := match BalancingClose(s, dlStart) case Some(c) => c + 8 case None => LastMarkerEnd(s, dlStart);
      Some(JsSubstring(s, dlStart, pos - 8))
  }

  /** The fallback scan: the first `<DL><p>`, the container scan, and the
      end placed 8 characters before where the scan stops. */
  method ScanFallback(s: string) returns (content: Option<string>)
    ensures content == FallbackContent(s)
  {
    var firstDLMatch := FindOpen(s, 0);
    if firstDLMatch.None? {
      return None;
    }
    var dlStart := firstDLMatch.value + 7;
    var close, pos := ScanContainer(s, dlStart);
    var dlEnd := pos as int - 8;
    content := Some(JsSubstring(s, dlStart, dlEnd));
  }

  /** The categories before the root category is added. */
  function Categories(s: string): seq<Category> {
    var content := if NextHeader(s, 0, Toolbar).None? then FallbackContent(s) else BarContent(s);
    match content
    case None => []
    case Some(c) => NestedFolders(c, [], 1)
  }

  /** The categories from the bookmarks bar, or from the fallback span when
      the export marks no bar. */
  method ParseCategories(s: string) returns (categories: seq<Category>)
    ensures categories == Categories(s)
  {
    var content: Option<string>;
    var bookmarkBarMatch := NextHeader(s, 0, Toolbar);
    if bookmarkBarMatch.None? {
      content := ScanFallback(s);
    } else {
      content := ScanBar(s);
    }
    if content.None? {
      return [];
    }
    categories := ParseNestedFolder(content.value, [], 1);
  }

  /** The root category holding the root bookmarks. */
  function RootCategory(rootSites: seq<Site>): (c: Category)
    ensures c.name == ROOT_NAME && c.path == [ROOT_NAME] && c.sites == Some(rootSites)
  {
    Category(ROOT_NAME, ROOT_ICON, [ROOT_NAME], Some(rootSites), None)
  }

  /** The `categories` of the result of `parseBookmarks`. */
  function Bookmarks(s: string): seq<Category> {
    var rootSites := RootSites(s);
    if |rootSites| > 0 then [RootCategory(rootSites)] + Categories(s) else Categories(s)
  }

  /** `parseBookmarks`: the root bookmarks, the categories, and the root
      category put first when there are root bookmarks. */
  method ParseBookmarks(s: string) returns (categories: seq<Category>)
    ensures categories == Bookmarks(s)
  {
    var rootSites := ExtractRootBookmarks(s);
    categories := ParseCategories(s);
    if |rootSites| > 0 {
      categories := [RootCategory(rootSites)] + categories;
    }
  }

  /** The bar's content ends exactly before its balancing `</DL><p>`, and
      runs to the end of the text only when nothing balances it. */
  lemma BarEndIff(s: string, contentStart: nat, e: nat)
    requires contentStart <= |s|
    ensures BarEnd(s, contentStart) == e <==>
      IsBalancingClose(s, contentStart, e) || (e == |s| && forall k: nat :: !IsBalancingClose(s, contentStart, k))
  {
    BalancingCloseIff(s, contentStart, e);
    if BalancingClose(s, contentStart).Some? {
      BalancingCloseIff(s, contentStart, BalancingClose(s, contentStart).value);
    }
  }

  /** A toolbar header without a `<DL><p>` after it gives no categories and
      no root bookmarks. */
  lemma ToolbarWithoutContainer(s: string)
    requires NextHeader(s, 0, Toolbar).Some? && FindOpen(s, NextHeader(s, 0, Toolbar).value.end).None?
    ensures RootSites(s) == [] && Bookmarks(s) == []
  {
  }

  /** Without a toolbar header there are no root bookmarks, so the result is
      the fallback's categories alone. */
  lemma FallbackHasNoRoot(s: string)
    requires NextHeader(s, 0, Toolbar).None?
    ensures RootSites(s) == [] && Bookmarks(s) == Categories(s)
    ensures Categories(s) == if FallbackContent(s).None? then [] else NestedFolders(FallbackContent(s).value, [], 1)
  {
  }

  /** The root category is put first exactly when there are root bookmarks,
      and the other categories follow unchanged. */
  lemma RootCategoryFirst(s: string)
    ensures |RootSites(s)| > 0 ==>
      && |Bookmarks(s)| == |Categories(s)| + 1
      && Bookmarks(s)[0] == Category(ROOT_NAME, ROOT_ICON, [ROOT_NAME], Some(RootSites(s)), None)
      && Bookmarks(s)[1..] == Categories(s)
    ensures |RootSites(s)| == 0 ==> Bookmarks(s) == Categories(s)
  {
  }

  /** With a balanced first container, the fallback takes the same span as
      the bar would: up to its balancing `</DL><p>`, the marker excluded. */
  lemma FallbackBalanced(s: string, d: nat, c: nat)
    requires FindOpen(s, 0) == Some(d) && IsBalancingClose(s, d + 7, c)
    ensures FallbackContent(s) == Some(s[d + 7..c])
  {
    BalancingCloseIff(s, d + 7, c);
  }

  /** With no marker after the first `<DL><p>`, the scan stops where it
      started, the end lies 8 characters before, and `substring` swaps the
      two: the span is the `<DL><p>` itself with the character before it, or
      the marker alone when it opens the text (the end, -1, acts as 0), and
      never the rest of the text. */
  lemma FallbackWithoutMarkers(s: string, d: nat)
    requires FindOpen(s, 0) == Some(d)
    requires forall k :: d + 7 <= k ==> !OpenAt(s, k) && !CloseAt(s, k)
    ensures d >= 1 ==> FallbackContent(s) == Some(s[d - 1..d + 7])
    ensures d == 0 ==> FallbackContent(s) == Some(s[0..7])
  {
    var p := d + 7;
    BalancingCloseIff(s, p, 0);
    assert BalancingClose(s, p).None?;
    CountsSkip(s, p, p, |s|);
    assert LastMarkerEnd(s, p) == p;
  }

  /** Every category built from the span is well formed at level 1, and so
      at most four levels deep. */
  lemma CategoriesWellFormed(s: string)
    ensures forall c :: c in Categories(s) ==> WellFormed(c, [], 1) && LevelsAtMost(c, MAX_LEVEL)
  {
    var content := if NextHeader(s, 0, Toolbar).None? then FallbackContent(s) else BarContent(s);
    if content.Some? {
      NestedFoldersWellFormed(content.value, [], 1);
      forall c | c in Categories(s)
        ensures LevelsAtMost(c, MAX_LEVEL)
      {
        WellFormedLevels(c, [], 1);
      }
    }
  }
}
