/** `parseNestedFolder`: the category tree. The folders of a span are those
    recorded folder ranges that no other range encloses; each becomes a node
    whose sites are the bookmarks directly in its content and whose children
    are the folders of its content, one level down, up to level 4. */
module Tree {
  import opened Text
  import opened Seqs
  import opened Patterns
  import opened Scanner
  import opened Ranges
  import opened Sites

  const FOLDER_ICON: string := "fas fa-folder"

  /** The deepest level whose folders are still searched for subfolders is 3:
      children are computed only while `level < MAX_LEVEL`. */
  const MAX_LEVEL: nat := 4

  /** The key under which a node stores its children. */
  datatype ChildKey = Subcategories | Groups | Subgroups

  /** A folder node. `sites` and `children` are absent when the source never
      assigns the corresponding property. */
  datatype Category = Category(name: string, icon: string, path: seq<string>, sites: Option<seq<Site>>, children: Option<Children>)

  datatype Children = Children(key: ChildKey, items: seq<Category>)

  /** The child key of each level: subcategories, groups, subgroups. */
  function KeyFor(level: nat): (k: Option<ChildKey>)
    ensures k.Some? <==> 1 <= level <= 3
  {
    if level == 1 then Some(Subcategories)
    else if level == 2 then Some(Groups)
    else if level == 3 then Some(Subgroups)
    else None
  }

  /** The children property assigned at `level`: none outside levels 1 to 3. */
  function ChildrenAt(level: nat, subfolders: seq<Category>): (ch: Option<Children>)
    ensures ch.Some? <==> 1 <= level <= 3
    ensures ch.Some? ==> ch.value == Children(KeyFor(level).value, subfolders)
  {
    match KeyFor(level)
    case None => None
    case Some(k) => Some(Children(k, subfolders))
  }

  /** A node is kept only when it has a non-empty site list or a non-empty child list. */
  predicate HasContent(c: Category) {
    (c.sites.Some? && |c.sites.value| > 0) || (c.children.Some? && |c.children.value.items| > 0)
  }

  /** The content of a recorded folder: from just past its header to just
      past its balancing `</DL><p>`. */
  function ContentOf(s: string, k: nat): (content: string)
    requires k < |FolderRanges(s)|
    ensures |content| < |s|
  {
    FolderRangeBounds(s, k);
    s[FolderRanges(s)[k].headerEnd..FolderRanges(s)[k].end]
  }

  /** The folders `parseNestedFolder(s, parentPath, level)` returns: the
      nodes emitted for the recorded ranges, in order. */
  function NestedFolders(s: string, parentPath: seq<string>, level: nat): seq<Category>
    decreases |s|, 2, 0
  {
    Collect(FolderEmitter(s, parentPath, level), 0, |FolderRanges(s)|)
  }

  /** FolderAt as a function of the range index. */
  function FolderEmitter(s: string, parentPath: seq<string>, level: nat): nat -> Option<Category>
    decreases |s|, 1, 0
  {
    (j: nat) => if j < |FolderRanges(s)| then FolderAt(s, parentPath, level, j) else None
  }

  /** The node the second pass emits for range `i`, if any: none for a
      nested range, for content without `<DL><p>`, or for a node without content. */
  function FolderAt(s: string, parentPath: seq<string>, level: nat, i: nat): (r: Option<Category>)
    requires i < |FolderRanges(s)|
    decreases |s|, 0, 1
    ensures IsNested(FolderRanges(s), i) ==> r.None?
    ensures r.Some? ==> r.value.name == FolderRanges(s)[i].name && r.value.icon == FOLDER_ICON
    ensures r.Some? ==> r.value.path == parentPath + [r.value.name] && HasContent(r.value)
  {
    if IsNested(FolderRanges(s), i) || FindOpen(ContentOf(s, i), 0).None? then None
    else
      var folder := NodeOf(s, parentPath, level, i);
      if HasContent(folder) then Some(folder) else None
  }

  /** The node built for range `i`: children only when its content holds a
      Lazy header and `level < MAX_LEVEL`, and then sites only when there are
      some; otherwise sites always and no children. */
  function NodeOf(s: string, parentPath: seq<string>, level: nat, i: nat): (c: Category)
    requires i < |FolderRanges(s)|
    decreases |s|, 0, 0
  {
    var name := FolderRanges(s)[i].name;
    var content := ContentOf(s, i);
    var path := parentPath + [name];
    var sites := SitesIn(content);
    if NextHeader(content, 0, Lazy).Some? && level < MAX_LEVEL then
      Category(name, FOLDER_ICON, path, if |sites| > 0 then Some(sites) else None,
               ChildrenAt(level, NestedFolders(content, path, level + 1)))
    else
      Category(name, FOLDER_ICON, path, Some(sites), None)
  }

  /** The body of the second pass for range `i`: skip a nested range and
      content without `<DL><p>`, build the node, keep it if it has content. */
  method ParseFolder(s: string, folderRanges: seq<FolderRange>, parentPath: seq<string>, level: nat, i: nat)
    returns (here: seq<Category>)
    requires folderRanges == FolderRanges(s) && i < |folderRanges|
    decreases |s|, 1, 0
    ensures here == Recorded(FolderAt(s, parentPath, level, i))
  {
    var isNested := NestedAt(folderRanges, i);
    if isNested {
      return [];
    }
    var folderContent := ContentOf(s, i);
    if FindOpen(folderContent, 0).None? {
      return [];
    }
    var folder := BuildFolder(s, parentPath, level, i);
    here := if HasContent(folder) then [folder] else [];
  }

  /** The node of range `i`: sites of the current level first, then the
      subfolders one level down when there are any and the cap allows. */
  method BuildFolder(s: string, parentPath: seq<string>, level: nat, i: nat) returns (folder: Category)
    requires i < |FolderRanges(s)|
    decreases |s|, 0, 1
    ensures folder == NodeOf(s, parentPath, level, i)
  {
    var folderContent := ContentOf(s, i);
    var hasSubfolders := NextHeader(folderContent, 0, Lazy).Some?;
    var currentLevelSites := ParseSitesInFolder(folderContent);
    if hasSubfolders && level < MAX_LEVEL {
      folder := BuildParent(s, parentPath, level, i, currentLevelSites);
    } else {
      folder := Category(FolderRanges(s)[i].name, FOLDER_ICON, parentPath + [FolderRanges(s)[i].name], Some(currentLevelSites), None);
      ghost var node := NodeOf(s, parentPath, level, i);
      assert folder.sites == node.sites && folder.children == node.children;
    }
  }

  /** A node whose content holds a Lazy header below the cap: its sites only
      if there are some, and the folders of its content one level down. */
  method BuildParent(s: string, parentPath: seq<string>, level: nat, i: nat, currentLevelSites: seq<Site>)
    returns (folder: Category)
    requires i < |FolderRanges(s)| && currentLevelSites == SitesIn(ContentOf(s, i))
    requires NextHeader(ContentOf(s, i), 0, Lazy).Some? && level < MAX_LEVEL
    decreases |s|, 0, 0
    ensures folder == NodeOf(s, parentPath, level, i)
  {
    var folderName := FolderRanges(s)[i].name;
    var path := parentPath + [folderName];
    var subfolders := ParseNestedFolder(ContentOf(s, i), path, level + 1);
    var sites := if |currentLevelSites| > 0 then Some(currentLevelSites) else None;
    folder := Category(folderName, FOLDER_ICON, path, sites, ChildrenAt(level, subfolders));
    ghost var node := NodeOf(s, parentPath, level, i);
    assert folder.sites == node.sites && folder.children == node.children;
  }

  /** `parseNestedFolder`: index the folder ranges, then emit the node of
      every range of the current level, in header order. */
  method ParseNestedFolder(s: string, parentPath: seq<string>, level: nat) returns (folders: seq<Category>)
    decreases |s|, 2, 0
    ensures folders == NestedFolders(s, parentPath, level)
  {
    var folderRanges := ScanFolderRanges(s);
    folders := [];
    ghost var emitter := FolderEmitter(s, parentPath, level);
    for i := 0 to |folderRanges|
      invariant folders + Collect(emitter, i, |folderRanges|) == NestedFolders(s, parentPath, level)
    {
      var here := ParseFolder(s, folderRanges, parentPath, level, i);
      assert emitter(i) == FolderAt(s, parentPath, level, i);
      AppendAssoc(folders, here, Collect(emitter, i + 1, |folderRanges|));
      folders := folders + here;
    }
  }

  /** The node itself is as `parseNestedFolder` builds it at `level` under
      `parentPath`: the folder icon, the path extended by its name, some
      content, sites whenever there are no children, and children only below
      the cap, under the key of the level, with sites then only if non-empty. */
  predicate NodeShape(c: Category, parentPath: seq<string>, level: nat) {
    && c.icon == FOLDER_ICON
    && c.path == parentPath + [c.name]
    && HasContent(c)
    && (c.children.None? ==> c.sites.Some?)
    && (c.children.Some? ==>
          && 1 <= level < MAX_LEVEL
          && c.children.value.key == KeyFor(level).value
          && (c.sites.Some? ==> |c.sites.value| > 0))
  }

  /** A node and every node below it are as `parseNestedFolder` builds them. */
  ghost predicate WellFormed(c: Category, parentPath: seq<string>, level: nat)
    decreases c
  {
    && NodeShape(c, parentPath, level)
    && (c.children.Some? ==> forall d :: d in c.children.value.items ==> WellFormed(d, c.path, level + 1))
  }

  /** Every folder `parseNestedFolder` returns is well formed. */
  lemma {:induction false} NestedFoldersWellFormed(s: string, parentPath: seq<string>, level: nat)
    decreases |s|, 2, 0
    ensures forall c :: c in NestedFolders(s, parentPath, level) ==> WellFormed(c, parentPath, level)
  {
    var emitter := FolderEmitter(s, parentPath, level);
    forall c | c in NestedFolders(s, parentPath, level)
      ensures WellFormed(c, parentPath, level)
    {
      CollectSound(emitter, 0, |FolderRanges(s)|, c);
      var j :| 0 <= j < |FolderRanges(s)| && emitter(j) == Some(c);
      FolderAtWellFormed(s, parentPath, level, j);
    }
  }

  lemma {:induction false} FolderAtWellFormed(s: string, parentPath: seq<string>, level: nat, i: nat)
    requires i < |FolderRanges(s)|
    decreases |s|, 0, 1
    ensures FolderAt(s, parentPath, level, i).Some? ==> WellFormed(FolderAt(s, parentPath, level, i).value, parentPath, level)
  {
    if FolderAt(s, parentPath, level, i).Some? {
      FolderAtIff(s, parentPath, level, i);
      NodeWellFormed(s, parentPath, level, i);
    }
  }

  /** A node with content is well formed, given that the folders of its
      content are, one level down. */
  lemma {:induction false} NodeWellFormed(s: string, parentPath: seq<string>, level: nat, i: nat)
    requires i < |FolderRanges(s)| && HasContent(NodeOf(s, parentPath, level, i))
    decreases |s|, 0, 0
    ensures WellFormed(NodeOf(s, parentPath, level, i), parentPath, level)
  {
    var c := NodeOf(s, parentPath, level, i);
    var kids := NestedFolders(ContentOf(s, i), c.path, level + 1);
    NodeOfShape(s, parentPath, level, i);
    NestedFoldersWellFormed(ContentOf(s, i), c.path, level + 1);
    WellFormedFrom(c, parentPath, level, kids);
  }

  /** The shape of a node with content. */
  lemma NodeOfShape(s: string, parentPath: seq<string>, level: nat, i: nat)
    requires i < |FolderRanges(s)| && HasContent(NodeOf(s, parentPath, level, i))
    ensures NodeShape(NodeOf(s, parentPath, level, i), parentPath, level)
    ensures NodeOf(s, parentPath, level, i).children.Some? ==>
      NodeOf(s, parentPath, level, i).children.value.items ==
      NestedFolders(ContentOf(s, i), NodeOf(s, parentPath, level, i).path, level + 1)
  {
    NodeContents(s, parentPath, level, i);
  }

  /** A node of the right shape whose children are well formed is well formed. */
  lemma WellFormedFrom(c: Category, parentPath: seq<string>, level: nat, kids: seq<Category>)
    requires NodeShape(c, parentPath, level)
    requires c.children.Some? ==> c.children.value.items == kids
    requires forall d :: d in kids ==> WellFormed(d, c.path, level + 1)
    ensures WellFormed(c, parentPath, level)
  {
  }

  /** The `<DL><p>` test on a folder's content never fails: a recorded range
      contains the container it was balanced on. So a range gives a node
      exactly when no other range encloses it and its node has content. */
  lemma FolderAtIff(s: string, parentPath: seq<string>, level: nat, i: nat)
    requires i < |FolderRanges(s)|
    ensures FolderAt(s, parentPath, level, i).Some? <==>
      !IsNested(FolderRanges(s), i) && HasContent(NodeOf(s, parentPath, level, i))
    ensures FolderAt(s, parentPath, level, i).Some? ==> FolderAt(s, parentPath, level, i).value == NodeOf(s, parentPath, level, i)
  {
    RecordedContentHasContainer(s, i);
  }

  /** What a node holds: children exactly when its content has a Lazy header
      and the level is 1 to 3, and then the folders of its content one level
      down; sites are those directly in its content. */
  lemma NodeContents(s: string, parentPath: seq<string>, level: nat, i: nat)
    requires i < |FolderRanges(s)|
    ensures NodeOf(s, parentPath, level, i).children.Some? <==>
      NextHeader(ContentOf(s, i), 0, Lazy).Some? && 1 <= level < MAX_LEVEL
    ensures NodeOf(s, parentPath, level, i).children.Some? ==>
      NodeOf(s, parentPath, level, i).children.value.items ==
      NestedFolders(ContentOf(s, i), parentPath + [FolderRanges(s)[i].name], level + 1)
    ensures NodeOf(s, parentPath, level, i).sites.Some? ==>
      NodeOf(s, parentPath, level, i).sites.value == SitesIn(ContentOf(s, i))
    ensures NodeOf(s, parentPath, level, i).sites.None? <==>
      NextHeader(ContentOf(s, i), 0, Lazy).Some? && level < MAX_LEVEL && SitesIn(ContentOf(s, i)) == []
  {
    var content := ContentOf(s, i);
    var sites := SitesIn(content);
    var node := NodeOf(s, parentPath, level, i);
    if NextHeader(content, 0, Lazy).Some? && level < MAX_LEVEL {
      assert node.sites == if |sites| > 0 then Some(sites) else None;
      assert node.children == ChildrenAt(level, NestedFolders(content, parentPath + [FolderRanges(s)[i].name], level + 1));
    } else {
      assert node.sites == Some(sites) && node.children.None?;
    }
  }

  /** The folders of a span are exactly the nodes of its ranges of the current level. */
  lemma NestedFoldersIff(s: string, parentPath: seq<string>, level: nat, c: Category)
    ensures c in NestedFolders(s, parentPath, level) <==>
      exists j :: (0 <= j < |FolderRanges(s)| && !IsNested(FolderRanges(s), j)
                   && HasContent(NodeOf(s, parentPath, level, j)) && NodeOf(s, parentPath, level, j) == c)
  {
    var emitter := FolderEmitter(s, parentPath, level);
    if c in NestedFolders(s, parentPath, level) {
      CollectSound(emitter, 0, |FolderRanges(s)|, c);
      var j :| 0 <= j < |FolderRanges(s)| && emitter(j) == Some(c);
      FolderAtIff(s, parentPath, level, j);
    } else {
      forall j | 0 <= j < |FolderRanges(s)| && !IsNested(FolderRanges(s), j) && HasContent(NodeOf(s, parentPath, level, j))
        ensures NodeOf(s, parentPath, level, j) != c
      {
        FolderAtIff(s, parentPath, level, j);
        assert emitter(j) == Some(NodeOf(s, parentPath, level, j));
        CollectComplete(emitter, 0, |FolderRanges(s)|, j);
      }
    }
  }

  /** The node counts at most `n` levels. */
  ghost predicate LevelsAtMost(c: Category, n: nat)
    decreases c
  {
    n >= 1 && (c.children.Some? ==> forall d :: d in c.children.value.items ==> LevelsAtMost(d, n - 1))
  }

  /** The level cap: a well-formed node at `level` spans at most
      `MAX_LEVEL + 1 - level` levels, so a tree built from level 1 is at most
      four levels deep. */
  lemma {:induction false} WellFormedLevels(c: Category, parentPath: seq<string>, level: nat)
    requires WellFormed(c, parentPath, level) && 1 <= level <= MAX_LEVEL
    decreases c
    ensures LevelsAtMost(c, MAX_LEVEL + 1 - level)
  {
    if c.children.Some? {
      forall d | d in c.children.value.items
        ensures LevelsAtMost(d, MAX_LEVEL - level)
      {
        WellFormedLevels(d, c.path, level + 1);
      }
    }
  }
}
