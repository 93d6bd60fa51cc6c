/** `parseSitesInFolder`: the bookmarks that lie directly in a span of the
    export, outside every subfolder of it. The same pass, on the content of
    the bookmarks bar, gives the root bookmarks of `extractRootBookmarks`. */
module Sites {
  import opened Text
  import opened Seqs
  import opened Patterns
  import opened Ranges
  import opened Icons

  /** A bookmark as the generated configuration lists it. */
  datatype Site = Site(name: string, url: string, icon: string, description: string)

  /** The site a bookmark link describes: its trimmed text, its URL as
      written, the icon its URL selects and an empty description. */
  function SiteOf(l: Link): (site: Site)
    ensures site.name == Trim(l.text) && site.url == l.url && site.description == ""
  {
    Site(Trim(l.text), l.url, IconFor(l.url), "")
  }

  /** Offset `pos` lies in one of the half-open subfolder spans `[start, end)`. */
  predicate InSubfolder(subs: seq<Subfolder>, pos: nat) {
    exists k :: 0 <= k < |subs| && subs[k].start <= pos < subs[k].end
  }

  /** The membership loop over the subfolder spans. */
  method InAnySubfolder(subs: seq<Subfolder>, pos: nat) returns (inSubfolder: bool)
    ensures inSubfolder <==> InSubfolder(subs, pos)
  {
    inSubfolder := false;
    for k := 0 to |subs|
      invariant forall m :: 0 <= m < k ==> !(subs[m].start <= pos < subs[m].end)
    {
      if pos >= subs[k].start && pos < subs[k].end {
        inSubfolder := true;
        break;
      }
    }
  }

  /** What the pass records for one link, given the subfolder spans. */
  function SiteRecorder(subs: seq<Subfolder>): Link -> Option<Site> {
    (l: Link) => if InSubfolder(subs, l.start) then None else Some(SiteOf(l))
  }

  /** The sites recorded for the links `exec` visits from `lastIndex` on. */
  function SitesFrom(s: string, subs: seq<Subfolder>, lastIndex: nat): seq<Site> {
    Keep(SiteRecorder(subs), Links(s, lastIndex))
  }

  /** The sites directly in span `s`. */
  function SitesIn(s: string): seq<Site> {
    SitesFrom(s, Subfolders(s), 0)
  }

  /** One step of the link pass. */
  lemma SitesStep(s: string, subs: seq<Subfolder>, lastIndex: nat)
    ensures NextLink(s, lastIndex).None? ==> SitesFrom(s, subs, lastIndex) == []
    ensures NextLink(s, lastIndex).Some? ==>
      SitesFrom(s, subs, lastIndex) ==
      Recorded(SiteRecorder(subs)(NextLink(s, lastIndex).value)) + SitesFrom(s, subs, NextLink(s, lastIndex).value.end)
  {
    LinksStep(s, lastIndex);
    if NextLink(s, lastIndex).Some? {
      var l := NextLink(s, lastIndex).value;
      KeepCons(SiteRecorder(subs), l, Links(s, l.end));
    }
  }

  /** The body of the link pass for one link: skip it when it starts inside
      a subfolder, otherwise look up its icon and record its site. */
  method SiteFor(subs: seq<Subfolder>, l: Link) returns (here: seq<Site>)
    ensures here == Recorded(SiteRecorder(subs)(l))
  {
    var inSubfolder := InAnySubfolder(subs, l.start);
    if inSubfolder {
      return [];
    }
    var icon := LookupIcon(l.url);
    here := [Site(Trim(l.text), l.url, icon, "")];
  }

  /** `parseSitesInFolder`: the subfolder pass, then every link in order. */
  method ParseSitesInFolder(s: string) returns (sites: seq<Site>)
    ensures sites == SitesIn(s)
  {
    var subfolderRanges := ScanSubfolders(s);
    sites := [];
    var lastIndex: nat := 0;
    var bookmarkMatch := NextLink(s, lastIndex);
    while bookmarkMatch.Some?
      invariant bookmarkMatch == NextLink(s, lastIndex)
      invariant sites + SitesFrom(s, subfolderRanges, lastIndex) == SitesIn(s)
      decreases |s| - lastIndex
    {
      var l := bookmarkMatch.value;
      var here := SiteFor(subfolderRanges, l);
      SitesStep(s, subfolderRanges, lastIndex);
      AppendAssoc(sites, here, SitesFrom(s, subfolderRanges, l.end));
      sites := sites + here;
      lastIndex := l.end;
      bookmarkMatch := NextLink(s, lastIndex);
    }
    SitesStep(s, subfolderRanges, lastIndex);
  }

  /** The link the `k`-th site was recorded for: a link the pass visits that
      starts outside every subfolder. */
  function SiteLink(s: string, k: nat): (l: Link)
    requires k < |SitesIn(s)|
    ensures l in Links(s, 0) && !InSubfolder(Subfolders(s), l.start) && SitesIn(s)[k] == SiteOf(l)
  {
    var ls := Links(s, 0);
    var f := SiteRecorder(Subfolders(s));
    OriginProduces(f, ls, k);
    var l := ls[Origin(f, ls, k)];
    assert f(l) == Some(SitesIn(s)[k]);
    l
  }

  /** Every link the pass visits outside all subfolders gives a site. */
  lemma SitesComplete(s: string, l: Link)
    requires l in Links(s, 0) && !InSubfolder(Subfolders(s), l.start)
    ensures SiteOf(l) in SitesIn(s)
  {
    var ls := Links(s, 0);
    var f := SiteRecorder(Subfolders(s));
    var m :| 0 <= m < |ls| && ls[m] == l;
    assert f(ls[m]) == Some(SiteOf(l));
    KeepComplete(f, ls, m);
  }

  /** Sites keep the order of their links in the text. */
  lemma SitesInTextOrder(s: string, i: nat, j: nat)
    requires i < j < |SitesIn(s)|
    ensures SiteLink(s, i).end <= SiteLink(s, j).start
  {
    var ls := Links(s, 0);
    var f := SiteRecorder(Subfolders(s));
    OriginMonotone(f, ls, i, j);
    LinksOrdered(s, 0);
    var oi, oj := Origin(f, ls, i), Origin(f, ls, j);
    assert SiteLink(s, i) == ls[oi];
    assert SiteLink(s, j) == ls[oj];
  }

  /** Every site carries the icon its URL selects, never the unreachable
      Drive or Docs icon, and an empty description. */
  lemma SiteFields(s: string, k: nat)
    requires k < |SitesIn(s)|
    ensures SitesIn(s)[k].icon == IconFor(SitesIn(s)[k].url)
    ensures SitesIn(s)[k].icon != "fab fa-google-drive" && SitesIn(s)[k].icon != "fas fa-file-alt"
    ensures SitesIn(s)[k].description == ""
  {
    var l := SiteLink(s, k);
    DriveAndDocsIconsUnreachable(l.url);
  }
}
