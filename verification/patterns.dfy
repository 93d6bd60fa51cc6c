/** The regular expressions of the bookmark parser, each replaced by a
    recognizer that decides whether the pattern matches at one offset and what
    it captures, plus a leftmost search from an offset (what `exec` on a global
    pattern does from `lastIndex`, and `match`/`test` from 0).

    - the folder header in two spellings, `<DT><H3([^>]*)>(.*?)<\/H3>` (Lazy)
      and `<DT><H3[^>]*>([^<]+)<\/H3>` (Plain), and the toolbar header
      `<DT><H3[^>]*PERSONAL_TOOLBAR_FOLDER[^>]*>([^<]+)<\/H3>` with `/i`;
    - the bookmark entry `<DT><A HREF="([^"]+)"[^>]*>(.*?)<\/A>`. */
module Patterns {
  import opened Text
  import opened Seqs

  const HEADER_TAG: string := "<DT><H3"
  const HEADER_END: string := "</H3>"
  const TOOLBAR_MARK: string := "PERSONAL_TOOLBAR_FOLDER"
  const LINK_TAG: string := "<DT><A HREF=\""
  const LINK_END: string := "</A>"

  /** The three spellings of the folder-header pattern. */
  datatype HeaderStyle =
    | Lazy     // `<DT><H3([^>]*)>(.*?)<\/H3>`: the name runs to the first `</H3>` on the same line
    | Plain    // `<DT><H3[^>]*>([^<]+)<\/H3>`: the name is a non-empty run without `<`
    | Toolbar  // as Plain, with `/i`, and PERSONAL_TOOLBAR_FOLDER among the attributes

  /** A header match: its offset, the offset just past `</H3>`, and the captured name (untrimmed). */
  datatype Header = Header(start: nat, end: nat, name: string)

  /** A bookmark match: its offset, the offset just past `</A>`, the URL and the link text (untrimmed). */
  datatype Link = Link(start: nat, end: nat, url: string, text: string)

  /** Where `<DT><H3[^>]*>` anchored at `i` ends: the offset of its `>`. */
  function HeaderTagEnd(s: string, i: nat, ignoreCase: bool): (g: Option<nat>)
    ensures g.Some? ==> i + |HEADER_TAG| <= g.value < |s| && s[g.value] == '>'
  {
    if !MatchesAt(s, i, HEADER_TAG, ignoreCase) then None
    else
      var g := CharFrom(s, '>', i + |HEADER_TAG|);
      if g == |s| then None else Some(g)
  }

  /** `(.*?)<\/H3>` after the `>` at `g`: the name runs to the first `</H3>`,
      which must lie on the same line. Gives the offset of that `</H3>`. */
  function LazyNameEnd(s: string, g: nat): (p: Option<nat>)
    requires g < |s|
    ensures p.Some? ==> g + 1 <= p.value && p.value + |HEADER_END| <= |s|
  {
    match IndexOf(s, HEADER_END, g + 1, false)
    case None => None
    case Some(p) => if OnOneLine(s, g + 1, p) then Some(p) else None
  }

  /** `([^<]+)<\/H3>` after the `>` at `g`: a non-empty name ending at the
      first `<`, which must open `</H3>`. Gives the offset of that `</H3>`. */
  function PlainNameEnd(s: string, g: nat, ignoreCase: bool): (p: Option<nat>)
    requires g < |s|
    ensures p.Some? ==> g + 1 < p.value && p.value + |HEADER_END| <= |s|
  {
    var p := CharFrom(s, '<', g + 1);
    if p == g + 1 || !MatchesAt(s, p, HEADER_END, ignoreCase) then None else Some(p)
  }

  /** The header pattern of the given style, anchored at `i`. `[^>]*>` ends at
      the first `>`; in the Lazy style `(.*?)` ends at the first `</H3>`, which
      must be on the same line; in the other styles `([^<]+)` ends at the first `<`. */
  function HeaderAt(s: string, i: nat, style: HeaderStyle): (r: Option<Header>)
    ensures r.Some? ==> r.value.start == i && i + |HEADER_TAG| < r.value.end <= |s|
  {
    var ignoreCase := style == Toolbar;
    match HeaderTagEnd(s, i, ignoreCase)
    case None => None
    case Some(g) =>
      if style == Toolbar && IndexOf(s[i + |HEADER_TAG|..g], TOOLBAR_MARK, 0, true).None? then None
      else
        var p := if style == Lazy then LazyNameEnd(s, g) else PlainNameEnd(s, g, ignoreCase);
        match p
        case None => None
        case Some(p) => Some(Header(i, p + |HEADER_END|, s[g + 1..p]))
  }

  /** The bookmark pattern anchored at `i`. */
  function LinkAt(s: string, i: nat): (r: Option<Link>)
    ensures r.Some? ==> r.value.start == i && i + |LINK_TAG| < r.value.end <= |s|
  {
    if !MatchesAt(s, i, LINK_TAG, false) then None
    else
      var u := i + |LINK_TAG|;
      var q := CharFrom(s, '"', u);
      if q == |s| || q == u then None
      else
        var g := CharFrom(s, '>', q + 1);
        if g == |s| then None
        else
          match IndexOf(s, LINK_END, g + 1, false)
          case None => None
          case Some(p) => if OnOneLine(s, g + 1, p) then Some(Link(i, p + |LINK_END|, s[u..q], s[g + 1..p])) else None
  }

  /** The header pattern of a style as a recognizer over offsets. */
  function HeaderRecognizer(s: string, style: HeaderStyle): nat -> Option<Header> {
    (k: nat) => HeaderAt(s, k, style)
  }

  function HeaderStart(h: Header): nat { h.start }
  function HeaderEnd(h: Header): nat { h.end }

  lemma HeaderRecognizerSound(s: string, style: HeaderStyle)
    ensures Recognizer(HeaderRecognizer(s, style), HeaderStart, HeaderEnd, |s|)
  {
    forall k: nat | HeaderRecognizer(s, style)(k).Some?
      ensures HeaderStart(HeaderRecognizer(s, style)(k).value) == k
      ensures k < HeaderEnd(HeaderRecognizer(s, style)(k).value) <= |s|
    {
      assert HeaderRecognizer(s, style)(k) == HeaderAt(s, k, style);
    }
  }

  /** The leftmost header match starting at or after `from`: `search`, `match`
      or one `exec` step of the header pattern. */
  function NextHeader(s: string, from: nat, style: HeaderStyle): (r: Option<Header>)
    ensures r.Some? ==> from <= r.value.start < r.value.end <= |s|
  {
    match FirstMatch(HeaderRecognizer(s, style), from, |s|)
    case None => None
    case Some(k) => HeaderAt(s, k, style)
  }

  /** NextHeader returns a match at its own offset, and nothing matches
      between `from` and that offset; when it returns none, nothing matches
      at or after `from`. */
  lemma NextHeaderFirst(s: string, from: nat, style: HeaderStyle)
    ensures NextHeader(s, from, style).Some? ==>
      HeaderAt(s, NextHeader(s, from, style).value.start, style) == NextHeader(s, from, style)
    ensures NextHeader(s, from, style).Some? ==>
      forall k :: from <= k < NextHeader(s, from, style).value.start ==> HeaderAt(s, k, style).None?
    ensures NextHeader(s, from, style).None? ==> forall k :: from <= k ==> HeaderAt(s, k, style).None?
  {
    var f := HeaderRecognizer(s, style);
    FirstMatchFirst(f, from, |s|);
    forall k: nat | from <= k && (NextHeader(s, from, style).None? || k < NextHeader(s, from, style).value.start)
      ensures HeaderAt(s, k, style).None?
    {
      assert f(k) == HeaderAt(s, k, style);
    }
    if NextHeader(s, from, style).Some? {
      var k := FirstMatch(f, from, |s|).value;
      assert f(k) == HeaderAt(s, k, style);
    }
  }

  /** The header matches a global `exec` loop visits from `lastIndex` on. */
  function Headers(s: string, lastIndex: nat, style: HeaderStyle): (hs: seq<Header>)
    ensures forall k :: 0 <= k < |hs| ==> lastIndex <= hs[k].start < hs[k].end <= |s|
  {
    HeaderRecognizerSound(s, style);
    Visits(HeaderRecognizer(s, style), HeaderStart, HeaderEnd, lastIndex, |s|)
  }

  /** One step of the `exec` loop over headers. */
  lemma HeadersStep(s: string, lastIndex: nat, style: HeaderStyle)
    ensures NextHeader(s, lastIndex, style).None? ==> Headers(s, lastIndex, style) == []
    ensures NextHeader(s, lastIndex, style).Some? ==>
      Headers(s, lastIndex, style) ==
      [NextHeader(s, lastIndex, style).value] + Headers(s, NextHeader(s, lastIndex, style).value.end, style)
  {
    var f := HeaderRecognizer(s, style);
    HeaderRecognizerSound(s, style);
    match FirstMatch(f, lastIndex, |s|)
    case None =>
      VisitsDone(f, HeaderStart, HeaderEnd, lastIndex, |s|);
    case Some(k) =>
      assert f(k) == HeaderAt(s, k, style);
      VisitsStep(f, HeaderStart, HeaderEnd, lastIndex, |s|, k);
  }

  /** The visited headers are header matches at their own offsets. */
  lemma HeadersMatch(s: string, lastIndex: nat, style: HeaderStyle)
    ensures forall i :: 0 <= i < |Headers(s, lastIndex, style)| ==>
      HeaderAt(s, Headers(s, lastIndex, style)[i].start, style) == Some(Headers(s, lastIndex, style)[i])
  {
    var f := HeaderRecognizer(s, style);
    HeaderRecognizerSound(s, style);
    VisitsMatch(f, HeaderStart, HeaderEnd, lastIndex, |s|);
    var hs := Headers(s, lastIndex, style);
    forall i | 0 <= i < |hs|
      ensures HeaderAt(s, hs[i].start, style) == Some(hs[i])
    {
      assert f(HeaderStart(hs[i])) == HeaderAt(s, hs[i].start, style);
    }
  }

  /** The visited headers do not overlap and come in text order. */
  lemma HeadersOrdered(s: string, lastIndex: nat, style: HeaderStyle)
    ensures forall i, j :: 0 <= i < j < |Headers(s, lastIndex, style)| ==>
      Headers(s, lastIndex, style)[i].end <= Headers(s, lastIndex, style)[j].start
  {
    HeaderRecognizerSound(s, style);
    VisitsOrdered(HeaderRecognizer(s, style), HeaderStart, HeaderEnd, lastIndex, |s|);
  }

  /** The `exec` loop misses no header, except one starting inside a header it visits. */
  lemma HeadersComplete(s: string, lastIndex: nat, style: HeaderStyle, k: nat)
    requires lastIndex <= k && HeaderAt(s, k, style).Some?
    ensures exists i :: (0 <= i < |Headers(s, lastIndex, style)| &&
      Headers(s, lastIndex, style)[i].start <= k < Headers(s, lastIndex, style)[i].end)
  {
    var f := HeaderRecognizer(s, style);
    HeaderRecognizerSound(s, style);
    assert f(k) == HeaderAt(s, k, style);
    VisitsComplete(f, HeaderStart, HeaderEnd, lastIndex, |s|, k);
    var hs := Headers(s, lastIndex, style);
    var i :| 0 <= i < |hs| && HeaderStart(hs[i]) <= k < HeaderEnd(hs[i]);
    assert hs[i].start <= k < hs[i].end;
  }

  /** The bookmark pattern as a recognizer over offsets. */
  function LinkRecognizer(s: string): nat -> Option<Link> {
    (k: nat) => LinkAt(s, k)
  }

  function LinkStart(l: Link): nat { l.start }
  function LinkEnd(l: Link): nat { l.end }

  lemma LinkRecognizerSound(s: string)
    ensures Recognizer(LinkRecognizer(s), LinkStart, LinkEnd, |s|)
  {
    forall k: nat | LinkRecognizer(s)(k).Some?
      ensures LinkStart(LinkRecognizer(s)(k).value) == k
      ensures k < LinkEnd(LinkRecognizer(s)(k).value) <= |s|
    {
      assert LinkRecognizer(s)(k) == LinkAt(s, k);
    }
  }

  /** The leftmost bookmark match starting at or after `from`. */
  function NextLink(s: string, from: nat): (r: Option<Link>)
    ensures r.Some? ==> from <= r.value.start < r.value.end <= |s|
  {
    match FirstMatch(LinkRecognizer(s), from, |s|)
    case None => None
    case Some(k) => LinkAt(s, k)
  }

  /** The bookmark matches a global `exec` loop visits from `lastIndex` on. */
  function Links(s: string, lastIndex: nat): (ls: seq<Link>)
    ensures forall k :: 0 <= k < |ls| ==> lastIndex <= ls[k].start < ls[k].end <= |s|
  {
    LinkRecognizerSound(s);
    Visits(LinkRecognizer(s), LinkStart, LinkEnd, lastIndex, |s|)
  }

  /** One step of the `exec` loop over bookmarks. */
  lemma LinksStep(s: string, lastIndex: nat)
    ensures NextLink(s, lastIndex).None? ==> Links(s, lastIndex) == []
    ensures NextLink(s, lastIndex).Some? ==>
      Links(s, lastIndex) == [NextLink(s, lastIndex).value] + Links(s, NextLink(s, lastIndex).value.end)
  {
    var f := LinkRecognizer(s);
    LinkRecognizerSound(s);
    match FirstMatch(f, lastIndex, |s|)
    case None =>
      VisitsDone(f, LinkStart, LinkEnd, lastIndex, |s|);
    case Some(k) =>
      assert f(k) == LinkAt(s, k);
      VisitsStep(f, LinkStart, LinkEnd, lastIndex, |s|, k);
  }

  /** The visited bookmarks are bookmark matches at their own offsets. */
  lemma LinksMatch(s: string, lastIndex: nat)
    ensures forall i :: 0 <= i < |Links(s, lastIndex)| ==>
      LinkAt(s, Links(s, lastIndex)[i].start) == Some(Links(s, lastIndex)[i])
  {
    var f := LinkRecognizer(s);
    LinkRecognizerSound(s);
    VisitsMatch(f, LinkStart, LinkEnd, lastIndex, |s|);
    var ls := Links(s, lastIndex);
    forall i | 0 <= i < |ls|
      ensures LinkAt(s, ls[i].start) == Some(ls[i])
    {
      assert f(LinkStart(ls[i])) == LinkAt(s, ls[i].start);
    }
  }

  /** The visited bookmarks do not overlap and come in text order. */
  lemma LinksOrdered(s: string, lastIndex: nat)
    ensures forall i, j :: 0 <= i < j < |Links(s, lastIndex)| ==>
      Links(s, lastIndex)[i].end <= Links(s, lastIndex)[j].start
  {
    LinkRecognizerSound(s);
    VisitsOrdered(LinkRecognizer(s), LinkStart, LinkEnd, lastIndex, |s|);
  }

  /** The `exec` loop misses no bookmark, except one starting inside a bookmark it visits. */
  lemma LinksComplete(s: string, lastIndex: nat, k: nat)
    requires lastIndex <= k && LinkAt(s, k).Some?
    ensures exists i :: (0 <= i < |Links(s, lastIndex)| &&
      Links(s, lastIndex)[i].start <= k < Links(s, lastIndex)[i].end)
  {
    var f := LinkRecognizer(s);
    LinkRecognizerSound(s);
    assert f(k) == LinkAt(s, k);
    VisitsComplete(f, LinkStart, LinkEnd, lastIndex, |s|, k);
    var ls := Links(s, lastIndex);
    var i :| 0 <= i < |ls| && LinkStart(ls[i]) <= k < LinkEnd(ls[i]);
    assert ls[i].start <= k < ls[i].end;
  }

  /** A Plain name on one line ends where the Lazy name ends. */
  lemma PlainNameIsLazyName(s: string, g: nat, p: nat)
    requires g < |s| && PlainNameEnd(s, g, false) == Some(p) && OnOneLine(s, g + 1, p)
    ensures LazyNameEnd(s, g) == Some(p)
  {
    CharFromFirst(s, '<', g + 1);
    forall k | g + 1 <= k < p
      ensures !MatchesAt(s, k, HEADER_END, false)
    {
      assert s[k] != '<';
      assert !SameChar(s[k + 0], HEADER_END[0], false);
    }
    IndexOfFirst(s, HEADER_END, g + 1, false);
  }

  /** The two spellings of the header pattern agree on a header whose name is
      non-empty, on one line and free of `<`. */
  lemma HeaderStylesAgree(s: string, i: nat, h: Header)
    requires HeaderAt(s, i, Plain) == Some(h)
    requires OnOneLine(s, h.end - |HEADER_END| - |h.name|, h.end - |HEADER_END|)
    ensures HeaderAt(s, i, Lazy) == Some(h)
  {
    var g := HeaderTagEnd(s, i, false).value;
    var p := PlainNameEnd(s, g, false).value;
    assert p == h.end - |HEADER_END| && |h.name| == p - g - 1;
    PlainNameIsLazyName(s, g, p);
  }

  /** A header with an empty name is a folder for the Lazy pattern and not for
      the Plain one: the Plain pattern needs at least one name character. */
  lemma EmptyNameOnlyLazy(s: string, i: nat, h: Header)
    requires HeaderAt(s, i, Lazy) == Some(h) && h.name == ""
    ensures HeaderAt(s, i, Plain).None?
  {
    var g := HeaderTagEnd(s, i, false).value;
    var p := LazyNameEnd(s, g).value;
    IndexOfFirst(s, HEADER_END, g + 1, false);
    assert p == g + 1;
    assert s[p + 0] == HEADER_END[0];
    assert CharFrom(s, '<', g + 1) == g + 1;
  }
}
