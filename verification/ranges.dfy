/** The folder-range index of `parseNestedFolder`, the subfolder index of
    `parseSitesInFolder` and `extractRootBookmarks`, and the directness filter
    that picks the folders of the current level. Each header is bound to the
    first `<DL><p>` anywhere after it, whatever lies in between. */
module Ranges {
  import opened Text
  import opened Seqs
  import opened Patterns
  import opened Scanner

  /** A folder recorded by `parseNestedFolder`: the header offset, the offset
      just past the header, and the offset just past the balancing `</DL><p>`. */
  datatype FolderRange = FolderRange(name: string, start: nat, headerEnd: nat, end: nat)

  /** A subfolder recorded by the site extractors: from the header offset to
      just past the balancing `</DL><p>`, or to the end of the span when the
      container does not balance. */
  datatype Subfolder = Subfolder(name: string, start: nat, end: nat)

  /** The range recorded for header `h` (see RangeOfIff). */
  function RangeOf(s: string, h: Header): (r: Option<FolderRange>)
    ensures r.Some? ==> r.value.name == Trim(h.name) && r.value.start == h.start && r.value.headerEnd == h.end
    ensures r.Some? ==> h.end + 15 <= r.value.end <= |s|
  {
    match FindOpen(s, h.end)
    case None => None
    case Some(d) =>
      match BalancingClose(s, d + 7)
      case None => None
      case Some(c) => Some(FolderRange(Trim(h.name), h.start, h.end, c + 8))
  }

  /** A header whose first following `<DL><p>` is at `d` is recorded, ending
      just past `c + 8`, exactly when the `</DL><p>` at `c` balances the
      container that marker opens; a header with no `<DL><p>` after it is not
      recorded. */
  lemma RangeOfIff(s: string, h: Header, d: nat, c: nat)
    ensures FindOpen(s, h.end).None? ==> RangeOf(s, h).None?
    ensures FindOpen(s, h.end) == Some(d) ==>
      (RangeOf(s, h) == Some(FolderRange(Trim(h.name), h.start, h.end, c + 8)) <==> IsBalancingClose(s, d + 7, c))
  {
    BalancingCloseIff(s, d + 7, c);
  }

  function RangeRecorder(s: string): Header -> Option<FolderRange> {
    (h: Header) => RangeOf(s, h)
  }

  /** The ranges recorded for the Lazy headers `exec` visits from `lastIndex` on, in order. */
  function FolderRangesFrom(s: string, lastIndex: nat): seq<FolderRange> {
    Keep(RangeRecorder(s), Headers(s, lastIndex, Lazy))
  }

  /** All ranges `parseNestedFolder` records for a span. */
  function FolderRanges(s: string): seq<FolderRange> {
    FolderRangesFrom(s, 0)
  }

  /** One step of the first pass of `parseNestedFolder`. */
  lemma FolderRangesStep(s: string, lastIndex: nat)
    ensures NextHeader(s, lastIndex, Lazy).None? ==> FolderRangesFrom(s, lastIndex) == []
    ensures NextHeader(s, lastIndex, Lazy).Some? ==>
      FolderRangesFrom(s, lastIndex) ==
      Recorded(RangeOf(s, NextHeader(s, lastIndex, Lazy).value)) + FolderRangesFrom(s, NextHeader(s, lastIndex, Lazy).value.end)
  {
    HeadersStep(s, lastIndex, Lazy);
    if NextHeader(s, lastIndex, Lazy).Some? {
      var h := NextHeader(s, lastIndex, Lazy).value;
      KeepCons(RangeRecorder(s), h, Headers(s, h.end, Lazy));
      assert RangeRecorder(s)(h) == RangeOf(s, h);
    }
  }

  /** The body of the first pass of `parseNestedFolder` for one header: the
      folder is recorded when its container balances. */
  method ScanFolderRange(s: string, h: Header) returns (here: seq<FolderRange>)
    ensures here == Recorded(RangeOf(s, h))
  {
    here := [];
    var folderName := Trim(h.name);
    var folderDl := FindOpen(s, h.end);
    if folderDl.Some? {
      var close, pos := ScanContainer(s, folderDl.value + 7);
      if close.Some? {
        here := [FolderRange(folderName, h.start, h.end, close.value + 8)];
      }
    }
  }

  /** The first pass of `parseNestedFolder`: every Lazy header, in order. */
  method ScanFolderRanges(s: string) returns (ranges: seq<FolderRange>)
    ensures ranges == FolderRanges(s)
  {
    ranges := [];
    var lastIndex: nat := 0;
    var scanMatch := NextHeader(s, lastIndex, Lazy);
    while scanMatch.Some?
      invariant scanMatch == NextHeader(s, lastIndex, Lazy)
      invariant ranges + FolderRangesFrom(s, lastIndex) == FolderRanges(s)
      decreases |s| - lastIndex
    {
      var h := scanMatch.value;
      var here := ScanFolderRange(s, h);
      FolderRangesStep(s, lastIndex);
      AppendAssoc(ranges, here, FolderRangesFrom(s, h.end));
      ranges := ranges + here;
      lastIndex := h.end;
      scanMatch := NextHeader(s, lastIndex, Lazy);
    }
    FolderRangesStep(s, lastIndex);
  }

  /** The header the `k`-th range was recorded for. */
  function RangeHeader(s: string, k: nat): (h: Header)
    requires k < |FolderRanges(s)|
    ensures h in Headers(s, 0, Lazy) && RangeOf(s, h) == Some(FolderRanges(s)[k])
  {
    var hs := Headers(s, 0, Lazy);
    OriginProduces(RangeRecorder(s), hs, k);
    var h := hs[Origin(RangeRecorder(s), hs, k)];
    assert RangeRecorder(s)(h) == RangeOf(s, h);
    h
  }

  /** Every recorded range spans a header the Lazy pattern matches, with the
      trimmed name, and a non-empty container inside the span. */
  lemma FolderRangeBounds(s: string, k: nat)
    requires k < |FolderRanges(s)|
    ensures HeaderAt(s, FolderRanges(s)[k].start, Lazy).Some?
    ensures FolderRanges(s)[k].headerEnd == HeaderAt(s, FolderRanges(s)[k].start, Lazy).value.end
    ensures FolderRanges(s)[k].name == Trim(HeaderAt(s, FolderRanges(s)[k].start, Lazy).value.name)
    ensures FolderRanges(s)[k].start < FolderRanges(s)[k].headerEnd
    ensures FolderRanges(s)[k].headerEnd + 15 <= FolderRanges(s)[k].end <= |s|
  {
    var h := RangeHeader(s, k);
    HeadersMatch(s, 0, Lazy);
    var i :| 0 <= i < |Headers(s, 0, Lazy)| && Headers(s, 0, Lazy)[i] == h;
  }

  lemma RangeOfBalanced(s: string, h: Header)
    requires RangeOf(s, h).Some?
    ensures BalancedRange(s, RangeOf(s, h).value)
  {
  }

  /** Range `r` ends just past the `</DL><p>` that balances the first
      `<DL><p>` after its header (BalancingCloseIff characterizes that close). */
  predicate BalancedRange(s: string, r: FolderRange) {
    r.end >= 8 && FindOpen(s, r.headerEnd).Some? && BalancingClose(s, FindOpen(s, r.headerEnd).value + 7) == Some(r.end - 8)
  }

  /** Every recorded range is balanced. */
  lemma RecordedRangesBalanced(s: string, k: nat)
    requires k < |FolderRanges(s)|
    ensures BalancedRange(s, FolderRanges(s)[k])
  {
    var h := RangeHeader(s, k);
    var r := FolderRanges(s)[k];
    assert r.headerEnd == h.end && r.end >= 8;
    RangeOfBalanced(s, h);
  }

  /** Ranges come in header order: each range's header ends before the next
      range's header starts. */
  lemma RangesInHeaderOrder(s: string, i: nat, j: nat)
    requires i < j < |FolderRanges(s)|
    ensures FolderRanges(s)[i].headerEnd <= FolderRanges(s)[j].start
  {
    var hs := Headers(s, 0, Lazy);
    var f := RangeRecorder(s);
    OriginProduces(f, hs, i);
    OriginProduces(f, hs, j);
    OriginMonotone(f, hs, i, j);
    HeadersOrdered(s, 0, Lazy);
    var hi := hs[Origin(f, hs, i)];
    var hj := hs[Origin(f, hs, j)];
    assert f(hi) == RangeOf(s, hi) && f(hj) == RangeOf(s, hj);
  }

  /** Every visited Lazy header whose first following container balances is
      recorded. */
  lemma RangesComplete(s: string, h: Header, d: nat, c: nat)
    requires h in Headers(s, 0, Lazy)
    requires FindOpen(s, h.end) == Some(d) && IsBalancingClose(s, d + 7, c)
    ensures FolderRange(Trim(h.name), h.start, h.end, c + 8) in FolderRanges(s)
  {
    var hs := Headers(s, 0, Lazy);
    var m :| 0 <= m < |hs| && hs[m] == h;
    RangeOfIff(s, h, d, c);
    assert RangeRecorder(s)(h) == RangeOf(s, h);
    KeepComplete(RangeRecorder(s), hs, m);
  }

  /** Markers inside a slice are markers of the whole text. */
  lemma OpenAtSlice(s: string, a: nat, b: nat, k: nat)
    requires a <= b <= |s| && a + k + 7 <= b
    ensures OpenAt(s[a..b], k) <==> OpenAt(s, a + k)
  {
    var t := s[a..b];
    assert t[k] == s[a + k] && t[k + 1] == s[a + k + 1] && t[k + 2] == s[a + k + 2];
    assert t[k + 3] == s[a + k + 3] && t[k + 4] == s[a + k + 4];
    assert t[k + 5] == s[a + k + 5] && t[k + 6] == s[a + k + 6];
  }

  /** The content of a balanced range holds a `<DL><p>`. */
  lemma ContentHasContainer(s: string, r: FolderRange)
    requires BalancedRange(s, r) && r.headerEnd <= r.end <= |s|
    ensures FindOpen(s[r.headerEnd..r.end], 0).Some?
  {
    var d := FindOpen(s, r.headerEnd).value;
    FindOpenFirst(s, r.headerEnd);
    BalancingCloseIff(s, d + 7, r.end - 8);
    OpenAtSlice(s, r.headerEnd, r.end, d - r.headerEnd);
    FindOpenFirst(s[r.headerEnd..r.end], 0);
  }

  /** The test that a folder's content holds a `<DL><p>` always passes for a
      recorded range. */
  lemma RecordedContentHasContainer(s: string, k: nat)
    requires k < |FolderRanges(s)|
    ensures FolderRanges(s)[k].headerEnd <= FolderRanges(s)[k].end <= |s|
    ensures FindOpen(s[FolderRanges(s)[k].headerEnd..FolderRanges(s)[k].end], 0).Some?
  {
    FolderRangeBounds(s, k);
    RecordedRangesBalanced(s, k);
    ContentHasContainer(s, FolderRanges(s)[k]);
  }

  /** Folder `o` encloses folder `f`: it starts strictly before and ends no earlier. */
  predicate Encloses(o: FolderRange, f: FolderRange) {
    o.start < f.start && f.end <= o.end
  }

  /** Range `i` lies inside some other recorded range. */
  predicate IsNested(rs: seq<FolderRange>, i: nat)
    requires i < |rs|
  {
    exists j :: 0 <= j < |rs| && j != i && Encloses(rs[j], rs[i])
  }

  /** The inner loop of the directness filter. */
  method NestedAt(rs: seq<FolderRange>, i: nat) returns (isNested: bool)
    requires i < |rs|
    ensures isNested == IsNested(rs, i)
  {
    isNested := false;
    for j := 0 to |rs|
      invariant !isNested ==> forall k :: 0 <= k < j && k != i ==> !Encloses(rs[k], rs[i])
      invariant isNested ==> IsNested(rs, i)
    {
      if i == j {
        continue;
      }
      if Encloses(rs[j], rs[i]) {
        isNested := true;
        break;
      }
    }
  }

  /** Skipping the folder itself changes nothing: no range encloses itself. */
  lemma NestedIgnoresSelf(rs: seq<FolderRange>, i: nat)
    requires i < |rs|
    ensures IsNested(rs, i) <==> exists j :: 0 <= j < |rs| && Encloses(rs[j], rs[i])
  {
    if exists j :: 0 <= j < |rs| && Encloses(rs[j], rs[i]) {
      var j :| 0 <= j < |rs| && Encloses(rs[j], rs[i]);
      assert j != i;
    }
  }

  /** Every nested range lies inside a range that no other range encloses,
      that is, inside a folder of the current level. */
  lemma {:induction false} NestedHasDirectAncestor(rs: seq<FolderRange>, i: nat)
    requires i < |rs| && IsNested(rs, i)
    decreases rs[i].start
    ensures exists j :: 0 <= j < |rs| && !IsNested(rs, j) && Encloses(rs[j], rs[i])
  {
    var j :| 0 <= j < |rs| && j != i && Encloses(rs[j], rs[i]);
    if IsNested(rs, j) {
      NestedHasDirectAncestor(rs, j);
      var a :| 0 <= a < |rs| && !IsNested(rs, a) && Encloses(rs[a], rs[j]);
      assert Encloses(rs[a], rs[i]);
    }
  }

  /** The subfolder recorded for Plain header `h`, if any (see SubfolderOfIff). */
  function SubfolderOf(s: string, h: Header): (r: Option<Subfolder>)
    ensures r.Some? ==> r.value.name == Trim(h.name) && r.value.start == h.start && h.end + 7 <= r.value.end <= |s|
  {
    match FindOpen(s, h.end)
    case None => None
    case Some(d) =>
      var end := match BalancingClose(s, d + 7) case Some(c) => c + 8 case None => |s|;
      Some(Subfolder(Trim(h.name), h.start, end))
  }

  /** A subfolder is recorded exactly when a `<DL><p>` follows its header; it
      ends just past the `</DL><p>` balancing that container, or at the end
      of the span when none does. */
  lemma SubfolderOfIff(s: string, h: Header, body: nat, c: nat)
    ensures SubfolderOf(s, h).Some? <==> FindOpen(s, h.end).Some?
    ensures FindOpen(s, h.end).Some? && FindOpen(s, h.end).value + 7 == body && IsBalancingClose(s, body, c) ==>
      SubfolderOf(s, h).value.end == c + 8
    ensures FindOpen(s, h.end).Some? && FindOpen(s, h.end).value + 7 == body && (forall k: nat :: !IsBalancingClose(s, body, k)) ==>
      SubfolderOf(s, h).value.end == |s|
  {
    BalancingCloseIff(s, body, c);
  }

  function SubfolderRecorder(s: string): Header -> Option<Subfolder> {
    (h: Header) => SubfolderOf(s, h)
  }

  /** The subfolders recorded for the Plain headers `exec` visits from `lastIndex` on. */
  function SubfoldersFrom(s: string, lastIndex: nat): seq<Subfolder> {
    Keep(SubfolderRecorder(s), Headers(s, lastIndex, Plain))
  }

  /** All subfolders the site extractors record for a span. */
  function Subfolders(s: string): seq<Subfolder> {
    SubfoldersFrom(s, 0)
  }

  /** One step of the subfolder pass. */
  lemma SubfoldersStep(s: string, lastIndex: nat)
    ensures NextHeader(s, lastIndex, Plain).None? ==> SubfoldersFrom(s, lastIndex) == []
    ensures NextHeader(s, lastIndex, Plain).Some? ==>
      SubfoldersFrom(s, lastIndex) ==
      Recorded(SubfolderOf(s, NextHeader(s, lastIndex, Plain).value)) + SubfoldersFrom(s, NextHeader(s, lastIndex, Plain).value.end)
  {
    HeadersStep(s, lastIndex, Plain);
    if NextHeader(s, lastIndex, Plain).Some? {
      var h := NextHeader(s, lastIndex, Plain).value;
      KeepCons(SubfolderRecorder(s), h, Headers(s, h.end, Plain));
      assert SubfolderRecorder(s)(h) == SubfolderOf(s, h);
    }
  }

  /** The body of the subfolder pass for one header: the subfolder is
      recorded whenever a `<DL><p>` follows, up to the balancing close or the
      end of the span. */
  method ScanSubfolder(s: string, h: Header) returns (here: seq<Subfolder>)
    ensures here == Recorded(SubfolderOf(s, h))
  {
    here := [];
    var folderName := Trim(h.name);
    var folderContentEnd := |s|;
    var folderDl := FindOpen(s, h.end);
    if folderDl.Some? {
      var close, pos := ScanContainer(s, folderDl.value + 7);
      if close.Some? {
        folderContentEnd := close.value + 8;
      }
      here := [Subfolder(folderName, h.start, folderContentEnd)];
    }
  }

  /** The first pass of `parseSitesInFolder` and of `extractRootBookmarks`:
      every Plain header, in order. */
  method ScanSubfolders(s: string) returns (subfolderRanges: seq<Subfolder>)
    ensures subfolderRanges == Subfolders(s)
  {
    subfolderRanges := [];
    var lastIndex: nat := 0;
    var folderMatch := NextHeader(s, lastIndex, Plain);
    while folderMatch.Some?
      invariant folderMatch == NextHeader(s, lastIndex, Plain)
      invariant subfolderRanges + SubfoldersFrom(s, lastIndex) == Subfolders(s)
      decreases |s| - lastIndex
    {
      var h := folderMatch.value;
      var here := ScanSubfolder(s, h);
      SubfoldersStep(s, lastIndex);
      AppendAssoc(subfolderRanges, here, SubfoldersFrom(s, h.end));
      subfolderRanges := subfolderRanges + here;
      lastIndex := h.end;
      folderMatch := NextHeader(s, lastIndex, Plain);
    }
    SubfoldersStep(s, lastIndex);
  }

  /** The header the `k`-th subfolder was recorded for. */
  function SubfolderHeader(s: string, k: nat): (h: Header)
    requires k < |Subfolders(s)|
    ensures h in Headers(s, 0, Plain) && SubfolderOf(s, h) == Some(Subfolders(s)[k])
  {
    var hs := Headers(s, 0, Plain);
    OriginProduces(SubfolderRecorder(s), hs, k);
    var h := hs[Origin(SubfolderRecorder(s), hs, k)];
    assert SubfolderRecorder(s)(h) == SubfolderOf(s, h);
    h
  }

  /** Every subfolder spans a Plain header and ends within the text, after the header. */
  lemma SubfolderBounds(s: string, k: nat)
    requires k < |Subfolders(s)|
    ensures HeaderAt(s, Subfolders(s)[k].start, Plain).Some?
    ensures HeaderAt(s, Subfolders(s)[k].start, Plain).value.end + 7 <= Subfolders(s)[k].end <= |s|
  {
    var h := SubfolderHeader(s, k);
    HeadersMatch(s, 0, Plain);
    var i :| 0 <= i < |Headers(s, 0, Plain)| && Headers(s, 0, Plain)[i] == h;
  }
}
