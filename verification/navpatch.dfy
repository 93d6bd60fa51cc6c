/** The text patch of `upsertBookmarksNavInSiteYml`: add a bookmarks entry to
    the `navigation:` list of a site configuration by splicing lines, so that
    the rest of the file keeps its layout and comments. What the YAML parser
    says about the file is an input; reading and writing the file are left
    to the caller, which receives the text to write. */
module SiteNav {
  import opened Text
  import opened Seqs

  /** What `yaml.load` reports about the file, as far as the patch cares. */
  datatype YamlView =
    | LoadFailed                         // reading the file or parsing it threw
    | NotAnObject                        // empty, scalar or failed to load as an object
    | NavigationNotArray                 // `navigation` is present and is not a list
    | Navigation(hasBookmarks: bool)     // `navigation` is a list; whether an item has `id: bookmarks`
    | NoNavigation                       // no `navigation` key

  datatype Reason =
    | SiteYmlNotObject
    | AlreadyPresent
    | NavigationNotArrayReason
    | AddedNavigationBlock
    | UpdatedNavigationBlock
    | Error

  /** The result: whether the file changes, why, and the new text when it does. */
  datatype Outcome = Outcome(updated: bool, reason: Reason, text: Option<string>)

  /** The bookmarks entry, 书签 being "bookmarks". */
  const SNIPPET: seq<string> := [
    "  - name: \U{4E66}\U{7B7E}",
    "    icon: fas fa-bookmark",
    "    id: bookmarks"
  ]

  /** `raw.split(/\r?\n/)`: the pieces between line breaks, a `\r` before a
      `\n` belonging to the break. There is always at least one piece. */
  function SplitLines(raw: string): (lines: seq<string>)
    decreases |raw|
    ensures |lines| >= 1
    ensures forall k :: 0 <= k < |lines| ==> '\n' !in lines[k]
  {
    var i := CharFrom(raw, '\n', 0);
    CharFromFirst(raw, '\n', 0);
    if i == |raw| then [raw]
    else
      var end := if i > 0 && raw[i - 1] == '\r' then i - 1 else i;
      [raw[..end]] + SplitLines(raw[i + 1..])
  }

  /** `lines.join('\n')`. */
  function Join(lines: seq<string>): string {
    if lines == [] then ""
    else if |lines| == 1 then lines[0]
    else lines[0] + "\n" + Join(lines[1..])
  }

  /** A `\r\n` line break ends at `k`. */
  predicate CrLfAt(s: string, k: nat)
    requires 0 < k < |s|
  {
    s[k - 1] == '\r' && s[k] == '\n'
  }

  /** Splitting then joining gives the text back when it has no `\r\n`
      break (see SplitJoinLf for the general case). */
  lemma {:induction false} SplitJoin(raw: string)
    requires forall k :: 0 < k < |raw| ==> !CrLfAt(raw, k)
    decreases |raw|
    ensures Join(SplitLines(raw)) == raw
  {
    var i := CharFrom(raw, '\n', 0);
    if i < |raw| {
      var rest := raw[i + 1..];
      forall k | 0 < k < |rest|
        ensures !CrLfAt(rest, k)
      {
        assert !CrLfAt(raw, i + 1 + k);
      }
      SplitJoin(rest);
      assert i > 0 ==> !CrLfAt(raw, i);
      SplitLinesStep(raw);
      Reassemble(raw, i, SplitLines(rest));
    }
  }

  /** The text with every `\r\n` break written as `\n`. */
  function LfOnly(s: string): (r: string)
    decreases |s|
    ensures |r| <= |s|
  {
    if s == [] then []
    else if |s| > 1 && CrLfAt(s, 1) then LfOnly(s[1..])
    else [s[0]] + LfOnly(s[1..])
  }

  /** Splitting then joining writes every `\r\n` break as `\n` and keeps
      everything else: a patched file always has `\n` line breaks. */
  lemma {:induction false} SplitJoinLf(raw: string)
    decreases |raw|
    ensures Join(SplitLines(raw)) == LfOnly(raw)
  {
    var i := CharFrom(raw, '\n', 0);
    CharFromFirst(raw, '\n', 0);
    if i == |raw| {
      assert SplitLines(raw) == [raw];
      LfOnlyWithoutBreak(raw, []);
      assert raw + [] == raw;
    } else {
      var end := if i > 0 && raw[i - 1] == '\r' then i - 1 else i;
      SplitJoinLf(raw[i + 1..]);
      SplitLinesStep(raw);
      SplitJoinLfStep(raw, end, i, SplitLines(raw[i + 1..]));
    }
  }

  /** One line and its break: the step of SplitJoinLf. */
  lemma SplitJoinLfStep(raw: string, end: nat, i: nat, tail: seq<string>)
    requires end <= i < |raw| && raw[i] == '\n'
    requires forall k :: 0 <= k < i ==> raw[k] != '\n'
    requires (end == i - 1 && raw[end] == '\r') || (end == i && (i == 0 || raw[i - 1] != '\r'))
    requires |tail| >= 1 && Join(tail) == LfOnly(raw[i + 1..])
    ensures Join([raw[..end]] + tail) == LfOnly(raw)
  {
    JoinCons(raw[..end], tail);
    LfOnlyAtBreak(raw, end, i);
    SameLine(Join([raw[..end]] + tail), LfOnly(raw), raw[..end], Join(tail));
  }

  /** Two spellings of a line, a `\n`, then the rest. */
  lemma SameLine(j: string, l: string, line: string, rest: string)
    requires j == line + "\n" + rest && l == line + ("\n" + rest)
    ensures j == l
  {
  }

  /** Before the first `\n` at `i` nothing changes, and the break, with the
      `\r` at `end` when there is one, becomes `\n`. */
  lemma LfOnlyAtBreak(raw: string, end: nat, i: nat)
    requires end <= i < |raw| && raw[i] == '\n'
    requires forall k :: 0 <= k < i ==> raw[k] != '\n'
    requires (end == i - 1 && raw[end] == '\r') || (end == i && (i == 0 || raw[i - 1] != '\r'))
    ensures LfOnly(raw) == raw[..end] + ("\n" + LfOnly(raw[i + 1..]))
  {
    assert raw == raw[..end] + raw[end..];
    LfOnlyWithoutBreak(raw[..end], raw[end..]);
    LfAt(raw[i..]);
    if end < i {
      var q := raw[end..];
      assert CrLfAt(q, 1) && q[1..] == raw[i..];
    }
    assert raw[i..][1..] == raw[i + 1..];
  }

  /** A `\n` at the front becomes the first character of the result. */
  lemma LfAt(q: string)
    requires |q| > 0 && q[0] == '\n'
    ensures LfOnly(q) == "\n" + LfOnly(q[1..])
  {
  }

  /** A piece without `\n` is kept as it is, unless its final `\r` and the
      `\n` after it form a break. */
  lemma {:induction false} LfOnlyWithoutBreak(p: string, q: string)
    requires forall k :: 0 <= k < |p| ==> p[k] != '\n'
    requires |p| > 0 && p[|p| - 1] == '\r' ==> q == [] || q[0] != '\n'
    decreases |p|
    ensures LfOnly(p + q) == p + LfOnly(q)
  {
    if p != [] {
      var pq := p + q;
      assert pq[1..] == p[1..] + q;
      assert |pq| > 1 ==> pq[1] == if |p| >= 2 then p[1] else q[0];
      assert !(|pq| > 1 && CrLfAt(pq, 1));
      assert LfOnly(pq) == [p[0]] + LfOnly(p[1..] + q);
      LfOnlyWithoutBreak(p[1..], q);
      assert [p[0]] + (p[1..] + LfOnly(q)) == p + LfOnly(q);
    } else {
      assert p + q == q;
    }
  }

  /** The piece before a `\n` joined in front of the pieces after it. */
  lemma Reassemble(raw: string, i: nat, tail: seq<string>)
    requires i < |raw| && raw[i] == '\n' && |tail| >= 1 && Join(tail) == raw[i + 1..]
    ensures Join([raw[..i]] + tail) == raw
  {
    JoinCons(raw[..i], tail);
    assert raw[i..] == [raw[i]] + raw[i + 1..];
    assert raw == raw[..i] + raw[i..];
  }

  /** One step of the split: the piece before the first `\n`, without a
      `\r` before it, then the split of the rest. */
  lemma SplitLinesStep(raw: string)
    ensures var i := CharFrom(raw, '\n', 0);
      i < |raw| ==>
      SplitLines(raw) == [raw[..if i > 0 && raw[i - 1] == '\r' then i - 1 else i]] + SplitLines(raw[i + 1..])
  {
  }

  /** Joining a line in front of at least one more. */
  lemma JoinCons(line: string, rest: seq<string>)
    requires |rest| >= 1
    ensures Join([line] + rest) == line + "\n" + Join(rest)
  {
    assert ([line] + rest)[1..] == rest;
  }

  /** `/^navigation\s*:/`. */
  predicate IsNavLine(line: string) {
    |"navigation"| <= |line| && line[..|"navigation"|] == "navigation" && SpacesThenColon(line, |"navigation"|)
  }

  /** `\s*:` matches at `i`: white space, then a `:`. */
  predicate SpacesThenColon(line: string, i: nat)
    decreases |line| - i
  {
    i < |line| && (line[i] == ':' || (IsJsSpace(line[i]) && SpacesThenColon(line, i + 1)))
  }

  /** A character of `[A-Za-z0-9_-]`. */
  predicate IsKeyChar(c: char) {
    ('A' <= c <= 'Z') || ('a' <= c <= 'z') || ('0' <= c <= '9') || c == '_' || c == '-'
  }

  /** `[A-Za-z0-9_-]*\s*:` matches at `i`, trying every length of the run. */
  predicate KeyTail(line: string, i: nat)
    decreases |line| - i
  {
    SpacesThenColon(line, i) || (i < |line| && IsKeyChar(line[i]) && KeyTail(line, i + 1))
  }

  /** `/^[A-Za-z0-9_-]+\s*:/`: a top-level key. */
  predicate IsTopLevelKey(line: string) {
    |line| > 0 && IsKeyChar(line[0]) && KeyTail(line, 1)
  }

  /** `line.trim() === ''`: the line is all white space. */
  predicate IsBlank(line: string) {
    forall k :: 0 <= k < |line| ==> IsJsSpace(line[k])
  }

  /** `\s*#` matches at `i`. */
  predicate CommentFrom(line: string, i: nat)
    decreases |line| - i
  {
    i < |line| && (line[i] == '#' || (IsJsSpace(line[i]) && CommentFrom(line, i + 1)))
  }

  /** `/^\s*#/`: a comment line. */
  predicate IsComment(line: string) {
    CommentFrom(line, 0)
  }

  /** `lines.findIndex(line => /^navigation\s*:/.test(line))` from `from` on. */
  function NavLineIndex(lines: seq<string>, from: nat): (r: Option<nat>)
    decreases |lines| - from
    ensures r.Some? ==> from <= r.value < |lines| && IsNavLine(lines[r.value])
    ensures r.Some? ==> forall k :: from <= k < r.value ==> !IsNavLine(lines[k])
    ensures r.None? ==> forall k :: from <= k < |lines| ==> !IsNavLine(lines[k])
  {
    if from >= |lines| then None
    else if IsNavLine(lines[from]) then Some(from)
    else NavLineIndex(lines, from + 1)
  }

  /** The line a key must be on to end the navigation block. */
  predicate EndsBlock(line: string) {
    !IsBlank(line) && !IsComment(line) && IsTopLevelKey(line)
  }

  /** Where the entry goes: the first line after the `navigation:` line
      that holds a top-level key and is neither blank nor a comment, or the
      end of the file. */
  function InsertPoint(lines: seq<string>, from: nat): (r: nat)
    requires from <= |lines|
    decreases |lines| - from
    ensures from <= r <= |lines|
  {
    if from == |lines| then from
    else if EndsBlock(lines[from]) then from
    else InsertPoint(lines, from + 1)
  }

  /** The loop that finds the end of the navigation block. */
  method FindInsertAt(lines: seq<string>, navLineIndex: nat) returns (insertAt: nat)
    requires navLineIndex < |lines|
    ensures insertAt == InsertPoint(lines, navLineIndex + 1)
  {
    insertAt := |lines|;
    for i := navLineIndex + 1 to |lines|
      invariant InsertPoint(lines, i) == InsertPoint(lines, navLineIndex + 1)
    {
      var line := lines[i];
      TrimEmptyIffBlank(line);
      if Trim(line) == [] || IsComment(line) {
        continue;
      }
      if IsTopLevelKey(line) {
        insertAt := i;
        return;
      }
    }
  }

  /** The block-ending line `InsertPoint` stops at, and the lines before it. */
  lemma {:induction false} InsertPointFirst(lines: seq<string>, from: nat)
    requires from <= |lines|
    decreases |lines| - from
    ensures forall k :: from <= k < InsertPoint(lines, from) ==> !EndsBlock(lines[k])
    ensures InsertPoint(lines, from) < |lines| ==> EndsBlock(lines[InsertPoint(lines, from)])
  {
    if from < |lines| && !EndsBlock(lines[from]) {
      InsertPointFirst(lines, from + 1);
    }
  }

  /** The lines inserted at `insertAt`: the entry, after a blank line when the
      line before is not blank. */
  function Inserted(lines: seq<string>, insertAt: nat): (ins: seq<string>)
    requires insertAt <= |lines|
    ensures ins == SNIPPET || ins == [""] + SNIPPET
    ensures ins == [""] + SNIPPET <==> insertAt > 0 && !IsBlank(lines[insertAt - 1])
  {
    TrimEmptyIffBlank(if insertAt > 0 then lines[insertAt - 1] else "");
    if insertAt > 0 && Trim(lines[insertAt - 1]) != [] then [""] + SNIPPET else SNIPPET
  }

  /** A new `navigation:` block holding the entry, ending with a line break. */
  function NavBlock(): (b: string)
    ensures |b| > 0 && b[|b| - 1] == '\n'
  {
    "navigation:\n" + Join(SNIPPET) + "\n"
  }

  /** `raw` ending with a line break. */
  function Normalized(raw: string): (n: string)
    ensures n == raw || n == raw + "\n"
    ensures n == raw <==> |raw| > 0 && raw[|raw| - 1] == '\n'
    ensures |n| > 0 && n[|n| - 1] == '\n'
  {
    if |raw| > 0 && raw[|raw| - 1] == '\n' then raw else raw + "\n"
  }

  /** The text written when the file has no `navigation:` line: the file,
      ending with a line break, a blank line unless the file is blank, then a
      new `navigation:` block holding the entry. */
  function AppendedBlock(raw: string): string {
    var normalized := Normalized(raw);
    var spacer := if Trim(normalized) == [] then "" else "\n";
    normalized + spacer + NavBlock()
  }

  /** The text written when the file has a `navigation:` line at `nav`. */
  function SplicedText(lines: seq<string>, nav: nat): string
    requires nav < |lines|
  {
    var insertAt := InsertPoint(lines, nav + 1);
    Join(lines[..insertAt] + Inserted(lines, insertAt) + lines[insertAt..]) + "\n"
  }

  /** The result of `upsertBookmarksNavInSiteYml` for a file with text `raw`. */
  function Upsert(raw: string, view: YamlView): Outcome {
    match view
    case LoadFailed => Outcome(false, Error, None)
    case NotAnObject => Outcome(false, SiteYmlNotObject, None)
    case Navigation(true) => Outcome(false, AlreadyPresent, None)
    case NavigationNotArray => Outcome(false, NavigationNotArrayReason, None)
    case _ =>
      var lines := SplitLines(raw);
      match NavLineIndex(lines, 0)
      case None => Outcome(true, AddedNavigationBlock, Some(AppendedBlock(raw)))
      case Some(nav) => Outcome(true, UpdatedNavigationBlock, Some(SplicedText(lines, nav)))
  }

  /** The patch itself: the checks on the parsed file, then either a new block
      at the end or the entry spliced into the existing block. */
  method UpsertBookmarksNav(raw: string, view: YamlView) returns (outcome: Outcome)
    ensures outcome == Upsert(raw, view)
  {
    if view.LoadFailed? {
      return Outcome(false, Error, None);
    }
    if view.NotAnObject? {
      return Outcome(false, SiteYmlNotObject, None);
    }
    if view.Navigation? && view.hasBookmarks {
      return Outcome(false, AlreadyPresent, None);
    }
    if view.NavigationNotArray? {
      return Outcome(false, NavigationNotArrayReason, None);
    }
    var lines := SplitLines(raw);
    var navLineIndex := NavLineIndex(lines, 0);
    var updatedRaw: string;
    if navLineIndex.None? {
      updatedRaw := AppendNavBlock(raw);
      return Outcome(true, AddedNavigationBlock, Some(updatedRaw));
    }
    updatedRaw := SpliceEntry(lines, navLineIndex.value);
    outcome := Outcome(true, UpdatedNavigationBlock, Some(updatedRaw));
  }

  /** A new block at the end of the file. */
  method AppendNavBlock(raw: string) returns (updatedRaw: string)
    ensures updatedRaw == AppendedBlock(raw)
  {
    var normalized := Normalized(raw);
    var spacer := if Trim(normalized) == [] then "" else "\n";
    updatedRaw := normalized + spacer + NavBlock();
  }

  /** The entry spliced in at the end of the block that starts at line `nav`. */
  method SpliceEntry(lines: seq<string>, nav: nat) returns (updatedRaw: string)
    requires nav < |lines|
    ensures updatedRaw == SplicedText(lines, nav)
  {
    var insertAt := FindInsertAt(lines, nav);
    var snippet := SNIPPET;
    if insertAt > 0 && Trim(lines[insertAt - 1]) != [] {
      snippet := [""] + snippet;
    }
    var updatedLines := lines[..insertAt] + snippet + lines[insertAt..];
    updatedRaw := Join(updatedLines) + "\n";
  }

  /** Only a file whose parsed form is an object, with no bookmarks entry in
      a list-valued or absent `navigation`, is changed. */
  lemma UpdatedIff(raw: string, view: YamlView)
    ensures Upsert(raw, view).updated <==> view == NoNavigation || view == Navigation(false)
    ensures view == LoadFailed ==> Upsert(raw, view).reason == Error
    ensures Upsert(raw, view).updated <==> Upsert(raw, view).text.Some?
  {
  }

  /** Without a `navigation:` line the file is kept as a prefix of the new
      text, and the new text ends with the entry and a line break. */
  lemma AppendedKeepsFile(raw: string)
    ensures |raw| <= |AppendedBlock(raw)| && AppendedBlock(raw)[..|raw|] == raw
    ensures var t := AppendedBlock(raw); |t| > 0 && t[|t| - 1] == '\n'
  {
    var normalized := Normalized(raw);
    var spacer := if Trim(normalized) == [] then "" else "\n";
    AppendAssoc(normalized, spacer, NavBlock());
    assert normalized[..|raw|] == raw;
  }

  /** The splice keeps every original line, in order: taking the inserted
      lines out again gives the original lines. */
  lemma SpliceKeepsLines(lines: seq<string>, insertAt: nat)
    requires insertAt <= |lines|
    ensures var ins := Inserted(lines, insertAt);
      var updated := lines[..insertAt] + ins + lines[insertAt..];
      && |updated| == |lines| + |ins|
      && updated[..insertAt] == lines[..insertAt]
      && updated[insertAt..insertAt + |ins|] == ins
      && updated[insertAt + |ins|..] == lines[insertAt..]
      && updated[..insertAt] + updated[insertAt + |ins|..] == lines
  {
    var ins := Inserted(lines, insertAt);
    var updated := lines[..insertAt] + ins + lines[insertAt..];
    assert updated[..insertAt] == lines[..insertAt];
    assert updated[insertAt..insertAt + |ins|] == ins;
    assert updated[insertAt + |ins|..] == lines[insertAt..];
    assert lines[..insertAt] + lines[insertAt..] == lines;
  }

  /** The entry goes after the `navigation:` line, before the first later
      line that starts a top-level key, with only blank lines, comments and
      non-key lines in between. */
  lemma InsertPointEndsBlock(lines: seq<string>, nav: nat)
    requires nav < |lines|
    ensures nav < InsertPoint(lines, nav + 1) <= |lines|
    ensures forall k :: nav < k < InsertPoint(lines, nav + 1) ==>
      IsBlank(lines[k]) || IsComment(lines[k]) || !IsTopLevelKey(lines[k])
    ensures InsertPoint(lines, nav + 1) < |lines| ==>
      !IsBlank(lines[InsertPoint(lines, nav + 1)]) && !IsComment(lines[InsertPoint(lines, nav + 1)])
      && IsTopLevelKey(lines[InsertPoint(lines, nav + 1)])
  {
    InsertPointFirst(lines, nav + 1);
  }
}
