/** Source lines that keep visible text once HTML comments are taken out. */
module MarkdownLines {
  import opened Decimal
  import opened Numbers
  import opened Ordering
  import opened Text
  import opened Wrappers

  /** Offsets or columns from `start` up to `end`. */
  datatype Range = Range(start: nat, end: nat)

  /** `slice`: empty when the bounds cross, cut off at the end of the text. */
  function Slice(s: string, from: nat, to: nat): string {
    var a, b := Min(from, |s|), Min(to, |s|);
    if a < b then s[a..b] else ""
  }

  function TrimEnd(s: string): string {
    if s != [] && IsSpace(s[|s| - 1]) then TrimEnd(s[..|s| - 1]) else s
  }

  function Trim(s: string): string {
    TrimEnd(TrimStart(s))
  }

  ghost predicate HasText(s: string) {
    exists i :: 0 <= i < |s| && !IsSpace(s[i])
  }

  lemma {:induction false} TrimStartKeeps(s: string)
    ensures HasText(TrimStart(s)) <==> HasText(s)
    ensures TrimStart(s) != [] ==> HasText(s)
  {
    hide IsSpace;
    if s != [] && IsSpace(s[0]) {
      TrimStartKeeps(s[1..]);
      assert HasText(s) ==> HasText(s[1..]) by {
        if HasText(s) {
          var i :| 0 <= i < |s| && !IsSpace(s[i]);
          assert s[1..][i - 1] == s[i];
        }
      }
    }
  }

  lemma {:induction false} TrimEndKeeps(s: string)
    ensures TrimEnd(s) != [] <==> HasText(s)
  {
    hide IsSpace;
    if s != [] && IsSpace(s[|s| - 1]) {
      TrimEndKeeps(s[..|s| - 1]);
    }
  }

  /** Trimmed text is non-empty exactly when some character is not white space. */
  lemma TrimmedText(s: string)
    ensures Trim(s) != [] <==> HasText(s)
  {
    TrimStartKeeps(s);
    TrimEndKeeps(TrimStart(s));
  }

  function ByStart(): (Range, Range) -> int {
    (a: Range, b: Range) => a.start - b.start
  }

  predicate In(r: Range, p: int) {
    r.start <= p < r.end
  }

  ghost predicate Inside(ranges: seq<Range>, p: nat) {
    exists i :: 0 <= i < |ranges| && In(ranges[i], p)
  }

  /** What is left of a line from `cursor` on when ranges in order of their start are skipped. */
  ghost function Visible(raw: string, ranges: seq<Range>, cursor: nat): string {
    if ranges == [] then Slice(raw, cursor, |raw|)
    else Slice(raw, cursor, ranges[0].start) + Visible(raw, ranges[1..], Max(cursor, ranges[0].end))
  }

  /** Decides whether `Visible` leaves text, for a line that has ranges; any other line counts as rendered. */
  method HasRenderedTextOutsideComments(raw: string, ranges: Option<seq<Range>>) returns (b: bool)
    ensures ranges.None? ==> b
    ensures ranges.Some? ==> (b <==> HasText(Visible(raw, Sort(ranges.value, ByStart()), 0)))
  {
    if ranges.None? {
      return true;
    }
    var cursor, visible := 0, "";
    var sorted := Sort(ranges.value, ByStart());
    for k := 0 to |sorted|
      invariant visible + Visible(raw, sorted[k..], cursor) == Visible(raw, sorted, 0)
    {
      assert sorted[k..][1..] == sorted[k + 1..];
      ConcatAssociates(visible, Slice(raw, cursor, sorted[k].start),
                       Visible(raw, sorted[k + 1..], Max(cursor, sorted[k].end)));
      visible := visible + Slice(raw, cursor, sorted[k].start);
      cursor := Max(cursor, sorted[k].end);
    }
    visible := visible + Slice(raw, cursor, |raw|);
    TrimmedText(visible);
    b := |Trim(visible)| > 0;
  }

  /** A position of the line that holds visible text from `cursor` on. */
  ghost predicate ShowsAt(raw: string, ranges: seq<Range>, cursor: nat, c: nat) {
    cursor <= c < |raw| && !IsSpace(raw[c]) && !Inside(ranges, c)
  }

  lemma SliceText(raw: string, from: nat, to: nat)
    ensures HasText(Slice(raw, from, to)) <==> exists c: nat :: from <= c < to && c < |raw| && !IsSpace(raw[c])
  {
    hide IsSpace;
    var s := Slice(raw, from, to);
    if HasText(s) {
      var i :| 0 <= i < |s| && !IsSpace(s[i]);
      assert raw[from + i] == s[i];
    }
    if c: nat :| from <= c < to && c < |raw| && !IsSpace(raw[c]) {
      assert s[c - from] == raw[c];
    }
  }

  lemma ConcatText(a: string, b: string)
    ensures HasText(a + b) <==> HasText(a) || HasText(b)
  {
    hide IsSpace;
    if HasText(a) {
      var i :| 0 <= i < |a| && !IsSpace(a[i]);
      assert (a + b)[i] == a[i];
    }
    if HasText(b) {
      var i :| 0 <= i < |b| && !IsSpace(b[i]);
      assert (a + b)[|a| + i] == b[i];
    }
  }

  lemma FirstRange(ranges: seq<Range>, c: nat)
    requires ranges != [] && Ascending(ranges, ByStart())
    ensures Inside(ranges, c) <==> In(ranges[0], c) || Inside(ranges[1..], c)
    ensures c < ranges[0].start ==> !Inside(ranges[1..], c)
  {
    forall i | 0 <= i < |ranges| - 1 ensures ranges[1..][i] == ranges[i + 1] && ranges[0].start <= ranges[i + 1].start {
      assert ByStart()(ranges[0], ranges[i + 1]) <= 0;
    }
    if Inside(ranges, c) {
      var i :| 0 <= i < |ranges| && In(ranges[i], c);
      if i > 0 { assert ranges[1..][i - 1] == ranges[i]; }
    }
  }

  /** Skipping sorted ranges shows exactly the positions outside all of them, overlapping and nested ones included. */
  lemma {:induction false} VisibleMeaning(raw: string, ranges: seq<Range>, cursor: nat)
    requires Ascending(ranges, ByStart())
    ensures HasText(Visible(raw, ranges, cursor)) <==> exists c: nat :: ShowsAt(raw, ranges, cursor, c)
  {
    hide IsSpace, HasText, Slice;
    if ranges == [] {
      SliceText(raw, cursor, |raw|);
      assert forall c: nat :: ShowsAt(raw, ranges, cursor, c) <==> cursor <= c < |raw| && !IsSpace(raw[c]);
    } else {
      var first, rest := ranges[0], ranges[1..];
      var after := Max(cursor, first.end);
      VisibleMeaning(raw, rest, after);
      SliceText(raw, cursor, first.start);
      ConcatText(Slice(raw, cursor, first.start), Visible(raw, rest, after));
      forall c: nat
        ensures ShowsAt(raw, ranges, cursor, c) <==>
                (cursor <= c < first.start && c < |raw| && !IsSpace(raw[c])) || ShowsAt(raw, rest, after, c)
      {
        FirstRange(ranges, c);
      }
    }
  }

  // ---------- Comments and lines ----------

  /** The part of a comment that falls on the line starting at `offset`, in columns, if it touches the line. */
  function OnLine(comment: Range, offset: nat, length: nat): Option<Range> {
    var from, to := Max(comment.start, offset), Min(comment.end, offset + length);
    var coversEmptyLine := length == 0 && comment.start <= offset && comment.end > offset;
    if from < to || coversEmptyLine then Some(Range(from - offset, to - offset)) else None
  }

  /** The columns of one line that comments occupy. */
  function LineRanges(comments: seq<Range>, offset: nat, length: nat): seq<Range> {
    if comments == [] then []
    else
      var rest := LineRanges(comments[..|comments| - 1], offset, length);
      var last := OnLine(comments[|comments| - 1], offset, length);
      if last.Some? then rest + [last.value] else rest
  }

  /** Where line `k` starts in the source. */
  function LineStart(lines: seq<string>, k: nat): nat
    requires k <= |lines|
  {
    if k == 0 then 0 else LineStart(lines, k - 1) + |lines[k - 1]| + 1
  }

  /** The columns recorded for line `k`, which has line number `k + 1`: those of its comments, or none. */
  ghost predicate RecordedFor(ranges: map<nat, seq<Range>>, k: nat, line: seq<Range>) {
    if line == [] then k + 1 !in ranges else k + 1 in ranges && ranges[k + 1] == line
  }

  ghost function RangesOf(lines: seq<string>, comments: seq<Range>, k: nat): seq<Range>
    requires k < |lines|
  {
    LineRanges(comments, LineStart(lines, k), |lines[k]|)
  }

  /** Record the comment columns of one line. */
  method RecordLine(before: map<nat, seq<Range>>, k: nat, raw: string, lineOffset: nat, comments: seq<Range>)
    returns (ranges: map<nat, seq<Range>>)
    requires k + 1 !in before
    ensures RecordedFor(ranges, k, LineRanges(comments, lineOffset, |raw|))
    ensures forall j :: j != k + 1 ==> (j in ranges <==> j in before) && (j in ranges ==> ranges[j] == before[j])
  {
    ranges := before;
    for i := 0 to |comments|
      invariant RecordedFor(ranges, k, LineRanges(comments[..i], lineOffset, |raw|))
      invariant forall j :: j != k + 1 ==> (j in ranges <==> j in before) && (j in ranges ==> ranges[j] == before[j])
    {
      assert comments[..i + 1][..i] == comments[..i];
      var part := OnLine(comments[i], lineOffset, |raw|);
      if part.Some? {
        var lineRanges := if k + 1 in ranges then ranges[k + 1] else [];
        ranges := ranges[k + 1 := lineRanges + [part.value]];
      }
    }
    assert comments[..|comments|] == comments;
  }

  /** The comment columns of each line that has any, by line number from 1. */
  method HtmlCommentRanges(lines: seq<string>, comments: seq<Range>) returns (ranges: map<nat, seq<Range>>)
    ensures forall k :: 0 <= k < |lines| ==> RecordedFor(ranges, k, RangesOf(lines, comments, k))
    ensures forall number :: number in ranges ==> 1 <= number <= |lines|
  {
    ranges := map[];
    var lineOffset := 0;
    for k := 0 to |lines|
      invariant lineOffset == LineStart(lines, k)
      invariant forall j :: j in ranges ==> 1 <= j <= k
      invariant forall j :: 0 <= j < k ==> RecordedFor(ranges, j, RangesOf(lines, comments, j))
    {
      ranges := RecordLine(ranges, k, lines[k], lineOffset, comments);
      lineOffset := lineOffset + |lines[k]| + 1;
    }
  }

  /** A comment shares an offset with the line, or runs across the empty line. */
  ghost predicate Overlaps(comment: Range, offset: nat, length: nat) {
    || (exists p :: In(comment, p) && offset <= p < offset + length)
    || (length == 0 && comment.start <= offset < comment.end)
  }

  /** A line of which only comments and white space are left. */
  ghost predicate OnlyComments(comments: seq<Range>, offset: nat, raw: string) {
    && (exists i :: 0 <= i < |comments| && Overlaps(comments[i], offset, |raw|))
    && forall c :: 0 <= c < |raw| && !IsSpace(raw[c]) ==> Inside(comments, offset + c)
  }

  lemma OnLineMeaning(comment: Range, offset: nat, length: nat)
    ensures OnLine(comment, offset, length).Some? <==> Overlaps(comment, offset, length)
    ensures forall c: nat :: c < length ==>
              (In(comment, offset + c) <==>
               OnLine(comment, offset, length).Some? && In(OnLine(comment, offset, length).value, c))
  {
    if Max(comment.start, offset) < Min(comment.end, offset + length) {
      var p := Max(comment.start, offset);
      assert In(comment, p) && offset <= p < offset + length;
    }
  }

  lemma InsideMore(ranges: seq<Range>, last: Range, p: nat)
    ensures Inside(ranges + [last], p) <==> Inside(ranges, p) || In(last, p)
  {
    if Inside(ranges, p) {
      var i :| 0 <= i < |ranges| && In(ranges[i], p);
      assert (ranges + [last])[i] == ranges[i];
    }
    assert (ranges + [last])[|ranges|] == last;
  }

  /** Columns of a line lie in its comment ranges exactly when their offsets lie in comments. */
  lemma {:induction false} LineRangesMeaning(comments: seq<Range>, offset: nat, length: nat)
    ensures LineRanges(comments, offset, length) != [] <==>
              exists i :: 0 <= i < |comments| && Overlaps(comments[i], offset, length)
    ensures forall c: nat :: c < length ==> (Inside(LineRanges(comments, offset, length), c) <==>
              Inside(comments, offset + c))
  {
    if comments != [] {
      var rest, last := comments[..|comments| - 1], comments[|comments| - 1];
      LineRangesMeaning(rest, offset, length);
      OnLineMeaning(last, offset, length);
      var before, part := LineRanges(rest, offset, length), OnLine(last, offset, length);
      hide Overlaps, OnLine;
      assert comments == rest + [last];
      forall c: nat | c < length
        ensures Inside(LineRanges(comments, offset, length), c) <==> Inside(comments, offset + c)
      {
        InsideMore(rest, last, offset + c);
        if part.Some? { InsideMore(before, part.value, c); }
      }
      assert forall i :: 0 <= i < |rest| ==> rest[i] == comments[i];
    }
  }

  lemma StartOrder()
    ensures Consistent(ByStart())
  {
  }

  lemma SameInside(a: seq<Range>, b: seq<Range>)
    requires forall x :: x in a <==> x in b
    ensures forall p: nat :: Inside(a, p) <==> Inside(b, p)
  {
    forall p: nat ensures Inside(a, p) <==> Inside(b, p) {
      if Inside(a, p) {
        var i :| 0 <= i < |a| && In(a[i], p);
        assert a[i] in b;
      }
      if Inside(b, p) {
        var i :| 0 <= i < |b| && In(b[i], p);
        assert b[i] in a;
      }
    }
  }

  /** What the column test decides about a line with comment ranges. */
  lemma DroppedMeaning(comments: seq<Range>, offset: nat, raw: string)
    ensures var line := LineRanges(comments, offset, |raw|);
            (line != [] && !HasText(Visible(raw, Sort(line, ByStart()), 0))) <==> OnlyComments(comments, offset, raw)
  {
    var line := LineRanges(comments, offset, |raw|);
    var sorted := Sort(line, ByStart());
    StartOrder();
    hide Consistent, IsSpace, HasText, Overlaps;
    SortSorts(line, ByStart());
    SortMembers(line, ByStart());
    LineRangesMeaning(comments, offset, |raw|);
    VisibleMeaning(raw, sorted, 0);
    SameInside(line, sorted);
    forall c: nat ensures ShowsAt(raw, sorted, 0, c) <==>
              c < |raw| && !IsSpace(raw[c]) && !Inside(comments, offset + c) {
    }
  }

  lemma SliceAfter(first: string, rest: string, from: nat, length: nat)
    requires from + length <= |rest|
    ensures (first + rest)[|first| + from..|first| + from + length] == rest[from..from + length]
  {
  }

  lemma {:induction false} StartShift(lines: seq<string>, k: nat)
    requires 0 < k < |lines|
    ensures LineStart(lines, k) == |lines[0]| + 1 + LineStart(lines[1..], k - 1)
  {
    if k > 1 { StartShift(lines, k - 1); }
  }

  /** Lines tile the source, each followed by its line break. */
  lemma {:induction false} LineInSource(lines: seq<string>, k: nat)
    requires k < |lines|
    ensures var source := Join(lines, '\n');
            LineStart(lines, k) + |lines[k]| <= |source| &&
            source[LineStart(lines, k)..LineStart(lines, k) + |lines[k]|] == lines[k]
    decreases k
  {
    if |lines| > 1 {
      var rest := Join(lines[1..], '\n');
      var source := Join(lines, '\n');
      assert source == lines[0] + ['\n'] + rest;
      if k > 0 {
        LineInSource(lines[1..], k - 1);
        StartShift(lines, k);
        var from, length := LineStart(lines[1..], k - 1), |lines[k]|;
        SliceAfter(lines[0] + ['\n'], rest, from, length);
      }
    }
  }

  datatype ProseLine = ProseLine(index: nat, raw: string)

  /** A line outside code blocks of which more than comments is left. */
  ghost predicate Kept(lines: seq<string>, comments: seq<Range>, fenced: set<nat>, k: nat) {
    k < |lines| && k + 1 !in fenced && !OnlyComments(comments, LineStart(lines, k), lines[k])
  }

  /** The lines kept among the first `n`, in order. */
  ghost function KeptLines(lines: seq<string>, comments: seq<Range>, fenced: set<nat>, n: nat): seq<ProseLine>
    requires n <= |lines|
  {
    if n == 0 then []
    else
      KeptLines(lines, comments, fenced, n - 1)
      + if Kept(lines, comments, fenced, n - 1) then [ProseLine(n, lines[n - 1])] else []
  }

  /** The `KeptLines` of a source text. */
  method MarkdownProseLines(source: string, comments: seq<Range>, fenced: set<nat>) returns (kept: seq<ProseLine>)
    ensures kept == KeptLines(Split(source, '\n'), comments, fenced, |Split(source, '\n')|)
  {
    var lines := Split(source, '\n');
    var ranges := HtmlCommentRanges(lines, comments);
    hide OnlyComments, Visible, HasText, LineRanges;
    kept := [];
    for k := 0 to |lines|
      invariant kept == KeptLines(lines, comments, fenced, k)
    {
      if k + 1 !in fenced {
        DroppedMeaning(comments, LineStart(lines, k), lines[k]);
        assert RecordedFor(ranges, k, RangesOf(lines, comments, k));
        var rendered := HasRenderedTextOutsideComments(lines[k], if k + 1 in ranges then Some(ranges[k + 1]) else None);
        if rendered {
          kept := kept + [ProseLine(k + 1, lines[k])];
        }
      }
    }
  }
}
