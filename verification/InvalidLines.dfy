/**
 The lines marking the invalid segments of a ring: one for every maximal run of invalid
 segments, where a run may pass over the start of the ring.
 */
module InvalidLines {
  import opened Planar

  // The index j steps after i around n segments.
  function StepsOn(n: nat, i: nat, j: nat): (r: nat)
    requires i < n && j <= n
    ensures r < n
  {
    if i + j < n then i + j else i + j - n
  }

  datatype InvalidRun = InvalidRun(start: nat, len: nat)

  ghost predicate InvalidFor(invalid: seq<bool>, start: nat, len: nat)
    requires start < |invalid| && len <= |invalid|
  {
    forall j {:trigger StepsOn(|invalid|, start, j)} :: 0 <= j < len ==> invalid[StepsOn(|invalid|, start, j)]
  }

  // Segment i is invalid and the one before it is not.
  ghost predicate Begins(invalid: seq<bool>, i: nat)
    requires i < |invalid|
  {
    invalid[i] && !invalid[StepsOn(|invalid|, i, |invalid| - 1)]
  }

  // The run is the whole ring, or has valid segments before and behind it.
  ghost predicate IsMaximal(invalid: seq<bool>, run: InvalidRun) {
    var n := |invalid|;
    && run.start < n && 0 < run.len <= n
    && InvalidFor(invalid, run.start, run.len)
    && if run.len == n then run.start == 0
       else Begins(invalid, run.start) && !invalid[StepsOn(n, run.start, run.len)]
  }

  // The segments of the line are those of the run, in ring order.
  ghost predicate Draws(pts: seq<Point>, line: seq<Point>, run: InvalidRun)
    requires |pts| > 0 && run.start < |pts| - 1 && run.len <= |pts| - 1
  {
    && |line| == run.len + 1
    && forall j {:trigger StepsOn(|pts| - 1, run.start, j)} :: 0 <= j < run.len ==>
         var i := StepsOn(|pts| - 1, run.start, j);
         line[j] == pts[i] && line[j + 1] == pts[i + 1]
  }

  // The run that holds the first invalid segment i is left, t segments on, at f.
  ghost predicate LeavesFirst(invalid: seq<bool>, i: nat, t: nat, f: nat) {
    && i < |invalid| && invalid[i] && (forall j :: 0 <= j < i ==> !invalid[j])
    && 0 < t < |invalid| && InvalidFor(invalid, i, t) && f == StepsOn(|invalid|, i, t) && !invalid[f]
  }

  // The runs begin at these offsets from f, one after another.
  ghost predicate BeginAt(n: nat, runs: seq<InvalidRun>, f: nat, offs: seq<nat>) {
    && f < n && |offs| == |runs| && (forall k, m :: 0 <= k < m < |offs| ==> offs[k] < offs[m])
    && forall k :: 0 <= k < |offs| ==> offs[k] < n && runs[k].start == StepsOn(n, f, offs[k])
  }

  // The runs come in ring order, that of the first invalid segment last.
  ghost predicate InRingOrder(invalid: seq<bool>, runs: seq<InvalidRun>) {
    exists i, t, f, offs :: LeavesFirst(invalid, i, t, f) && BeginAt(|invalid|, runs, f, offs)
  }

  // Each maximal run of invalid segments is drawn by one line.
  ghost predicate LinesOfRuns(pts: seq<Point>, invalid: seq<bool>, lines: seq<seq<Point>>, runs: seq<InvalidRun>)
    requires |pts| == |invalid| + 1
  {
    && |lines| == |runs|
    && (forall k :: 0 <= k < |runs| ==> IsMaximal(invalid, runs[k]) && Draws(pts, lines[k], runs[k]))
    && (forall k, m :: 0 <= k < m < |runs| ==> runs[k].start != runs[m].start)
    && (forall i :: 0 <= i < |invalid| && Begins(invalid, i) ==> exists k :: 0 <= k < |runs| && runs[k].start == i)
    && ((forall i :: 0 <= i < |invalid| ==> invalid[i]) && |invalid| > 0 ==> |runs| == 1)
    && (SomeInvalid(invalid) && SomeValid(invalid) ==> InRingOrder(invalid, runs))
  }

  ghost predicate SomeInvalid(invalid: seq<bool>) {
    exists i :: 0 <= i < |invalid| && invalid[i]
  }

  ghost predicate SomeValid(invalid: seq<bool>) {
    exists i :: 0 <= i < |invalid| && !invalid[i]
  }

  // ---- Every invalid segment is drawn once, and no other

  ghost predicate InRun(n: nat, run: InvalidRun, i: nat, j: nat)
    requires run.start < n && run.len <= n
  {
    j < run.len && StepsOn(n, run.start, j) == i
  }

  // A run of invalid segments ends before it would reach a valid one again.
  lemma RunEnds(invalid: seq<bool>, s: nat, len: nat, v: nat)
    requires s < |invalid| && len <= |invalid| && InvalidFor(invalid, s, len) && v < |invalid| && !invalid[v]
    ensures len < |invalid|
  {
    var n := |invalid|;
    assert StepsOn(n, s, if v >= s then v - s else v + n - s) == v;
  }

  // Walking back from an invalid segment to where its run begins.
  lemma {:induction false} BeginsBefore(invalid: seq<bool>, i: nat, v: nat) returns (s: nat, j: nat)
    requires i < |invalid| && invalid[i] && v < |invalid| && !invalid[v]
    ensures s < |invalid| && j < |invalid| && Begins(invalid, s) && StepsOn(|invalid|, s, j) == i
    ensures InvalidFor(invalid, s, j + 1)
    decreases if v < i then i - v else i + |invalid| - v
  {
    var n := |invalid|;
    var p := StepsOn(n, i, n - 1);
    if invalid[p] {
      s, j := BeginsBefore(invalid, p, v);
      RunEnds(invalid, s, j + 1, v);
      j := j + 1;
      forall t | 0 <= t < j + 1 ensures invalid[StepsOn(n, s, t)] {
        assert t < j ==> invalid[StepsOn(n, s, t)];
      }
    } else {
      s, j := i, 0;
    }
  }

  lemma RunReaches(invalid: seq<bool>, run: InvalidRun, j: nat)
    requires IsMaximal(invalid, run) && j < |invalid| && InvalidFor(invalid, run.start, j + 1)
    ensures j < run.len
  {
  }

  lemma WholeRingInvalid(invalid: seq<bool>, a: InvalidRun)
    requires IsMaximal(invalid, a) && a.len == |invalid|
    ensures forall i :: 0 <= i < |invalid| ==> invalid[i]
  {
    forall i | 0 <= i < |invalid| ensures invalid[i] {
      assert StepsOn(|invalid|, a.start, i) == i;
    }
  }

  lemma WholeRingOnly(invalid: seq<bool>, a: InvalidRun, b: InvalidRun)
    requires IsMaximal(invalid, a) && IsMaximal(invalid, b)
    ensures a.len == |invalid| <==> b.len == |invalid|
  {
    if a.len == |invalid| { WholeRingInvalid(invalid, a); }
    if b.len == |invalid| { WholeRingInvalid(invalid, b); }
  }

  // Of two runs through segment i, neither starts before the other.
  lemma StartsNoLater(invalid: seq<bool>, a: InvalidRun, b: InvalidRun, i: nat, j: nat, t: nat)
    requires IsMaximal(invalid, a) && IsMaximal(invalid, b) && a.len < |invalid| && b.len < |invalid|
    requires InRun(|invalid|, a, i, j) && InRun(|invalid|, b, i, t)
    ensures t <= j
  {
    var n := |invalid|;
    assert j < t ==> StepsOn(n, b.start, t - j - 1) == StepsOn(n, a.start, n - 1);
  }

  /** Two maximal runs with a segment in common are the same. */
  lemma RunsApart(invalid: seq<bool>, a: InvalidRun, b: InvalidRun, i: nat, j: nat, t: nat)
    requires IsMaximal(invalid, a) && IsMaximal(invalid, b)
    requires InRun(|invalid|, a, i, j) && InRun(|invalid|, b, i, t)
    ensures a.start == b.start && j == t
  {
    WholeRingOnly(invalid, a, b);
    if a.len < |invalid| {
      StartsNoLater(invalid, a, b, i, j, t);
      StartsNoLater(invalid, b, a, i, t, j);
    }
  }

  // Segment i is the j-th on line k.
  ghost predicate OnLine(n: nat, runs: seq<InvalidRun>, i: nat, k: nat, j: nat) {
    k < |runs| && runs[k].start < n && runs[k].len <= n && InRun(n, runs[k], i, j)
  }

  /** Every invalid segment is on exactly one line, in one place, and no valid segment is on any. */
  lemma InvalidOnce(pts: seq<Point>, invalid: seq<bool>, lines: seq<seq<Point>>, runs: seq<InvalidRun>, i: nat)
    requires |pts| == |invalid| + 1 && LinesOfRuns(pts, invalid, lines, runs) && i < |invalid|
    ensures invalid[i] <==> exists k: nat, j: nat :: OnLine(|invalid|, runs, i, k, j)
    ensures forall k: nat, j: nat, m: nat, t: nat ::
      OnLine(|invalid|, runs, i, k, j) && OnLine(|invalid|, runs, i, m, t) ==> k == m && j == t
  {
    var n := |invalid|;
    if invalid[i] {
      var k, j := LineThrough(pts, invalid, lines, runs, i);
      assert OnLine(n, runs, i, k, j);
    }
    forall k: nat, j: nat, m: nat, t: nat | OnLine(n, runs, i, k, j) && OnLine(n, runs, i, m, t)
      ensures k == m && j == t
    {
      RunsApart(invalid, runs[k], runs[m], i, j, t);
    }
  }

  lemma LineThrough(pts: seq<Point>, invalid: seq<bool>, lines: seq<seq<Point>>, runs: seq<InvalidRun>, i: nat)
    returns (k: nat, j: nat)
    requires |pts| == |invalid| + 1 && LinesOfRuns(pts, invalid, lines, runs) && i < |invalid| && invalid[i]
    ensures k < |runs| && InRun(|invalid|, runs[k], i, j)
  {
    if v :| 0 <= v < |invalid| && !invalid[v] {
      var s;
      s, j := BeginsBefore(invalid, i, v);
      k :| 0 <= k < |runs| && runs[k].start == s;
      RunReaches(invalid, runs[k], j);
    } else {
      k, j := 0, i;
      WholeRun(invalid, runs[0]);
      assert StepsOn(|invalid|, 0, i) == i;
    }
  }

  lemma WholeRun(invalid: seq<bool>, run: InvalidRun)
    requires IsMaximal(invalid, run) && forall i :: 0 <= i < |invalid| ==> invalid[i]
    ensures run == InvalidRun(0, |invalid|)
  {
  }

  // ---- Going around from the end of a run

  // The runs begun in the first d steps from f on.
  ghost predicate RunsListed(invalid: seq<bool>, f: nat, d: nat, runs: seq<InvalidRun>, offs: seq<nat>) {
    var n := |invalid|;
    && f < n && d <= n && |offs| == |runs|
    && (forall k :: 0 <= k < |runs| ==>
          offs[k] < d && runs[k].start == StepsOn(n, f, offs[k]) && IsMaximal(invalid, runs[k]))
    && (forall k, m :: 0 <= k < m < |offs| ==> offs[k] < offs[m])
    && (forall o {:trigger StepsOn(n, f, o)} :: 0 <= o < d && Begins(invalid, StepsOn(n, f, o)) ==> o in offs)
  }

  // From the valid segment at offset d: t1 steps to the next invalid one, and t2 more to the end of its run.
  ghost predicate NextRun(invalid: seq<bool>, f: nat, d: nat, t1: nat, t2: nat) {
    var n := |invalid|;
    && f < n && d < n && t1 < n && 0 < t2 < n
    && !invalid[f] && invalid[StepsOn(n, f, n - 1)] && !invalid[StepsOn(n, f, d)]
    && var e := StepsOn(n, f, d);
       var s := StepsOn(n, e, t1);
    && invalid[s] && (forall j {:trigger StepsOn(n, e, j)} :: 0 <= j < t1 ==> !invalid[StepsOn(n, e, j)])
    && InvalidFor(invalid, s, t2) && !invalid[StepsOn(n, s, t2)]
  }

  lemma NextRunOffsets(invalid: seq<bool>, f: nat, d: nat, t1: nat, t2: nat)
    requires NextRun(invalid, f, d, t1, t2)
    ensures var n := |invalid|; var e := StepsOn(n, f, d); var s := StepsOn(n, e, t1);
      && 0 < t1 && d + t1 + t2 <= n
      && s == StepsOn(n, f, d + t1) && StepsOn(n, s, t2) == StepsOn(n, f, d + t1 + t2)
      && IsMaximal(invalid, InvalidRun(s, t2))
  {
    var n := |invalid|;
    var e := StepsOn(n, f, d);
    var s := StepsOn(n, e, t1);
    assert StepsOn(n, e, 0) == e;
    assert StepsOn(n, e, n - 1 - d) == StepsOn(n, f, n - 1);
    assert d + t1 < n;
    assert StepsOn(n, s, n - d - t1) == f;
    assert StepsOn(n, s, n - 1) == StepsOn(n, e, t1 - 1);
  }

  lemma NoneBetween(invalid: seq<bool>, f: nat, d: nat, t1: nat, t2: nat, o: nat)
    requires NextRun(invalid, f, d, t1, t2) && d <= o < d + t1 + t2 <= |invalid| && o != d + t1
    ensures !Begins(invalid, StepsOn(|invalid|, f, o))
  {
    var n := |invalid|;
    var e := StepsOn(n, f, d);
    var s := StepsOn(n, e, t1);
    var i := StepsOn(n, f, o);
    if o < d + t1 {
      assert StepsOn(n, e, o - d) == i;
    } else {
      assert StepsOn(n, s, o - d - t1 - 1) == StepsOn(n, i, n - 1);
    }
  }

  lemma ListedNext(invalid: seq<bool>, f: nat, d: nat, t1: nat, t2: nat, runs: seq<InvalidRun>, offs: seq<nat>)
    requires RunsListed(invalid, f, d, runs, offs) && NextRun(invalid, f, d, t1, t2)
    ensures 0 < t1 && d + t1 + t2 <= |invalid|
    ensures RunsListed(invalid, f, d + t1 + t2, runs + [InvalidRun(StepsOn(|invalid|, f, d + t1), t2)], offs + [d + t1])
  {
    var n := |invalid|;
    NextRunOffsets(invalid, f, d, t1, t2);
    var more := offs + [d + t1];
    assert more[|offs|] == d + t1;
    forall o | 0 <= o < d + t1 + t2 && Begins(invalid, StepsOn(n, f, o)) ensures o in more {
      if d <= o && o != d + t1 { NoneBetween(invalid, f, d, t1, t2, o); }
    }
  }

  lemma IsFirst(invalid: seq<bool>, i: nat, s: nat, t: nat, f: nat)
    requires 0 < |invalid| && s < |invalid| && i == StepsOn(|invalid|, 0, s) && invalid[i]
    requires forall j {:trigger StepsOn(|invalid|, 0, j)} :: 0 <= j < s ==> !invalid[StepsOn(|invalid|, 0, j)]
    requires 0 < t < |invalid| && InvalidFor(invalid, i, t) && f == StepsOn(|invalid|, i, t) && !invalid[f]
    ensures LeavesFirst(invalid, i, t, f)
  {
    forall j | 0 <= j < i ensures !invalid[j] { assert StepsOn(|invalid|, 0, j) == j; }
  }

  lemma AllListed(pts: seq<Point>, invalid: seq<bool>, f: nat, lines: seq<seq<Point>>, runs: seq<InvalidRun>,
                  offs: seq<nat>, first: nat, t: nat)
    requires |pts| == |invalid| + 1 && RunsListed(invalid, f, |invalid|, runs, offs) && SomeValid(invalid)
    requires AllDraw(pts, lines, runs) && LeavesFirst(invalid, first, t, f)
    ensures LinesOfRuns(pts, invalid, lines, runs)
  {
    var n := |invalid|;
    assert BeginAt(n, runs, f, offs);
    forall i | 0 <= i < n && Begins(invalid, i) ensures exists k :: 0 <= k < |runs| && runs[k].start == i {
      var o := if i >= f then i - f else i + n - f;
      assert StepsOn(n, f, o) == i;
      var k :| 0 <= k < |offs| && offs[k] == o;
      assert runs[k].start == i;
    }
  }

  // ---- The ring and its marks

  lemma NoLines(pts: seq<Point>, invalid: seq<bool>)
    requires |pts| == |invalid| + 1 && !SomeInvalid(invalid)
    ensures LinesOfRuns(pts, invalid, [], [])
  {
    if |invalid| > 0 { assert !invalid[0]; }
  }

  lemma WholeLine(pts: seq<Point>, invalid: seq<bool>)
    requires |pts| == |invalid| + 1 && SomeInvalid(invalid) && !SomeValid(invalid)
    ensures LinesOfRuns(pts, invalid, [pts], [InvalidRun(0, |invalid|)])
  {
    forall i | 0 <= i < |invalid| ensures !Begins(invalid, i) {}
  }

  lemma NoneListed(invalid: seq<bool>, f: nat)
    requires f < |invalid|
    ensures RunsListed(invalid, f, 0, [], [])
  {
  }

  // The lines draw the runs.
  ghost predicate AllDraw(pts: seq<Point>, lines: seq<seq<Point>>, runs: seq<InvalidRun>) {
    && |pts| > 0 && |lines| == |runs|
    && forall k :: 0 <= k < |runs| ==>
         runs[k].start < |pts| - 1 && runs[k].len <= |pts| - 1 && Draws(pts, lines[k], runs[k])
  }

  lemma AllDrawNext(pts: seq<Point>, lines: seq<seq<Point>>, runs: seq<InvalidRun>, line: seq<Point>, run: InvalidRun)
    requires AllDraw(pts, lines, runs) && run.start < |pts| - 1 && run.len <= |pts| - 1 && Draws(pts, line, run)
    ensures AllDraw(pts, lines + [line], runs + [run])
  {
  }

  lemma BeforeEnd(invalid: seq<bool>, s: nat, t: nat)
    requires s < |invalid| && 0 < t < |invalid| && InvalidFor(invalid, s, t)
    ensures invalid[StepsOn(|invalid|, StepsOn(|invalid|, s, t), |invalid| - 1)]
    ensures StepsOn(|invalid|, StepsOn(|invalid|, s, t), 0) == StepsOn(|invalid|, s, t)
  {
    var n := |invalid|;
    assert StepsOn(n, StepsOn(n, s, t), n - 1) == StepsOn(n, s, t - 1);
  }

  lemma AroundOnce(n: nat, f: nat, d: nat)
    requires f < n && 0 < d <= n
    ensures StepsOn(n, f, d) == f <==> d == n
  {
  }

  class CoverageRing {
    const pts: seq<Point>
    var invalid: seq<bool>

    // A closed ring with one mark for each segment.
    ghost predicate Valid()
      reads this
    {
      |pts| == |invalid| + 1 && pts[0] == pts[|pts| - 1]
    }

    constructor (pts: seq<Point>)
      requires |pts| > 0 && pts[0] == pts[|pts| - 1]
      ensures Valid() && this.pts == pts && forall i :: 0 <= i < |invalid| ==> !invalid[i]
    {
      this.pts := pts;
      invalid := seq(|pts| - 1, i => false);
    }

    method MarkInvalid(index: nat)
      requires Valid() && index < |invalid|
      modifies this
      ensures Valid() && invalid == old(invalid)[index := true]
    {
      invalid := invalid[index := true];
    }

    method HasInvalid() returns (has: bool)
      ensures has <==> SomeInvalid(invalid)
    {
      for i := 0 to |invalid|
        invariant forall j :: 0 <= j < i ==> !invalid[j]
      {
        if invalid[i] {
          return true;
        }
      }
      return false;
    }

    method IsInvalid() returns (all: bool)
      ensures all <==> !SomeValid(invalid)
    {
      for i := 0 to |invalid|
        invariant forall j :: 0 <= j < i ==> invalid[j]
      {
        if !invalid[i] {
          return false;
        }
      }
      return true;
    }

    function NextMarkIndex(index: nat): (r: nat)
      requires |invalid| > 0
      reads this
      ensures index < |invalid| ==> r == StepsOn(|invalid|, index, 1)
    {
      if index >= |invalid| - 1 then 0 else index + 1
    }

    /** The first invalid segment from index on. */
    method FindInvalidStart(index: nat) returns (r: nat, ghost t: nat)
      requires index < |invalid| && SomeInvalid(invalid)
      ensures t < |invalid| && r == StepsOn(|invalid|, index, t) && invalid[r]
      ensures forall j {:trigger StepsOn(|invalid|, index, j)} :: 0 <= j < t ==>
        !invalid[StepsOn(|invalid|, index, j)]
    {
      ghost var n := |invalid|;
      ghost var i :| 0 <= i < n && invalid[i];
      ghost var last := if i >= index then i - index else i + n - index;
      r, t := index, 0;
      while !invalid[r]
        invariant t <= last < n && r == StepsOn(n, index, t) && i == StepsOn(n, index, last)
        invariant forall j {:trigger StepsOn(n, index, j)} :: 0 <= j < t ==> !invalid[StepsOn(n, index, j)]
        decreases last - t
      {
        r := NextMarkIndex(r);
        t := t + 1;
      }
    }

    /** The first valid segment behind index, which is invalid itself. */
    method FindInvalidEnd(index: nat) returns (r: nat, ghost t: nat)
      requires index < |invalid| && invalid[index] && SomeValid(invalid)
      ensures 0 < t < |invalid| && r == StepsOn(|invalid|, index, t) && !invalid[r]
      ensures InvalidFor(invalid, index, t)
    {
      ghost var n := |invalid|;
      ghost var i :| 0 <= i < n && !invalid[i];
      ghost var last := if i >= index then i - index else i + n - index;
      r, t := NextMarkIndex(index), 1;
      while invalid[r]
        invariant 0 < t <= last < n && r == StepsOn(n, index, t) && i == StepsOn(n, index, last)
        invariant InvalidFor(invalid, index, t)
        decreases last - t
      {
        assert invalid[StepsOn(n, index, t)];
        r := NextMarkIndex(r);
        t := t + 1;
      }
    }

    method ExtractSection(startIndex: nat, endIndex: nat) returns (linePts: seq<Point>)
      requires startIndex <= endIndex < |pts|
      ensures linePts == pts[startIndex..endIndex + 1]
    {
      linePts := [];
      for i := startIndex to endIndex + 1
        invariant linePts == pts[startIndex..i]
      {
        linePts := linePts + [pts[i]];
      }
    }

    method ExtractSectionWrap(startIndex: nat, endIndex: nat) returns (linePts: seq<Point>)
      requires Valid() && endIndex < startIndex < |invalid|
      ensures |linePts| == endIndex + |pts| - startIndex
      ensures forall j :: 0 <= j < |linePts| ==> linePts[j] == pts[StepsOn(|invalid|, startIndex, j)]
    {
      var sz := endIndex + (|pts| - startIndex);
      linePts := [];
      var index := startIndex;
      for i := 0 to sz
        invariant |linePts| == i && index == StepsOn(|invalid|, startIndex, i)
        invariant forall j :: 0 <= j < i ==> linePts[j] == pts[StepsOn(|invalid|, startIndex, j)]
      {
        linePts := linePts + [pts[index]];
        index := NextMarkIndex(index);
      }
    }

    /** The line over a run that does not fill the ring. */
    method CreateLine(startIndex: nat, endIndex: nat, ghost len: nat) returns (linePts: seq<Point>)
      requires Valid() && startIndex < |invalid| && 0 < len < |invalid|
      requires endIndex == StepsOn(|invalid|, startIndex, len)
      ensures Draws(pts, linePts, InvalidRun(startIndex, len))
    {
      if endIndex < startIndex {
        linePts := ExtractSectionWrap(startIndex, endIndex);
      } else {
        linePts := ExtractSection(startIndex, endIndex);
      }
    }

    // The next run from endIndex on, d steps around from f.
    method NextLine(endIndex: nat, ghost f: nat, ghost d: nat)
      returns (line: seq<Point>, endIndex': nat, ghost t1: nat, ghost t2: nat)
      requires Valid() && f < |invalid| && d < |invalid| && endIndex == StepsOn(|invalid|, f, d)
      requires !invalid[f] && invalid[StepsOn(|invalid|, f, |invalid| - 1)] && !invalid[endIndex]
      ensures NextRun(invalid, f, d, t1, t2) && d + t1 + t2 <= |invalid|
      ensures endIndex' == StepsOn(|invalid|, f, d + t1 + t2) && !invalid[endIndex']
      ensures Draws(pts, line, InvalidRun(StepsOn(|invalid|, f, d + t1), t2))
    {
      var startIndex;
      startIndex, t1 := FindInvalidStart(endIndex);
      endIndex', t2 := FindInvalidEnd(startIndex);
      NextRunOffsets(invalid, f, d, t1, t2);
      line := CreateLine(startIndex, endIndex', t2);
    }

    // Going around the ring from the end of its first run.
    method SeparateLines() returns (lines: seq<seq<Point>>)
      requires Valid() && SomeInvalid(invalid) && SomeValid(invalid)
      ensures exists runs :: LinesOfRuns(pts, invalid, lines, runs)
    {
      ghost var n := |invalid|;
      lines := [];
      ghost var runs: seq<InvalidRun> := [];
      var startIndex;
      ghost var s: nat;
      startIndex, s := FindInvalidStart(0);
      var firstEndIndex, t := FindInvalidEnd(startIndex);
      IsFirst(invalid, startIndex, s, t, firstEndIndex);
      BeforeEnd(invalid, startIndex, t);
      NoneListed(invalid, firstEndIndex);
      hide *;
      var endIndex := firstEndIndex;
      ghost var d: nat, offs: seq<nat> := 0, [];
      while true
        invariant d < n && endIndex == StepsOn(n, firstEndIndex, d) && !invalid[endIndex]
        invariant RunsListed(invalid, firstEndIndex, d, runs, offs) && AllDraw(pts, lines, runs)
        decreases n - d
      {
        var line: seq<Point>;
        ghost var t1, t2: nat;
        line, endIndex, t1, t2 := NextLine(endIndex, firstEndIndex, d);
        ListedNext(invalid, firstEndIndex, d, t1, t2, runs, offs);
        ghost var run := InvalidRun(StepsOn(n, firstEndIndex, d + t1), t2);
        AllDrawNext(pts, lines, runs, line, run);
        lines := lines + [line];
        runs, offs, d := runs + [run], offs + [d + t1], d + t1 + t2;
        AroundOnce(n, firstEndIndex, d);
        if endIndex == firstEndIndex {
          break;
        }
      }
      AllListed(pts, invalid, firstEndIndex, lines, runs, offs, startIndex, t);
    }

    /** One line for every maximal run of invalid segments. */
    method CreateInvalidLines() returns (lines: seq<seq<Point>>)
      requires Valid()
      ensures exists runs :: LinesOfRuns(pts, invalid, lines, runs)
    {
      var hasInvalid := HasInvalid();
      if !hasInvalid {
        NoLines(pts, invalid);
        return [];
      }
      var allInvalid := IsInvalid();
      if allInvalid {
        var line := ExtractSection(0, |pts| - 1);
        WholeLine(pts, invalid);
        assert line == pts;
        return [line];
      }
      lines := SeparateLines();
    }
  }
}
