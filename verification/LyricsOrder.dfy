/** What normalized lyrics hold and in which order, in the minutes, seconds and texts of the lines. */
module LyricsOrder {
  import opened Wrappers
  import opened Lyrics

  // ----- order

  predicate Timed(line: Line) {
    line.stamps != []
  }

  /** A sexagesimal reading: seconds below a minute. */
  predicate Regular(s: Stamp) {
    s.seconds < 60.0
  }

  /** By minutes, then by seconds. */
  predicate NotAfter(s: Stamp, t: Stamp) {
    s.minutes < t.minutes || (s.minutes == t.minutes && s.seconds <= t.seconds)
  }

  lemma MinutesComeFirst(s: Stamp, t: Stamp)
    requires Regular(s) && Regular(t)
    requires 60.0 * s.minutes as real + s.seconds <= 60.0 * t.minutes as real + t.seconds
    ensures NotAfter(s, t)
  {
    assert s.minutes > t.minutes ==> s.minutes as real >= t.minutes as real + 1.0;
  }

  /** The lines that have a stamp come out by its sixty seconds a minute. */
  lemma OutputIsInOrder(lines: seq<Line>, output: seq<Line>, i: nat, j: nat)
    requires lines != [] && Normalized(Some(lines)) == Some(output)
    requires i < j < |output| && Timed(output[i]) && Timed(output[j])
    ensures |output[i].stamps| == 1 && |output[j].stamps| == 1
    ensures
      var s, t := output[i].stamps[0], output[j].stamps[0];
      && 60.0 * s.minutes as real + s.seconds <= 60.0 * t.minutes as real + t.seconds
      && (Regular(s) && Regular(t) ==> NotAfter(s, t))
  {
    hide Normalized, Entries, StableSort, AtTime, Inherits, NotAfter;
    var _ := NormalizedHoldsAll(lines, output);
    EntriesInherit(output);
    var entries := Entries(output);
    assert entries[i].line == output[i] && entries[j].line == output[j];
    assert IsExact(entries[i]) && IsExact(entries[j]);
    var s, t := output[i].stamps[0], output[j].stamps[0];
    if Regular(s) && Regular(t) {
      MinutesComeFirst(s, t);
    }
  }

  // ----- contents

  /** One line for each stamp, with the same text, or the untimed line itself. */
  function Spread(line: Line): seq<Line> {
    if line.stamps == [] then [line]
    else seq(|line.stamps|, i requires 0 <= i < |line.stamps| => Line([line.stamps[i]], line.text))
  }

  function SpreadAll(lines: seq<Line>): seq<Line> {
    if lines == [] then [] else SpreadAll(lines[..|lines| - 1]) + Spread(lines[|lines| - 1])
  }

  lemma TakeOut<T>(s: seq<T>, x: T) returns (k: nat)
    requires x in s
    ensures k < |s| && s[k] == x && s == s[..k] + [x] + s[k + 1..]
  {
    k :| k < |s| && s[k] == x;
  }

  /** Lists of the same entries have the same lines. */
  lemma {:induction false} SameEntriesSameLines(a: seq<Entry>, b: seq<Entry>)
    requires multiset(a) == multiset(b)
    ensures multiset(LinesOf(a)) == multiset(LinesOf(b))
  {
    hide LinesOf;
    if a == [] {
      assert |multiset(b)| == 0;
      assert a == b;
    } else {
      var e, rest := a[0], a[1..];
      FirstTakenOut(a);
      assert e in multiset(b);
      var k := TakeOut(b, e);
      LinesOfTakenOut(b, k);
      assert multiset(rest) == multiset(a) - multiset{e};
      SameEntriesSameLines(rest, b[..k] + b[k + 1..]);
    }
  }

  lemma LinesOfTakenOut(b: seq<Entry>, k: nat)
    requires k < |b|
    ensures multiset(LinesOf(b)) == multiset(LinesOf(b[..k] + b[k + 1..])) + multiset{b[k].line}
    ensures multiset(b[..k] + b[k + 1..]) == multiset(b) - multiset{b[k]}
  {
    assert b == b[..k] + [b[k]] + b[k + 1..];
    assert LinesOf(b[..k] + b[k + 1..]) == LinesOf(b)[..k] + LinesOf(b)[k + 1..];
    assert LinesOf(b) == LinesOf(b)[..k] + [b[k].line] + LinesOf(b)[k + 1..];
  }

  lemma FirstTakenOut(a: seq<Entry>)
    requires a != []
    ensures multiset(LinesOf(a)) == multiset(LinesOf(a[1..])) + multiset{a[0].line}
    ensures multiset(a) == multiset(a[1..]) + multiset{a[0]}
  {
    assert a == [a[0]] + a[1..];
    assert LinesOf(a) == [a[0].line] + LinesOf(a[1..]);
  }

  lemma ExpandSpreads(line: Line, last: real)
    ensures multiset(LinesOf(Expand(line, last))) == multiset(Spread(line))
  {
    hide StableSort, AtTime;
    StableSortSorts(Stamped(line));
    SameEntriesSameLines(StableSort(Stamped(line)), Stamped(line));
    assert |line.stamps| > 1 ==> LinesOf(Stamped(line)) == Spread(line);
    assert |line.stamps| == 1 ==> [line.stamps[0]] == line.stamps && Spread(line) == [line];
    assert |line.stamps| <= 1 ==> LinesOf(Expand(line, last)) == [line];
  }

  lemma {:induction false} EntriesSpread(lines: seq<Line>)
    ensures multiset(LinesOf(Entries(lines))) == multiset(SpreadAll(lines))
  {
    hide Expand, Spread;
    if lines != [] {
      var init, last := lines[..|lines| - 1], lines[|lines| - 1];
      EntriesSpread(init);
      var before := Entries(init);
      ExpandSpreads(last, LastTime(before));
      var more := Expand(last, LastTime(before));
      assert LinesOf(before + more) == LinesOf(before) + LinesOf(more);
    }
  }

  /** Nothing is lost but blank lines, nothing is added, and every stamp keeps its text. */
  lemma OutputHoldsEveryStamp(lines: seq<Line>, output: seq<Line>) returns (blanks: seq<Line>)
    requires lines != [] && Normalized(Some(lines)) == Some(output)
    ensures forall l | l in blanks :: l == Line([], "")
    ensures multiset(output) + multiset(blanks) == multiset(SpreadAll(lines))
  {
    hide Normalized, Entries, SpreadAll, AtTime, Sorted;
    var entries := NormalizedHoldsAll(lines, output);
    blanks := LinesOf(entries);
    forall l | l in blanks ensures l == Line([], "") {
      var i :| 0 <= i < |blanks| && blanks[i] == l;
      assert entries[i] in entries;
    }
    EntriesSpread(lines);
    var all := Entries(output) + entries;
    assert multiset(all) == multiset(Entries(lines));
    SameEntriesSameLines(all, Entries(lines));
    assert LinesOf(all) == output + blanks;
  }

  // ----- the time of an untimed line

  /** The latest of some stamps. */
  predicate IsLatestOf(stamps: seq<Stamp>, t: real) {
    && (exists s | s in stamps :: t == 60.0 * s.minutes as real + s.seconds)
    && forall s | s in stamps :: 60.0 * s.minutes as real + s.seconds <= t
  }

  lemma ExpandEndsWithLatest(line: Line, last: real)
    ensures
      var time := LastTime(Expand(line, last));
      if Timed(line) then IsLatestOf(line.stamps, time) else time == last
  {
    hide StableSort, AtTime;
    var stamped := Stamped(line);
    StableSortSorts(stamped);
    SameElements(StableSort(stamped), stamped);
    if |line.stamps| > 1 {
      var sorted := StableSort(stamped);
      forall s | s in line.stamps ensures 60.0 * s.minutes as real + s.seconds <= LastTime(sorted) {
        var i :| 0 <= i < |line.stamps| && line.stamps[i] == s;
        assert stamped[i] in sorted;
      }
      assert sorted[|sorted| - 1] in stamped;
    }
  }

  /** An untimed line is sorted at the latest stamp of the last line before it that has any, else at zero. */
  lemma {:induction false} UntimedFollowsLatest(lines: seq<Line>, k: nat)
    requires k <= |lines| && forall i | k <= i < |lines| :: !Timed(lines[i])
    ensures k == 0 ==> LastTime(Entries(lines)) == 0.0
    ensures k > 0 && Timed(lines[k - 1]) ==> IsLatestOf(lines[k - 1].stamps, LastTime(Entries(lines)))
    ensures lines != [] && k < |lines| ==>
              var n := |lines| - 1;
              Entries(lines) == Entries(lines[..n]) + [Entry(LastTime(Entries(lines)), lines[n])]
  {
    hide IsLatestOf, ExpandAll;
    if lines != [] {
      var init, last := lines[..|lines| - 1], lines[|lines| - 1];
      ExpandEndsWithLatest(last, LastTime(Entries(init)));
      if k < |lines| {
        UntimedFollowsLatest(init, k);
      }
    }
  }
}
