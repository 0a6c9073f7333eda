/**
 `normalize_lrc_lyrics` of `lyrics.py`, on lines already split into leading time stamps and
 text, without ID tags and word timings.
 */
module Lyrics {
  import opened Wrappers

  type Seconds = s: real | s >= 0.0

  /** A `[mm:ss.xx]` tag. */
  datatype Stamp = Stamp(minutes: nat, seconds: Seconds)

  function TimeOf(s: Stamp): (t: real)
    ensures t >= 0.0
  {
    s.minutes as real * 60.0 + s.seconds
  }

  datatype Line = Line(stamps: seq<Stamp>, text: string)

  const BLANK := Line([], "")

  /** A line with at most one stamp, and the time it is sorted by. */
  datatype Entry = Entry(time: real, line: Line)

  predicate IsTimed(e: Entry) {
    e.line.stamps != []
  }

  // ----- the stable sort by time

  predicate Sorted(entries: seq<Entry>) {
    forall i, j | 0 <= i < j < |entries| :: entries[i].time <= entries[j].time
  }

  /** `e` goes behind everything that is not later. */
  function Insert(entries: seq<Entry>, e: Entry): seq<Entry> {
    if entries == [] || entries[|entries| - 1].time <= e.time then entries + [e]
    else Insert(entries[..|entries| - 1], e) + [entries[|entries| - 1]]
  }

  function StableSort(entries: seq<Entry>): seq<Entry> {
    if entries == [] then [] else Insert(StableSort(entries[..|entries| - 1]), entries[|entries| - 1])
  }

  /** The entries of one time, in order. */
  function AtTime(entries: seq<Entry>, t: real): seq<Entry> {
    if entries == [] then []
    else AtTime(entries[..|entries| - 1], t) +
         if entries[|entries| - 1].time == t then [entries[|entries| - 1]] else []
  }

  lemma AtTimeSnoc(entries: seq<Entry>, e: Entry, t: real)
    ensures AtTime(entries + [e], t) == AtTime(entries, t) + if e.time == t then [e] else []
  {
    assert (entries + [e])[..|entries|] == entries;
  }

  lemma {:induction false} InsertIsPermutation(entries: seq<Entry>, e: Entry)
    ensures multiset(Insert(entries, e)) == multiset(entries) + multiset{e}
  {
    if entries != [] && entries[|entries| - 1].time > e.time {
      InsertIsPermutation(entries[..|entries| - 1], e);
      assert entries == entries[..|entries| - 1] + [entries[|entries| - 1]];
    }
  }

  lemma {:induction false} InsertIsSorted(entries: seq<Entry>, e: Entry)
    requires Sorted(entries)
    ensures Sorted(Insert(entries, e))
  {
    if entries != [] && entries[|entries| - 1].time > e.time {
      var init, last := entries[..|entries| - 1], entries[|entries| - 1];
      var ins := Insert(init, e);
      InsertIsSorted(init, e);
      InsertIsPermutation(init, e);
      assert Insert(entries, e) == ins + [last];
      forall i | 0 <= i < |ins| ensures ins[i].time <= last.time {
        assert ins[i] in multiset(ins);
        assert ins[i] == e || ins[i] in init;
      }
    }
  }

  /** Only entries of later times are passed, so those of each time stay in order. */
  lemma {:induction false} InsertIsStable(entries: seq<Entry>, e: Entry, t: real)
    ensures AtTime(Insert(entries, e), t) == AtTime(entries + [e], t)
  {
    if entries != [] && entries[|entries| - 1].time > e.time {
      var init, last := entries[..|entries| - 1], entries[|entries| - 1];
      InsertIsStable(init, e, t);
      hide AtTime;
      assert entries == init + [last];
      AtTimeSnoc(Insert(init, e), last, t);
      AtTimeSnoc(init, e, t);
      AtTimeSnoc(init, last, t);
      AtTimeSnoc(entries, e, t);
    }
  }

  lemma SameElements<T>(s: seq<T>, t: seq<T>)
    requires multiset(s) == multiset(t)
    ensures forall x :: x in s <==> x in t
  {
    assert forall x :: x in s <==> x in multiset(s);
  }

  lemma {:induction false} StableSortSorts(entries: seq<Entry>)
    ensures Sorted(StableSort(entries))
    ensures multiset(StableSort(entries)) == multiset(entries)
    ensures forall t :: AtTime(StableSort(entries), t) == AtTime(entries, t)
  {
    if entries != [] {
      var init, last := entries[..|entries| - 1], entries[|entries| - 1];
      StableSortSorts(init);
      assert entries == init + [last];
      InsertIsSorted(StableSort(init), last);
      InsertIsPermutation(StableSort(init), last);
      forall t ensures AtTime(StableSort(entries), t) == AtTime(entries, t) {
        InsertIsStable(StableSort(init), last, t);
        AtTimeSnoc(StableSort(init), last, t);
        AtTimeSnoc(init, last, t);
      }
    }
  }

  lemma {:induction false} SortOfSorted(entries: seq<Entry>)
    requires Sorted(entries)
    ensures StableSort(entries) == entries
  {
    if entries != [] {
      SortOfSorted(entries[..|entries| - 1]);
    }
  }

  // ----- the entries of the lines

  /** One entry for each stamp of the line. */
  function Stamped(line: Line): seq<Entry> {
    seq(|line.stamps|, i requires 0 <= i < |line.stamps| =>
      Entry(TimeOf(line.stamps[i]), Line([line.stamps[i]], line.text)))
  }

  /** One entry per stamp, in order of time; an untimed line takes the time before it. */
  function Expand(line: Line, last: real): (r: seq<Entry>)
    ensures r != []
  {
    if line.stamps == [] then [Entry(last, line)]
    else if |line.stamps| == 1 then [Entry(TimeOf(line.stamps[0]), line)]
    else ExpandAll(line)
  }

  function ExpandAll(line: Line): (r: seq<Entry>)
    requires line.stamps != []
    ensures r != []
  {
    StableSortSorts(Stamped(line));
    assert |multiset(StableSort(Stamped(line)))| == |Stamped(line)|;
    StableSort(Stamped(line))
  }

  function LastTime(entries: seq<Entry>): real {
    if entries == [] then 0.0 else entries[|entries| - 1].time
  }

  function Entries(lines: seq<Line>): seq<Entry> {
    if lines == [] then []
    else
      var before := Entries(lines[..|lines| - 1]);
      before + Expand(lines[|lines| - 1], LastTime(before))
  }

  function LinesOf(entries: seq<Entry>): (r: seq<Line>)
    ensures |r| == |entries| && forall i | 0 <= i < |r| :: r[i] == entries[i].line
  {
    seq(|entries|, i requires 0 <= i < |entries| => entries[i].line)
  }

  /** Newlines are stripped from both ends of the joined text, and so are blank lines. */
  function StripStart(lines: seq<Line>): seq<Line> {
    if lines != [] && lines[0] == BLANK then StripStart(lines[1..]) else lines
  }

  function StripEnd(lines: seq<Line>): seq<Line> {
    if lines != [] && lines[|lines| - 1] == BLANK then StripEnd(lines[..|lines| - 1]) else lines
  }

  /** Lyrics may be missing or empty, and nothing may remain of them. */
  function Normalized(lyrics: Option<seq<Line>>): Option<seq<Line>> {
    match lyrics
    case None => None
    case Some(lines) =>
      if lines == [] then lyrics else
      var stripped := StripEnd(StripStart(LinesOf(StableSort(Entries(lines)))));
      if stripped == [] then None else Some(stripped)
  }

  /** The inner loop. */
  method AppendAll(before: seq<Entry>, expanded: seq<Entry>) returns (entries: seq<Entry>, lastTime: real)
    requires expanded != []
    ensures entries == before + expanded && lastTime == LastTime(entries)
  {
    entries, lastTime := before, LastTime(before);
    for j := 0 to |expanded|
      invariant entries == before + expanded[..j] && lastTime == LastTime(entries)
    {
      assert before + expanded[..j + 1] == before + expanded[..j] + [expanded[j]];
      lastTime := expanded[j].time;
      entries := entries + [expanded[j]];
    }
    assert expanded[..|expanded|] == expanded;
  }

  function Stripped(entries: seq<Entry>): seq<Line> {
    StripEnd(StripStart(LinesOf(entries)))
  }

  lemma NoEntries(lines: seq<Line>)
    ensures Entries(lines[..0]) == []
  {
  }

  lemma NormalizedFrom(lyrics: Option<seq<Line>>)
    ensures Normalized(lyrics) ==
            if lyrics.None? || |lyrics.value| == 0 then lyrics
            else
              var stripped := Stripped(StableSort(Entries(lyrics.value)));
              if |stripped| == 0 then None else Some(stripped)
  {
    hide Entries, StableSort, StripStart, StripEnd, LinesOf;
  }

  method NormalizeLrcLyrics(lyrics: Option<seq<Line>>) returns (r: Option<seq<Line>>)
    ensures r == Normalized(lyrics)
  {
    hide Normalized, Entries, Expand, StableSort, Stripped;
    NormalizedFrom(lyrics);
    if lyrics.None? || |lyrics.value| == 0 {
      return lyrics;
    }
    var lines := lyrics.value;
    var entries: seq<Entry> := [];
    var lastTime := 0.0;
    NoEntries(lines);
    for i := 0 to |lines|
      invariant entries == Entries(lines[..i]) && lastTime == LastTime(entries)
    {
      EntriesSnoc(lines[..i], lines[i]);
      assert lines[..i + 1] == lines[..i] + [lines[i]];
      entries, lastTime := AppendAll(entries, Expand(lines[i], lastTime));
    }
    assert lines[..|lines|] == lines;
    entries := StableSort(entries);
    var stripped := Stripped(entries);
    r := if |stripped| == 0 then None else Some(stripped);
  }

  // ----- times are inherited from the entry before, also in the sorted list

  /** Times are not negative, a stamp gives its time, and each entry has at most one. */
  predicate IsExact(e: Entry) {
    e.time >= 0.0 && |e.line.stamps| <= 1 && (IsTimed(e) ==> e.time == TimeOf(e.line.stamps[0]))
  }

  predicate Exact(entries: seq<Entry>) {
    forall i | 0 <= i < |entries| :: IsExact(entries[i])
  }

  predicate InheritsAt(entries: seq<Entry>, i: nat)
    requires i < |entries|
  {
    !IsTimed(entries[i]) ==> entries[i].time == LastTime(entries[..i])
  }

  predicate Inherits(entries: seq<Entry>) {
    forall i | 0 <= i < |entries| :: InheritsAt(entries, i)
  }

  lemma SortedIsExact(entries: seq<Entry>)
    requires forall i | 0 <= i < |entries| :: IsExact(entries[i]) && IsTimed(entries[i])
    ensures Exact(StableSort(entries)) && forall e | e in StableSort(entries) :: IsTimed(e)
  {
    hide StableSort, AtTime, IsExact, IsTimed, Sorted;
    var sorted := StableSort(entries);
    StableSortSorts(entries);
    SameElements(sorted, entries);
    forall i | 0 <= i < |sorted| ensures IsExact(sorted[i]) {
      assert sorted[i] in entries;
    }
  }

  lemma StampedIsExact(line: Line)
    ensures forall i | 0 <= i < |Stamped(line)| :: IsExact(Stamped(line)[i]) && IsTimed(Stamped(line)[i])
  {
  }

  lemma ExpandIsExact(line: Line, last: real)
    requires last >= 0.0
    ensures Exact(Expand(line, last))
    ensures line.stamps == [] || forall e | e in Expand(line, last) :: IsTimed(e)
  {
    hide StableSort, Stamped;
    StampedIsExact(line);
    SortedIsExact(Stamped(line));
  }

  lemma {:induction false} EntriesInherit(lines: seq<Line>)
    ensures Exact(Entries(lines)) && Inherits(Entries(lines)) && LastTime(Entries(lines)) >= 0.0
  {
    if lines != [] {
      var init, last := lines[..|lines| - 1], lines[|lines| - 1];
      EntriesInherit(init);
      var before := Entries(init);
      ExpandIsExact(last, LastTime(before));
      var more := Expand(last, LastTime(before));
      forall i | 0 <= i < |before + more| ensures InheritsAt(before + more, i) {
        if i < |before| {
          assert InheritsAt(before, i) && (before + more)[..i] == before[..i];
        } else {
          assert more[i - |before|] in more && (before + more)[..|before|] == before;
        }
      }
      assert more[|more| - 1] in more;
    }
  }

  lemma {:induction false} AtTimeConcat(a: seq<Entry>, b: seq<Entry>, t: real)
    ensures AtTime(a + b, t) == AtTime(a, t) + AtTime(b, t)
  {
    if b == [] {
      assert a + b == a;
    } else {
      var init, last := b[..|b| - 1], b[|b| - 1];
      AtTimeConcat(a, init, t);
      assert a + b == a + init + [last] && b == init + [last];
      AtTimeSnoc(a + init, last, t);
    }
  }

  lemma {:induction false} AtTimeElements(entries: seq<Entry>, t: real, e: Entry)
    ensures e in AtTime(entries, t) <==> e in entries && e.time == t
  {
    if entries != [] {
      AtTimeElements(entries[..|entries| - 1], t, e);
      assert entries == entries[..|entries| - 1] + [entries[|entries| - 1]];
    }
  }

  /** The first entry of a time heads the list of that time. */
  lemma AtTimeHead(entries: seq<Entry>, i: nat)
    requires i < |entries| && forall j | 0 <= j < i :: entries[j].time != entries[i].time
    ensures AtTime(entries, entries[i].time) != [] && AtTime(entries, entries[i].time)[0] == entries[i]
  {
    var t, a, b := entries[i].time, entries[..i], entries[i + 1..];
    assert entries == a + [entries[i]] + b;
    AtTimeConcat(a + [entries[i]], b, t);
    AtTimeSnoc(a, entries[i], t);
    if AtTime(a, t) != [] {
      AtTimeElements(a, t, AtTime(a, t)[0]);
    }
  }

  lemma {:induction false} FirstAtTime(entries: seq<Entry>, t: real) returns (i: nat)
    requires AtTime(entries, t) != []
    ensures i < |entries| && entries[i].time == t && forall j | 0 <= j < i :: entries[j].time != t
  {
    AtTimeElements(entries, t, AtTime(entries, t)[0]);
    i := 0;
    while entries[i].time != t
      invariant i < |entries| && forall j | 0 <= j < i :: entries[j].time != t
      invariant exists j | i <= j < |entries| :: entries[j].time == t
      decreases |entries| - i
    {
      i := i + 1;
    }
  }

  /** Sorting stably keeps the inheritance: an untimed entry still follows an entry of its time. */
  lemma SortingInherits(before: seq<Entry>, sorted: seq<Entry>)
    requires Exact(before) && Inherits(before)
    requires Exact(sorted) && Sorted(sorted) && forall t :: AtTime(sorted, t) == AtTime(before, t)
    ensures Inherits(sorted)
  {
    hide AtTime;
    forall i | 0 <= i < |sorted| ensures InheritsAt(sorted, i) {
      var t := sorted[i].time;
      assert sorted[i] in sorted;
      if !IsTimed(sorted[i]) {
        assert forall j | 0 <= j < i :: sorted[j] in sorted;
        if forall j | 0 <= j < i :: sorted[j].time != t {
          AtTimeHead(sorted, i);
          assert AtTime(before, t) == AtTime(sorted, t);
          var k := FirstAtTime(before, t);
          AtTimeHead(before, k);
          assert before[k] == sorted[i] && InheritsAt(before, k);
          assert k == 0 && t == 0.0;
        }
      }
    }
  }

  lemma PrefixInherits(entries: seq<Entry>, n: nat)
    requires Exact(entries) && Inherits(entries) && n <= |entries|
    ensures Exact(entries[..n]) && Inherits(entries[..n])
  {
    forall i | 0 <= i < n ensures InheritsAt(entries[..n], i) {
      assert InheritsAt(entries, i) && entries[..n][..i] == entries[..i];
    }
  }

  lemma EntriesSnoc(lines: seq<Line>, line: Line)
    ensures Entries(lines + [line]) == Entries(lines) + Expand(line, LastTime(Entries(lines)))
  {
    hide Expand;
    assert (lines + [line])[..|lines|] == lines;
  }

  lemma LinesOfSnoc(entries: seq<Entry>)
    requires entries != []
    ensures entries == entries[..|entries| - 1] + [entries[|entries| - 1]]
    ensures LinesOf(entries) == LinesOf(entries[..|entries| - 1]) + [entries[|entries| - 1].line]
  {
    hide LinesOf;
  }

  /** Reading the lines of such a list again gives the same times. */
  lemma {:induction false} LinesGiveEntries(entries: seq<Entry>)
    requires Exact(entries) && Inherits(entries)
    ensures Entries(LinesOf(entries)) == entries
  {
    if entries == [] {
      return;
    }
    hide Entries, LinesOf, StableSort, ExpandAll;
    var init, last := entries[..|entries| - 1], entries[|entries| - 1];
    PrefixInherits(entries, |init|);
    LinesGiveEntries(init);
    assert InheritsAt(entries, |init|) && IsExact(last);
    assert Expand(last.line, LastTime(init)) == [last];
    hide *;
    EntriesSnoc(LinesOf(init), last.line);
    LinesOfSnoc(entries);
  }

  lemma {:induction false} StripStartCuts(lines: seq<Line>) returns (a: nat)
    ensures a <= |lines| && StripStart(lines) == lines[a..]
    ensures forall i | 0 <= i < a :: lines[i] == BLANK
    ensures a < |lines| ==> lines[a] != BLANK
  {
    if lines != [] && lines[0] == BLANK {
      var b := StripStartCuts(lines[1..]);
      a := b + 1;
      assert lines[1..][b..] == lines[a..];
      assert forall i | 0 < i < a :: lines[i] == lines[1..][i - 1];
    } else {
      a := 0;
    }
  }

  lemma {:induction false} StripEndCuts(lines: seq<Line>) returns (b: nat)
    ensures b <= |lines| && StripEnd(lines) == lines[..b]
    ensures forall i | b <= i < |lines| :: lines[i] == BLANK
    ensures b > 0 ==> lines[b - 1] != BLANK
  {
    if lines != [] && lines[|lines| - 1] == BLANK {
      b := StripEndCuts(lines[..|lines| - 1]);
      assert lines[..|lines| - 1][..b] == lines[..b];
    } else {
      b := |lines|;
      assert lines[..b] == lines;
    }
  }

  predicate AllBlank(entries: seq<Entry>) {
    forall e | e in entries :: e.line == BLANK
  }

  /** Cutting to `a..b` drops exactly the blank lines at the two ends. */
  predicate CutsBlanks(entries: seq<Entry>, a: nat, b: nat) {
    && a <= b <= |entries|
    && AllBlank(entries[..a]) && AllBlank(entries[b..])
    && (a < b ==> entries[a].line != BLANK && entries[b - 1].line != BLANK)
  }

  lemma StripsToRange(all: seq<Line>) returns (a: nat, b: nat)
    ensures a <= b <= |all| && StripEnd(StripStart(all)) == all[a..b]
    ensures forall i | 0 <= i < a || b <= i < |all| :: all[i] == BLANK
    ensures a < b ==> all[a] != BLANK && all[b - 1] != BLANK
  {
    a := StripStartCuts(all);
    var rest := all[a..];
    var c := StripEndCuts(rest);
    b := a + c;
    hide StripStart, StripEnd;
    assert rest[..c] == all[a..b];
    forall i | b <= i < |all| ensures all[i] == BLANK {
      assert rest[i - a] == BLANK;
    }
    assert a < b ==> rest[c - 1] == all[b - 1];
  }

  /** The normalized lines, as a range of the sorted entries. */
  lemma NormalizedCuts(lines: seq<Line>) returns (sorted: seq<Entry>, a: nat, b: nat)
    requires lines != []
    ensures sorted == StableSort(Entries(lines)) && CutsBlanks(sorted, a, b)
    ensures Normalized(Some(lines)) == if a == b then None else Some(LinesOf(sorted[a..b]))
  {
    sorted := StableSort(Entries(lines));
    var all := LinesOf(sorted);
    assert Normalized(Some(lines)) ==
           if StripEnd(StripStart(all)) == [] then None else Some(StripEnd(StripStart(all)));
    hide StableSort, Entries, StripStart, StripEnd, AtTime, Normalized, LinesOf;
    a, b := StripsToRange(all);
    LinesOfCut(sorted, a, b);
    CutsBlankLines(sorted, a, b);
  }

  lemma LinesOfCut(entries: seq<Entry>, a: nat, b: nat)
    requires a <= b <= |entries|
    ensures LinesOf(entries)[a..b] == LinesOf(entries[a..b])
  {
    hide LinesOf;
  }

  lemma CutsBlankLines(entries: seq<Entry>, a: nat, b: nat)
    requires a <= b <= |entries|
    requires forall i | 0 <= i < a || b <= i < |entries| :: LinesOf(entries)[i] == BLANK
    requires a < b ==> LinesOf(entries)[a] != BLANK && LinesOf(entries)[b - 1] != BLANK
    ensures CutsBlanks(entries, a, b)
  {
    hide LinesOf;
    assert forall i | 0 <= i < |entries| :: LinesOf(entries)[i] == entries[i].line;
  }

  lemma CutInherits(sorted: seq<Entry>, a: nat, b: nat)
    requires Inherits(sorted) && CutsBlanks(sorted, a, b)
    ensures Inherits(sorted[a..b])
  {
    assert forall i | 0 <= i < a :: sorted[i] in sorted[..a];
    LeadingBlanksAtStart(sorted, a);
    var cut := sorted[a..b];
    forall i | 0 <= i < |cut| ensures InheritsAt(cut, i) {
      assert InheritsAt(sorted, a + i);
      assert cut[i] == sorted[a + i];
      if i > 0 { assert cut[i - 1] == sorted[a + i - 1]; }
    }
  }

  lemma CutIsSorted(sorted: seq<Entry>, a: nat, b: nat)
    requires Exact(sorted) && Sorted(sorted) && a <= b <= |sorted|
    ensures Exact(sorted[a..b]) && Sorted(sorted[a..b])
  {
    assert forall i | 0 <= i < b - a :: sorted[a..b][i] == sorted[a + i];
  }

  lemma {:induction false} LeadingBlanksAtStart(sorted: seq<Entry>, a: nat)
    requires Inherits(sorted) && a <= |sorted| && forall i | 0 <= i < a :: sorted[i].line == BLANK
    ensures forall i | 0 <= i < a :: sorted[i].time == 0.0
  {
    if a > 0 {
      LeadingBlanksAtStart(sorted, a - 1);
      assert sorted[a - 1].line == BLANK && InheritsAt(sorted, a - 1);
    }
  }

  lemma SortedEntriesInherit(lines: seq<Line>)
    ensures Exact(StableSort(Entries(lines))) && Inherits(StableSort(Entries(lines)))
  {
    EntriesInherit(lines);
    var sorted := StableSort(Entries(lines));
    hide StableSort, Entries, AtTime;
    StableSortSorts(Entries(lines));
    SameElements(sorted, Entries(lines));
    forall i | 0 <= i < |sorted| ensures IsExact(sorted[i]) {
      assert sorted[i] in Entries(lines);
    }
    SortingInherits(Entries(lines), sorted);
  }

  // ----- the promises

  /** The normalized lines read back as the range of the sorted entries they were cut from. */
  lemma NormalizedReadsBack(lines: seq<Line>) returns (sorted: seq<Entry>, a: nat, b: nat)
    requires lines != []
    ensures sorted == StableSort(Entries(lines)) && CutsBlanks(sorted, a, b)
    ensures Normalized(Some(lines)) == if a == b then None else Some(LinesOf(sorted[a..b]))
    ensures Entries(LinesOf(sorted[a..b])) == sorted[a..b]
    ensures Exact(sorted[a..b]) && Sorted(sorted[a..b])
  {
    sorted, a, b := NormalizedCuts(lines);
    hide StableSort, Entries, Normalized, LinesOf;
    SortedEntriesInherit(lines);
    StableSortSorts(Entries(lines));
    CutInherits(sorted, a, b);
    CutIsSorted(sorted, a, b);
    LinesGiveEntries(sorted[a..b]);
  }

  lemma CutOff<T>(s: seq<T>, a: nat, b: nat)
    requires a <= b <= |s|
    ensures multiset(s) == multiset(s[a..b]) + multiset(s[..a] + s[b..])
    ensures forall x :: x in s <==> x in s[..a] || x in s[a..b] || x in s[b..]
  {
    assert s == s[..a] + s[a..b] + s[b..];
  }

  /**
   The normalized lines read back in order of time, and hold what the given lines hold: one line
   per stamp, every untimed line at the time it inherited, but for blank lines at the two ends.
   */
  lemma NormalizedHoldsAll(lines: seq<Line>, output: seq<Line>) returns (blanks: seq<Entry>)
    requires lines != [] && Normalized(Some(lines)) == Some(output)
    ensures Sorted(Entries(output))
    ensures forall e | e in Entries(output) :: |e.line.stamps| <= 1
    ensures LinesOf(Entries(output)) == output
    ensures AllBlank(blanks)
    ensures multiset(Entries(lines)) == multiset(Entries(output)) + multiset(blanks)
  {
    var sorted, a, b := NormalizedReadsBack(lines);
    StableSortSorts(Entries(lines));
    blanks := sorted[..a] + sorted[b..];
    assert AllBlank(blanks);
    hide StableSort, Entries, Normalized, AtTime, Sorted, AllBlank;
    CutOff(sorted, a, b);
  }

  /** Nothing but blank lines gives nothing. */
  lemma NothingMeansBlank(lines: seq<Line>)
    requires lines != []
    ensures Normalized(Some(lines)) == None <==> AllBlank(Entries(lines))
  {
    var sorted, a, b := NormalizedReadsBack(lines);
    StableSortSorts(Entries(lines));
    hide StableSort, Entries, Normalized, LinesOf, AtTime, Sorted, Exact;
    SameElements(sorted, Entries(lines));
    CutOff(sorted, a, b);
    if a < b { assert sorted[a] in sorted; }
  }

  /** Lines of one time keep their order. */
  lemma NormalizedKeepsOrder(lines: seq<Line>, output: seq<Line>, t: real)
    requires lines != [] && Normalized(Some(lines)) == Some(output)
    requires forall e | e in Entries(lines) && e.time == t :: e.line != BLANK
    ensures AtTime(Entries(output), t) == AtTime(Entries(lines), t)
  {
    var sorted, a, b := NormalizedReadsBack(lines);
    StableSortSorts(Entries(lines));
    hide StableSort, Entries, Normalized, LinesOf, AtTime, Sorted, Exact, AllBlank;
    SameElements(sorted, Entries(lines));
    CutKeepsTime(sorted, a, b, t);
  }

  lemma ThreeParts<T>(s: seq<T>, a: nat, b: nat)
    requires a <= b <= |s|
    ensures s == s[..a] + s[a..b] + s[b..]
  {
  }

  lemma AtTimeOfCut(entries: seq<Entry>, a: nat, b: nat, t: real)
    requires a <= b <= |entries|
    ensures AtTime(entries, t) == AtTime(entries[..a], t) + AtTime(entries[a..b], t) + AtTime(entries[b..], t)
  {
    hide AtTime;
    ThreeParts(entries, a, b);
    AtTimeConcat(entries[..a] + entries[a..b], entries[b..], t);
    AtTimeConcat(entries[..a], entries[a..b], t);
  }

  lemma CutKeepsTime(sorted: seq<Entry>, a: nat, b: nat, t: real)
    requires CutsBlanks(sorted, a, b)
    requires forall e | e in sorted && e.time == t :: e.line != BLANK
    ensures AtTime(sorted[a..b], t) == AtTime(sorted, t)
  {
    hide AtTime, AllBlank;
    BlanksHaveOtherTimes(sorted[..a], t);
    BlanksHaveOtherTimes(sorted[b..], t);
    AtTimeOfCut(sorted, a, b, t);
  }

  lemma BlanksHaveOtherTimes(entries: seq<Entry>, t: real)
    requires AllBlank(entries) && forall e | e in entries && e.time == t :: e.line != BLANK
    ensures AtTime(entries, t) == []
  {
    if AtTime(entries, t) != [] {
      AtTimeElements(entries, t, AtTime(entries, t)[0]);
    }
  }

  /** Normalizing twice is normalizing once: an untimed line inherits the same time again. */
  lemma NormalizingIsIdempotent(lyrics: Option<seq<Line>>)
    ensures Normalized(Normalized(lyrics)) == Normalized(lyrics)
  {
    if lyrics.Some? && lyrics.value != [] {
      var sorted, a, b := NormalizedReadsBack(lyrics.value);
      if a < b {
        var cut := sorted[a..b];
        hide StableSort, Entries, LinesOf, StripStart, StripEnd, AtTime, Normalized;
        assert cut[0] == sorted[a] && cut[|cut| - 1] == sorted[b - 1];
        NormalizedIsFixed(cut);
      }
    }
  }

  lemma NormalizedIsFixed(cut: seq<Entry>)
    requires Sorted(cut) && Entries(LinesOf(cut)) == cut
    requires cut != [] && cut[0].line != BLANK && cut[|cut| - 1].line != BLANK
    ensures Normalized(Some(LinesOf(cut))) == Some(LinesOf(cut))
  {
    hide LinesOf, Entries, AtTime;
    SortOfSorted(cut);
    StripsNothing(LinesOf(cut));
  }

  lemma StripsNothing(lines: seq<Line>)
    requires lines != [] ==> lines[0] != BLANK && lines[|lines| - 1] != BLANK
    ensures StripEnd(StripStart(lines)) == lines
  {
  }
}
