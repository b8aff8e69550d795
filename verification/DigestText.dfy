/** When the text of a digest is settled by its events. Groups that share rank and name may
    be sorted either way, which shows in the text unless their lines can change places. */
module DigestText {
  import opened Flood
  import opened Rollups
  import opened Text
  import Sequences
  import Sorting

  function LineOf(g: Group, events: seq<Event>): string {
    Line(g, CountOf(events, g))
  }

  function BodyOf(groups: seq<Group>, events: seq<Event>): string {
    TrimNewlines(Lines(groups, events))
  }

  predicate Tied(g: Group, h: Group) {
    g.severityRank == h.severityRank && g.name == h.name
  }

  predicate Commute(x: string, y: string) {
    x + y == y + x
  }

  /** The lines of tied groups may change places without a trace. */
  ghost predicate Interchangeable(groups: seq<Group>, events: seq<Event>) {
    forall g, h :: g in groups && h in groups && Tied(g, h) ==> Commute(LineOf(g, events), LineOf(h, events))
  }

  lemma LinesMore(groups: seq<Group>, g: Group, events: seq<Event>)
    ensures Lines(groups + [g], events) == Lines(groups, events) + LineOf(g, events)
  {
    assert (groups + [g])[..|groups|] == groups;
  }

  lemma {:induction false} LinesAppend(a: seq<Group>, b: seq<Group>, events: seq<Event>)
    ensures Lines(a + b, events) == Lines(a, events) + Lines(b, events)
  {
    if b == [] {
      Sequences.Empty(a);
      Sequences.Empty(Lines(a, events));
    } else {
      var most, last := b[..|b| - 1], b[|b| - 1];
      LinesAppend(a, most, events);
      LinesMore(a + most, last, events);
      LinesMore(most, last, events);
      Sequences.SplitLast(a, b);
      Sequences.Assoc(Lines(a, events), Lines(most, events), LineOf(last, events));
    }
  }

  lemma LinesOfOne(g: Group, events: seq<Event>)
    ensures Lines([g], events) == LineOf(g, events)
  {
    assert [g][..0] == [];
  }

  // ---- What a digest lists ----

  /** The event belongs with the group. */
  ghost predicate Belongs(e: Event, g: Group) {
    e.severityName == g.severityName && e.severityRank == g.severityRank && e.name == g.name
  }

  /** The places of the events that belong with the group. */
  ghost function Members(events: seq<Event>, g: Group): set<int> {
    set i | 0 <= i < |events| && Belongs(events[i], g)
  }

  /** By severity rank, the least rank first, and within a rank by name. */
  ghost predicate ByRankThenName(groups: seq<Group>) {
    forall i, j :: 0 <= i < j < |groups| ==>
      || groups[i].severityRank < groups[j].severityRank
      || (groups[i].severityRank == groups[j].severityRank && !Less(groups[j].name, groups[i].name))
  }

  /** The groups are those of the events, each once, in order. */
  ghost predicate ListsGroups(groups: seq<Group>, events: seq<Event>) {
    && ByRankThenName(groups)
    && (forall i, j :: 0 <= i < j < |groups| ==> groups[i] != groups[j])
    && (forall e :: e in events ==> HasGroup(groups, e))
    && (forall g :: g in groups ==> HasEvent(events, g))
  }

  ghost predicate HasGroup(groups: seq<Group>, e: Event) {
    exists g :: g in groups && Belongs(e, g)
  }

  ghost predicate HasEvent(events: seq<Event>, g: Group) {
    exists e :: e in events && Belongs(e, g)
  }

  lemma GroupingLists(groups: seq<Group>, events: seq<Event>)
    requires Grouping(groups, events)
    ensures ListsGroups(groups, events)
  {
    forall e | e in events ensures HasGroup(groups, e) {
      assert GroupOf(e) in groups && Belongs(e, GroupOf(e));
    }
    forall g | g in groups ensures HasEvent(events, g) {
      var e :| e in events && GroupOf(e) == g;
      assert Belongs(e, g);
    }
    forall i, j | 0 <= i < j < |groups|
      ensures groups[i].severityRank < groups[j].severityRank
        || (groups[i].severityRank == groups[j].severityRank && !Less(groups[j].name, groups[i].name))
    {
      assert !GroupLess(groups[j], groups[i]);
    }
  }

  lemma {:induction false} CountOfIsMembers(events: seq<Event>, g: Group)
    ensures CountOf(events, g) == |Members(events, g)|
  {
    if events != [] {
      var most := events[..|events| - 1];
      CountOfIsMembers(most, g);
      var here := if Belongs(events[|events| - 1], g) then {|events| - 1} else {};
      assert Members(events, g) == Members(most, g) + here;
    }
  }

  /** Lines of text, each with its line break. */
  ghost function Written(lines: seq<string>): string {
    if lines == [] then "" else Written(lines[..|lines| - 1]) + lines[|lines| - 1] + "\n"
  }

  /** A line: the severity's name, "Unclassified" if empty, a middle dot, the event's name, a
      multiplication sign and how many. */
  ghost predicate ShowsGroup(line: string, g: Group, events: seq<Event>) {
    line == (if g.severityName == "" then "Unclassified" else g.severityName)
            + " \U{00B7} " + g.name + " \U{00D7}" + Itoa(|Members(events, g)|)
  }

  lemma {:induction false} LinesAreWritten(groups: seq<Group>, events: seq<Event>, lines: seq<string>)
    requires |lines| == |groups| && forall i :: 0 <= i < |groups| ==> ShowsGroup(lines[i], groups[i], events)
    ensures Lines(groups, events) == Written(lines)
  {
    if groups != [] {
      var n := |groups| - 1;
      LinesAreWritten(groups[..n], events, lines[..n]);
      CountOfIsMembers(events, groups[n]);
      assert LineOf(groups[n], events) == lines[n] + "\n";
      Sequences.Assoc(Written(lines[..n]), lines[n], "\n");
    }
  }

  lemma {:induction false} LinesFor(groups: seq<Group>, events: seq<Event>) returns (lines: seq<string>)
    ensures |lines| == |groups| && forall i :: 0 <= i < |groups| ==> ShowsGroup(lines[i], groups[i], events)
  {
    if groups == [] {
      lines := [];
    } else {
      var g := groups[|groups| - 1];
      lines := LinesFor(groups[..|groups| - 1], events);
      lines := lines + [(if g.severityName == "" then "Unclassified" else g.severityName)
                        + " \U{00B7} " + g.name + " \U{00D7}" + Itoa(|Members(events, g)|)];
    }
  }

  lemma ListedEmptyIff(groups: seq<Group>, events: seq<Event>)
    requires ListsGroups(groups, events)
    ensures groups == [] <==> events == []
  {
    if groups != [] {
      assert HasEvent(events, groups[0]);
    }
    if events != [] {
      assert HasGroup(groups, events[0]);
    }
  }

  /** A digest's body is a list of its events' groups, one line each, the line break after the
      last left off. */
  lemma DigestReads(r: Rollup, events: seq<Event>) returns (groups: seq<Group>, lines: seq<string>)
    requires IsDigest(r, events)
    ensures ListsGroups(groups, events)
    ensures |lines| == |groups| && forall i :: 0 <= i < |groups| ==> ShowsGroup(lines[i], groups[i], events)
    ensures if events == [] then r.body == "" else r.body + "\n" == Written(lines)
    ensures r.title == "Digest: " + Itoa(|events|) + " events" && r.count == |events|
  {
    groups :| Grouping(groups, events) && r.body == TrimNewlines(Lines(groups, events));
    GroupingLists(groups, events);
    ListedEmptyIff(groups, events);
    lines := LinesFor(groups, events);
    LinesAreWritten(groups, events, lines);
    if events != [] {
      TrimOne(groups, events);
    }
  }

  // ---- Interchangeable lines settle the text ----

  lemma {:induction false} CommuteThrough(x: string, groups: seq<Group>, events: seq<Event>)
    requires forall h :: h in groups ==> Commute(x, LineOf(h, events))
    ensures Commute(x, Lines(groups, events))
  {
    if groups == [] {
      Sequences.Empty(x);
    } else {
      var most, last := groups[..|groups| - 1], groups[|groups| - 1];
      CommuteThrough(x, most, events);
      var l := LineOf(last, events);
      assert Commute(x, l);
      Sequences.Assoc(x, Lines(most, events), l);
      Sequences.Assoc(Lines(most, events), x, l);
      Sequences.Assoc(Lines(most, events), l, x);
    }
  }

  function Without(groups: seq<Group>, p: nat): seq<Group>
    requires p < |groups|
  {
    groups[..p] + groups[p + 1..]
  }

  /** A group whose followers are all tied with it may as well come last. */
  lemma MoveLast(groups: seq<Group>, p: nat, events: seq<Event>)
    requires p < |groups|
    requires forall h :: h in groups[p + 1..] ==> Commute(LineOf(groups[p], events), LineOf(h, events))
    ensures Lines(groups, events) == Lines(Without(groups, p), events) + LineOf(groups[p], events)
  {
    var g, before, after := groups[p], groups[..p], groups[p + 1..];
    var x, y, z := Lines(before, events), LineOf(g, events), Lines(after, events);
    assert groups == before + ([g] + after);
    LinesAppend(before, [g] + after, events);
    LinesAppend([g], after, events);
    LinesOfOne(g, events);
    LinesAppend(before, after, events);
    CommuteThrough(y, after, events);
    LastInThree(x, y, z);
  }

  lemma LastInThree(x: string, y: string, z: string)
    requires Commute(y, z)
    ensures x + (y + z) == (x + z) + y
  {
  }

  lemma WithoutIs(groups: seq<Group>, p: nat)
    requires Sorting.Distinct(groups) && Sorting.Sorted(GroupLess, groups) && p < |groups|
    ensures Sorting.Distinct(Without(groups, p)) && Sorting.Sorted(GroupLess, Without(groups, p))
    ensures forall g :: g in Without(groups, p) <==> g in groups && g != groups[p]
  {
    assert groups == groups[..p] + [groups[p]] + groups[p + 1..];
  }

  /** The last group of one sorted list is tied with all that follow it in another. */
  lemma FollowersTie(a: seq<Group>, b: seq<Group>, p: nat, q: nat)
    requires Sorting.Sorted(GroupLess, a) && Sorting.Sorted(GroupLess, b)
    requires b != [] && p < q < |a| && a[p] == b[|b| - 1] && a[q] in b
    ensures Tied(a[p], a[q])
  {
    LessTotal(a[p].name, a[q].name);
    var i :| 0 <= i < |b| && b[i] == a[q];
    LessTotal(a[p].name, a[p].name);
  }

  lemma {:induction false} SameLines(a: seq<Group>, b: seq<Group>, events: seq<Event>)
    requires Sorting.Distinct(a) && Sorting.Distinct(b)
    requires Sorting.Sorted(GroupLess, a) && Sorting.Sorted(GroupLess, b)
    requires forall g :: g in a <==> g in b
    requires Interchangeable(b, events)
    ensures Lines(a, events) == Lines(b, events)
    decreases |b|
  {
    Sorting.SameEmptiness(a, b);
    if b != [] {
      var last := b[|b| - 1];
      assert last in b;
      var p :| 0 <= p < |a| && a[p] == last;
      forall h | h in a[p + 1..] ensures Commute(LineOf(last, events), LineOf(h, events)) {
        var q :| p < q < |a| && a[q] == h;
        assert h in a && h in b;
        FollowersTie(a, b, p, q);
      }
      MoveLast(a, p, events);
      WithoutIs(a, p);
      WithoutIs(b, |b| - 1);
      assert Without(b, |b| - 1) == b[..|b| - 1];
      SameLines(Without(a, p), b[..|b| - 1], events);
    }
  }

  // ---- Lines that are not interchangeable show ----

  /** Every line ends in a digit and a line break, so trimming takes one character. */
  lemma TrimOne(groups: seq<Group>, events: seq<Event>)
    requires groups != []
    ensures Lines(groups, events) != [] && Lines(groups, events) == BodyOf(groups, events) + "\n"
  {
    var g := groups[|groups| - 1];
    var all, n := Lines(groups, events), CountOf(events, g);
    var above := Lines(groups[..|groups| - 1], events);
    var start := Shown(g.severityName) + " \U{00B7} " + g.name + " \U{00D7}";
    var head := above + start;
    Sequences.Assoc(above, start, Itoa(n));
    Sequences.Assoc(above, start + Itoa(n), "\n");
    assert all == (head + Itoa(n)) + "\n";
    ItoaEndsInDigit(n);
    TrimBreak(head + Itoa(n));
  }

  lemma TrimBreak(s: string)
    requires s != [] && s[|s| - 1] != '\n'
    ensures TrimNewlines(s + "\n") == s
  {
    assert (s + "\n")[..|s|] == s;
  }

  lemma ItoaEndsInDigit(n: nat)
    ensures Itoa(n) != [] && Itoa(n)[|Itoa(n)| - 1] != '\n'
  {
  }

  lemma SplitAt(groups: seq<Group>, i: nat, events: seq<Event>)
    requires i + 1 < |groups|
    ensures Lines(groups, events) ==
      Lines(groups[..i], events) + (LineOf(groups[i], events) + LineOf(groups[i + 1], events))
      + Lines(groups[i + 2..], events)
  {
    var g, h := groups[i], groups[i + 1];
    assert groups == (groups[..i] + ([g] + [h])) + groups[i + 2..];
    LinesAppend(groups[..i] + ([g] + [h]), groups[i + 2..], events);
    LinesAppend(groups[..i], [g] + [h], events);
    LinesAppend([g], [h], events);
    LinesOfOne(g, events);
    LinesOfOne(h, events);
  }

  /** Swapping two neighbours whose lines do not commute changes the text. */
  lemma SwapShows(groups: seq<Group>, i: nat, events: seq<Event>)
    requires i + 1 < |groups|
    requires !Commute(LineOf(groups[i], events), LineOf(groups[i + 1], events))
    ensures BodyOf(groups[i := groups[i + 1]][i + 1 := groups[i]], events) != BodyOf(groups, events)
  {
    var other := groups[i := groups[i + 1]][i + 1 := groups[i]];
    SplitAt(groups, i, events);
    SplitAt(other, i, events);
    assert other[..i] == groups[..i] && other[i + 2..] == groups[i + 2..];
    TrimOne(groups, events);
    TrimOne(other, events);
    var x, y := LineOf(groups[i], events), LineOf(groups[i + 1], events);
    MiddlesDiffer(Lines(groups[..i], events), x + y, y + x, Lines(groups[i + 2..], events));
  }

  lemma MiddlesDiffer(a: string, x: string, y: string, b: string)
    requires |x| == |y| && x != y
    ensures a + x + b != a + y + b
  {
    var k :| 0 <= k < |x| && x[k] != y[k];
    assert (a + x + b)[|a| + k] == x[k] && (a + y + b)[|a| + k] == y[k];
  }

  /** Two groups tied and some places apart: everything between is tied with them too. */
  lemma BetweenTies(groups: seq<Group>, i: nat, k: nat, j: nat)
    requires Sorting.Sorted(GroupLess, groups) && i < k <= j < |groups| && Tied(groups[i], groups[j])
    ensures Tied(groups[i], groups[k]) && Tied(groups[k], groups[j])
  {
    LessTotal(groups[i].name, groups[k].name);
    LessTotal(groups[k].name, groups[j].name);
    LessTotal(groups[i].name, groups[i].name);
  }

  lemma NotInterchangeableShows(groups: seq<Group>, events: seq<Event>, i: nat, j: nat)
    returns (a: seq<Group>, b: seq<Group>)
    requires Grouping(groups, events) && i < j < |groups| && Tied(groups[i], groups[j])
    requires !Commute(LineOf(groups[i], events), LineOf(groups[j], events))
    ensures Grouping(a, events) && Grouping(b, events) && BodyOf(a, events) != BodyOf(b, events)
  {
    BetweenTies(groups, i, i + 1, j);
    SwapTied(groups, events, i + 1, j);
    a := groups[i + 1 := groups[j]][j := groups[i + 1]];
    assert a[i] == groups[i] && a[i + 1] == groups[j];
    SwapTied(a, events, i, i + 1);
    b := a[i := a[i + 1]][i + 1 := a[i]];
    SwapShows(a, i, events);
  }

  /** The events settle the digest's text if and only if the lines of tied groups are
      interchangeable. */
  lemma DigestTextSettledIff(groups: seq<Group>, events: seq<Event>)
    requires Grouping(groups, events)
    ensures Interchangeable(groups, events) <==>
      forall other :: Grouping(other, events) ==> BodyOf(other, events) == BodyOf(groups, events)
  {
    if Interchangeable(groups, events) {
      forall other | Grouping(other, events) ensures BodyOf(other, events) == BodyOf(groups, events) {
        SameLines(other, groups, events);
      }
    } else {
      var g, h :| g in groups && h in groups && Tied(g, h) && !Commute(LineOf(g, events), LineOf(h, events));
      var i :| 0 <= i < |groups| && groups[i] == g;
      var j :| 0 <= j < |groups| && groups[j] == h;
      assert i != j;
      var a, b := NotInterchangeableShows(groups, events, if i < j then i else j, if i < j then j else i);
    }
  }

  // ---- Names without line breaks ----

  function FirstBreak(s: string): nat {
    if s == [] || s[0] == '\n' then 0 else 1 + FirstBreak(s[1..])
  }

  /** One line: a line break at the end and nowhere else. */
  predicate IsLine(s: string) {
    s != [] && s[|s| - 1] == '\n' && '\n' !in s[..|s| - 1]
  }

  lemma {:induction false} FirstBreakOfLine(s: string, rest: string)
    requires IsLine(s)
    ensures FirstBreak(s + rest) == |s| - 1
  {
    if |s| > 1 {
      assert s[0] in s[..|s| - 1];
      assert s[1..][..|s| - 2] == s[..|s| - 1][1..];
      assert (s + rest)[1..] == s[1..] + rest;
      FirstBreakOfLine(s[1..], rest);
    }
  }

  /** Single lines change places without a trace only if they are equal. */
  lemma SingleLinesCommuteIff(x: string, y: string)
    requires IsLine(x) && IsLine(y)
    ensures Commute(x, y) <==> x == y
  {
    FirstBreakOfLine(x, y);
    FirstBreakOfLine(y, x);
    assert (x + y)[..|x|] == x && (y + x)[..|y|] == y;
  }

  lemma {:induction false} ItoaIsDigits(n: nat)
    ensures forall c :: c in Itoa(n) ==> IsDigit(c)
  {
    if n >= 10 {
      ItoaIsDigits(n / 10);
    }
  }

  const DOT := " \U{00B7} "
  const TIMES := '\U{00D7}'

  /** A line is what stands before its last multiplication sign, and what stands after it. */
  lemma LineParts(g: Group, n: nat)
    ensures Line(g, n) == (Shown(g.severityName) + (DOT + g.name + " ")) + [TIMES] + (Itoa(n) + "\n")
    ensures TIMES !in Itoa(n) + "\n" && '\n' !in Itoa(n)
  {
    ItoaIsDigits(n);
  }

  predicate Unbroken(s: string) {
    '\n' !in s
  }

  /** A group without line breaks in its names takes one line. */
  lemma LineIsLine(g: Group, n: nat)
    requires Unbroken(g.severityName) && Unbroken(g.name)
    ensures IsLine(Line(g, n))
  {
    LineParts(g, n);
    var head := (Shown(g.severityName) + (DOT + g.name + " ")) + [TIMES];
    assert Line(g, n) == (head + Itoa(n)) + "\n";
    assert Line(g, n)[..|Line(g, n)| - 1] == head + Itoa(n);
  }

  /** Two strings cut at the last occurrence of a character. */
  lemma LastMark(a: string, x: string, b: string, y: string, c: char)
    requires c !in x && c !in y && a + [c] + x == b + [c] + y
    ensures a == b && x == y
  {
    var s, t := a + [c] + x, b + [c] + y;
    assert s[|a|] == c && t[|b|] == c;
    assert forall k :: |a| < k < |s| ==> s[k] == x[k - |a| - 1] && s[k] in x;
    assert forall k :: |b| < k < |t| ==> t[k] == y[k - |b| - 1] && t[k] in y;
    assert |a| == |b|;
    assert s[..|a|] == a && t[..|b|] == b && s[|a| + 1..] == x && t[|b| + 1..] == y;
  }

  lemma SameEnds(a: string, b: string, end: string)
    requires a + end == b + end
    ensures a == b
  {
    assert |a| == |b|;
    assert (a + end)[..|a|] == a && (b + end)[..|b|] == b;
  }

  /** Under one name, equal lines show the same severity and the same count. */
  lemma SameLineIff(g: Group, h: Group, n: nat, m: nat)
    requires g.name == h.name
    ensures Line(g, n) == Line(h, m) <==> Shown(g.severityName) == Shown(h.severityName) && n == m
  {
    LineParts(g, n);
    LineParts(h, m);
    if Line(g, n) == Line(h, m) {
      var end := DOT + g.name + " ";
      LastMark(Shown(g.severityName) + end, Itoa(n) + "\n", Shown(h.severityName) + end, Itoa(m) + "\n", TIMES);
      SameEnds(Shown(g.severityName), Shown(h.severityName), end);
      SameEnds(Itoa(n), Itoa(m), "\n");
      ItoaReadsBack(n);
      ItoaReadsBack(m);
    }
  }

  /** The two events show alike: the same severity, "" reading as "Unclassified", and as many
      events in their groups. */
  predicate ShowAlike(e: Event, f: Event, events: seq<Event>) {
    && Shown(e.severityName) == Shown(f.severityName)
    && CountOf(events, GroupOf(e)) == CountOf(events, GroupOf(f))
  }

  ghost predicate TiesShowAlike(events: seq<Event>) {
    forall e, f :: e in events && f in events && Tied(GroupOf(e), GroupOf(f)) ==> ShowAlike(e, f, events)
  }

  lemma TiedLinesIff(e: Event, f: Event, events: seq<Event>)
    requires e in events && f in events && Tied(GroupOf(e), GroupOf(f))
    requires Unbroken(e.severityName) && Unbroken(e.name) && Unbroken(f.severityName)
    ensures Commute(LineOf(GroupOf(e), events), LineOf(GroupOf(f), events)) <==> ShowAlike(e, f, events)
  {
    var g, h := GroupOf(e), GroupOf(f);
    LineIsLine(g, CountOf(events, g));
    LineIsLine(h, CountOf(events, h));
    SingleLinesCommuteIff(LineOf(g, events), LineOf(h, events));
    SameLineIff(g, h, CountOf(events, g), CountOf(events, h));
  }

  lemma InterchangeableIff(groups: seq<Group>, events: seq<Event>)
    requires Grouping(groups, events)
    requires forall e :: e in events ==> Unbroken(e.severityName) && Unbroken(e.name)
    ensures Interchangeable(groups, events) <==> TiesShowAlike(events)
  {
    forall e, f | e in events && f in events && Tied(GroupOf(e), GroupOf(f))
      ensures GroupOf(e) in groups && GroupOf(f) in groups
      ensures Commute(LineOf(GroupOf(e), events), LineOf(GroupOf(f), events)) <==> ShowAlike(e, f, events)
    {
      TiedLinesIff(e, f, events);
    }
    if TiesShowAlike(events) {
      forall g, h | g in groups && h in groups && Tied(g, h)
        ensures Commute(LineOf(g, events), LineOf(h, events))
      {
        var e :| e in events && GroupOf(e) == g;
        var f :| f in events && GroupOf(f) == h;
      }
    }
  }

  /** With no line break in any name, the events settle the digest's text if and only if any
      two of equal rank and name show the same severity and are equally many. */
  lemma SettledByEventsIff(groups: seq<Group>, events: seq<Event>)
    requires Grouping(groups, events)
    requires forall e :: e in events ==> Unbroken(e.severityName) && Unbroken(e.name)
    ensures (forall other :: Grouping(other, events) ==> BodyOf(other, events) == BodyOf(groups, events)) <==>
      TiesShowAlike(events)
  {
    DigestTextSettledIff(groups, events);
    InterchangeableIff(groups, events);
  }
}
