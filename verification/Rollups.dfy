/** The text and the destinations of the controller's rollups. */
module Rollups {
  import opened Flood
  import opened Text
  import Sorting

  datatype Rollup = Rollup(title: string, body: string, channelIds: seq<int>, count: nat)

  // ---- unionChannels ----

  /** Every channel some event names. */
  ghost function Channels(events: seq<Event>): set<int> {
    set e, ch | e in events && ch in e.channelIds :: ch
  }

  ghost predicate StrictlyIncreasing(s: seq<int>) {
    forall i, j :: 0 <= i < j < |s| ==> s[i] < s[j]
  }

  /** The union in increasing order, each channel once. */
  ghost predicate IsUnion(ids: seq<int>, events: seq<Event>) {
    StrictlyIncreasing(ids) && forall ch :: ch in ids <==> ch in Channels(events)
  }

  method UnionChannels(events: seq<Event>) returns (ids: seq<int>)
    ensures IsUnion(ids, events)
  {
    var chans: set<int> := {};
    for i := 0 to |events|
      invariant forall ch :: ch in chans <==> ch in Channels(events[..i])
    {
      var before, chs := chans, events[i].channelIds;
      for j := 0 to |chs|
        invariant forall ch :: ch in chans <==> ch in before || ch in chs[..j]
      {
        chans := chans + {chs[j]};
        assert chs[..j + 1] == chs[..j] + [chs[j]];
      }
      assert chs[..|chs|] == chs;
      ChannelsOfMore(events[..i], events[i]);
      assert events[..i + 1] == events[..i] + [events[i]];
    }
    assert events[..|events|] == events;
    var unordered := Sorting.Range(chans);
    ids := Sorting.Sort(unordered, (a, b) => a < b);
    Sorting.RearrangedDistinct(unordered, ids);
    assert forall i, j :: 0 <= i < j < |ids| ==> !(ids[j] < ids[i]);
  }

  lemma ChannelsOfMore(events: seq<Event>, e: Event)
    ensures forall ch :: ch in Channels(events + [e]) <==> ch in Channels(events) || ch in e.channelIds
  {
    assert forall x :: x in events + [e] <==> x in events || x == e;
  }

  /** A union is determined by the channels alone ... */
  lemma {:induction false} UnionUnique(a: seq<int>, b: seq<int>)
    requires StrictlyIncreasing(a) && StrictlyIncreasing(b)
    requires forall ch :: ch in a <==> ch in b
    ensures a == b
  {
    Sorting.SameEmptiness(a, b);
    if a != [] {
      assert a[0] in a && b[0] in b;
      var a', b' := a[1..], b[1..];
      assert a == [a[0]] + a' && b == [b[0]] + b';
      assert a[0] == b[0];
      Sorting.SameTails(a, b);
      UnionUnique(a', b');
    }
  }

  /** ... so reordering or repeating the events changes nothing. */
  lemma UnionIgnoresOrderAndRepeats(events: seq<Event>, events': seq<Event>, ids: seq<int>, ids': seq<int>)
    requires forall e :: e in events <==> e in events'
    requires IsUnion(ids, events) && IsUnion(ids', events')
    ensures ids == ids'
  {
    assert Channels(events) == Channels(events');
    UnionUnique(ids, ids');
  }

  // ---- summaryRollup ----

  ghost predicate IsSummary(r: Rollup, held: seq<Event>) {
    && held != []
    && r.title == "Rate limit summary"
    && r.body == "+" + Itoa(|held|) + " more " + held[0].name + " suppressed during the rate-limit window"
    && IsUnion(r.channelIds, held)
    && r.count == |held|
  }

  method SummaryRollup(held: seq<Event>) returns (r: Rollup)
    requires held != []
    ensures IsSummary(r, held)
  {
    var ids := UnionChannels(held);
    r := Rollup("Rate limit summary",
                "+" + Itoa(|held|) + " more " + held[0].name + " suppressed during the rate-limit window",
                ids, |held|);
  }

  // ---- digestRollup ----

  datatype Group = Group(severityName: string, severityRank: int, name: string)

  function GroupOf(e: Event): Group {
    Group(e.severityName, e.severityRank, e.name)
  }

  predicate GroupLess(g: Group, h: Group) {
    if g.severityRank != h.severityRank then g.severityRank < h.severityRank else Less(g.name, h.name)
  }

  function CountOf(events: seq<Event>, g: Group): nat {
    if events == [] then 0
    else CountOf(events[..|events| - 1], g) + if GroupOf(events[|events| - 1]) == g then 1 else 0
  }

  /** The groups of the events, each once, by rank and then by name. */
  ghost predicate Grouping(groups: seq<Group>, events: seq<Event>) {
    && (forall g :: g in groups <==> exists e :: e in events && GroupOf(e) == g)
    && Sorting.Distinct(groups)
    && Sorting.Sorted(GroupLess, groups)
  }

  function Shown(severityName: string): string {
    if severityName == "" then "Unclassified" else severityName
  }

  function Line(g: Group, n: nat): string {
    Shown(g.severityName) + " \U{00B7} " + g.name + " \U{00D7}" + Itoa(n) + "\n"
  }

  function Lines(groups: seq<Group>, events: seq<Event>): string {
    if groups == [] then ""
    else
      var g := groups[|groups| - 1];
      Lines(groups[..|groups| - 1], events) + Line(g, CountOf(events, g))
  }

  /** strings.TrimRight(s, "\n") */
  function TrimNewlines(s: string): string {
    if s != [] && s[|s| - 1] == '\n' then TrimNewlines(s[..|s| - 1]) else s
  }

  ghost predicate IsDigest(r: Rollup, events: seq<Event>) {
    && r.title == "Digest: " + Itoa(|events|) + " events"
    && (exists groups :: Grouping(groups, events) && r.body == TrimNewlines(Lines(groups, events)))
    && IsUnion(r.channelIds, events)
    && r.count == |events|
  }

  lemma GroupLessWeakOrder()
    ensures Sorting.StrictWeakOrder(GroupLess)
  {
    forall g, h, k: Group
      ensures !GroupLess(g, g)
      ensures GroupLess(g, h) && GroupLess(h, k) ==> GroupLess(g, k)
      ensures GroupLess(g, k) ==> GroupLess(g, h) || GroupLess(h, k)
    {
      LessTotal(g.name, g.name);
      LessTransitive(g.name, h.name, k.name);
      LessTransitive(h.name, g.name, k.name);
      LessTotal(g.name, h.name);
      LessTotal(h.name, k.name);
    }
  }

  method CountGroups(events: seq<Event>) returns (counts: map<Group, nat>)
    ensures forall g :: g in counts <==> exists e :: e in events && GroupOf(e) == g
    ensures forall g :: g in counts ==> counts[g] == CountOf(events, g)
  {
    counts := map[];
    for i := 0 to |events|
      invariant forall g :: g in counts <==> CountOf(events[..i], g) > 0
      invariant forall g :: g in counts ==> counts[g] == CountOf(events[..i], g)
    {
      var g := GroupOf(events[i]);
      assert events[..i + 1][..i] == events[..i];
      counts := counts[g := (if g in counts then counts[g] else 0) + 1];
    }
    assert events[..|events|] == events;
    forall g ensures CountOf(events, g) > 0 <==> exists e :: e in events && GroupOf(e) == g {
      CountPositive(events, g);
    }
  }

  lemma {:induction false} CountPositive(events: seq<Event>, g: Group)
    ensures CountOf(events, g) > 0 <==> exists e :: e in events && GroupOf(e) == g
  {
    if events != [] {
      var rest, last := events[..|events| - 1], events[|events| - 1];
      CountPositive(rest, g);
      assert events == rest + [last];
      if GroupOf(last) == g {
        assert last in events;
      }
    }
  }

  method SortedGroups(events: seq<Event>, counts: map<Group, nat>) returns (groups: seq<Group>)
    requires forall g :: g in counts <==> exists e :: e in events && GroupOf(e) == g
    ensures Grouping(groups, events)
    ensures forall g :: g in groups <==> g in counts
  {
    var unordered := Sorting.Range(counts.Keys);
    GroupLessWeakOrder();
    groups := Sorting.Sort(unordered, GroupLess);
    Sorting.RearrangedDistinct(unordered, groups);
  }

  method WriteLines(groups: seq<Group>, ghost events: seq<Event>, counts: map<Group, nat>) returns (text: string)
    requires forall g :: g in groups ==> g in counts && counts[g] == CountOf(events, g)
    ensures text == Lines(groups, events)
  {
    text := "";
    for i := 0 to |groups|
      invariant text == Lines(groups[..i], events)
    {
      assert groups[i] in groups;
      assert groups[..i + 1][..i] == groups[..i];
      text := text + Line(groups[i], counts[groups[i]]);
    }
    assert groups[..|groups|] == groups;
  }

  method DigestRollup(events: seq<Event>) returns (r: Rollup)
    ensures IsDigest(r, events)
  {
    var counts := CountGroups(events);
    var groups := SortedGroups(events, counts);
    var text := WriteLines(groups, events, counts);
    var ids := UnionChannels(events);
    r := Rollup("Digest: " + Itoa(|events|) + " events", TrimNewlines(text), ids, |events|);
  }

  function Total(groups: seq<Group>, events: seq<Event>): nat {
    if groups == [] then 0
    else Total(groups[..|groups| - 1], events) + CountOf(events, groups[|groups| - 1])
  }

  lemma {:induction false} TotalOfMore(groups: seq<Group>, events: seq<Event>, e: Event)
    requires Sorting.Distinct(groups)
    ensures Total(groups, events + [e]) == Total(groups, events) + if GroupOf(e) in groups then 1 else 0
  {
    if groups != [] {
      var rest, g := groups[..|groups| - 1], groups[|groups| - 1];
      TotalOfMore(rest, events, e);
      assert (events + [e])[..|events|] == events;
      assert groups == rest + [g];
    }
  }

  /** The digest's per-group counts add up to its Count. */
  lemma {:induction false} CountsAddUp(groups: seq<Group>, events: seq<Event>)
    requires Sorting.Distinct(groups)
    requires forall e :: e in events ==> GroupOf(e) in groups
    ensures Total(groups, events) == |events|
  {
    if events == [] {
      NothingToCount(groups);
    } else {
      var rest, e := events[..|events| - 1], events[|events| - 1];
      assert events == rest + [e];
      CountsAddUp(groups, rest);
      TotalOfMore(groups, rest, e);
    }
  }

  lemma {:induction false} NothingToCount(groups: seq<Group>)
    ensures Total(groups, []) == 0
  {
    if groups != [] {
      NothingToCount(groups[..|groups| - 1]);
    }
  }

  /** No two groups of the events differ in severity name alone. */
  ghost predicate TieFree(events: seq<Event>) {
    forall e, f :: e in events && f in events && e.severityRank == f.severityRank && e.name == f.name
      ==> e.severityName == f.severityName
  }

  /** The order of the groups is settled by the events exactly when no two groups tie: the
      comparison looks at rank and name only. */
  lemma GroupingSettledIffTieFree(groups: seq<Group>, events: seq<Event>)
    requires Grouping(groups, events)
    ensures TieFree(events) <==> forall other :: Grouping(other, events) ==> other == groups
  {
    if TieFree(events) {
      forall other | Grouping(other, events) ensures other == groups {
        assert TieFreeGroups(groups) by {
          assert forall g :: g in groups ==> exists e :: e in events && GroupOf(e) == g;
        }
        GroupingUnique(groups, other);
      }
    } else {
      var e, f :| e in events && f in events && e.severityRank == f.severityRank && e.name == f.name
        && e.severityName != f.severityName;
      assert GroupOf(e) in groups && GroupOf(f) in groups;
      var i :| 0 <= i < |groups| && groups[i] == GroupOf(e);
      var j :| 0 <= j < |groups| && groups[j] == GroupOf(f);
      var other := groups[i := groups[j]][j := groups[i]];
      SwapTied(groups, events, i, j);
      assert Grouping(other, events) && other != groups;
    }
  }

  ghost predicate TieFreeGroups(groups: seq<Group>) {
    forall g, h :: g in groups && h in groups && g.severityRank == h.severityRank && g.name == h.name ==> g == h
  }

  /** The first group of a sorted list is the least of its groups. */
  lemma SameLeast(a: seq<Group>, b: seq<Group>)
    requires a != [] && b != []
    requires Sorting.Sorted(GroupLess, a) && Sorting.Sorted(GroupLess, b)
    requires TieFreeGroups(a) && forall g :: g in a <==> g in b
    ensures a[0] == b[0]
  {
    assert a[0] in a && b[0] in b;
    assert a[0] in b && b[0] in a;
    LessTotal(a[0].name, b[0].name);
  }

  lemma {:induction false} GroupingUnique(a: seq<Group>, b: seq<Group>)
    requires Sorting.Distinct(a) && Sorting.Distinct(b)
    requires Sorting.Sorted(GroupLess, a) && Sorting.Sorted(GroupLess, b)
    requires TieFreeGroups(a) && forall g :: g in a <==> g in b
    ensures a == b
  {
    Sorting.SameEmptiness(a, b);
    if a != [] {
      SameLeast(a, b);
      Sorting.SameTails(a, b);
      GroupingUnique(a[1..], b[1..]);
      assert a == [a[0]] + a[1..] && b == [b[0]] + b[1..];
    }
  }

  lemma SwapTied(groups: seq<Group>, events: seq<Event>, i: nat, j: nat)
    requires Grouping(groups, events) && i < |groups| && j < |groups|
    requires groups[i].severityRank == groups[j].severityRank && groups[i].name == groups[j].name
    ensures Grouping(groups[i := groups[j]][j := groups[i]], events)
  {
    var other := groups[i := groups[j]][j := groups[i]];
    forall g ensures g in other <==> g in groups {
      if g in groups {
        var p :| 0 <= p < |groups| && groups[p] == g;
        assert other[if p == i then j else if p == j then i else p] == g;
      }
    }
    forall p, q | 0 <= p < q < |other| ensures !GroupLess(other[q], other[p]) {
      LessTotal(groups[i].name, groups[i].name);
      assert GroupLess(other[q], other[p]) <==> GroupLess(groups[q], groups[p]);
    }
  }
}
