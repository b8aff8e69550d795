/** What editing a rule list can and cannot change. */
module RuleEdits {
  import opened Options
  import opened Rules
  import Sequences

  lemma {:induction false} HitsAppend(m: Matchers, data: DataSource, ev: Event, a: seq<Rule>, b: seq<Rule>)
    ensures Hits(m, data, ev, a + b) == Hits(m, data, ev, a) + Hits(m, data, ev, b)
  {
    if a == [] {
      assert a + b == b;
    } else {
      assert (a + b)[1..] == a[1..] + b;
      HitsAppend(m, data, ev, a[1..], b);
    }
  }

  ghost predicate Stops(hits: seq<Rule>) {
    exists r :: r in hits && !r.continueOnMatch
  }

  lemma CutFirst(first: Rule, rest: seq<Rule>)
    ensures Cut([first] + rest) == if first.continueOnMatch then [first] + Cut(rest) else [first]
    ensures Stops([first] + rest) <==> !first.continueOnMatch || Stops(rest)
  {
    var all := [first] + rest;
    assert all[1..] == rest && all[0] == first;
    assert forall r :: r in all <==> r == first || r in rest;
  }

  lemma {:induction false} CutAppend(a: seq<Rule>, b: seq<Rule>)
    ensures Cut(a + b) == if Stops(a) then Cut(a) else a + Cut(b)
  {
    if a == [] {
      Sequences.Empty(b);
      Sequences.Empty(Cut(b));
    } else {
      CutAppend(a[1..], b);
      CutFirst(a[0], a[1..]);
      CutFirst(a[0], a[1..] + b);
      Sequences.SplitFirst(a, b);
      Sequences.SplitFirst(a, Cut(b));
    }
  }

  /** The rules that contribute are the hits up to the first that does not continue. */
  lemma {:induction false} CutIsFirstStop(hits: seq<Rule>, cut: seq<Rule>)
    requires cut == Cut(hits)
    ensures |cut| <= |hits| && cut == hits[..|cut|]
    ensures forall i :: 0 <= i < |cut| - 1 ==> hits[i].continueOnMatch
    ensures |cut| < |hits| ==> |cut| > 0 && !hits[|cut| - 1].continueOnMatch
  {
    if hits != [] && hits[0].continueOnMatch {
      CutIsFirstStop(hits[1..], Cut(hits[1..]));
    }
  }

  lemma {:induction false} HitsMembers(m: Matchers, data: DataSource, ev: Event, rules: seq<Rule>)
    ensures forall r :: r in Hits(m, data, ev, rules) <==> r in rules && Satisfies(m, data, ev, r)
  {
    if rules != [] {
      HitsMembers(m, data, ev, rules[1..]);
      assert rules == [rules[0]] + rules[1..];
    }
  }

  /** Nothing after a rule that stops is ever read. */
  lemma AfterTheStopIsIrrelevant(m: Matchers, data: DataSource, ev: Event,
                                 before: seq<Rule>, stop: Rule, after: seq<Rule>)
    requires Satisfies(m, data, ev, stop) && !stop.continueOnMatch
    ensures Decide(m, data, ev, before + [stop] + after) == Decide(m, data, ev, before + [stop])
  {
    var upTo := before + [stop];
    HitsAppend(m, data, ev, upTo, after);
    HitsMembers(m, data, ev, upTo);
    CutAppend(Hits(m, data, ev, upTo), Hits(m, data, ev, after));
    assert stop in Hits(m, data, ev, upTo);
  }

  /** Inserting or removing a disabled or non-matching rule, anywhere, changes nothing. */
  lemma MissesAreIrrelevant(m: Matchers, data: DataSource, ev: Event,
                            before: seq<Rule>, miss: Rule, after: seq<Rule>)
    requires !Satisfies(m, data, ev, miss)
    ensures Decide(m, data, ev, before + [miss] + after) == Decide(m, data, ev, before + after)
  {
    HitsAppend(m, data, ev, before + [miss], after);
    HitsAppend(m, data, ev, before, [miss]);
    HitsAppend(m, data, ev, before, after);
    assert Hits(m, data, ev, [miss]) == [];
    assert Hits(m, data, ev, before + [miss]) == Hits(m, data, ev, before);
  }

  /** Letting a rule continue can only add channels and the bypass flag; the severity and
      the matched rule stay. */
  lemma ContinuingOnlyAdds(m: Matchers, data: DataSource, ev: Event,
                           before: seq<Rule>, r: Rule, after: seq<Rule>)
    ensures
      var was := Decide(m, data, ev, before + [r] + after);
      var now := Decide(m, data, ev, before + [r.(continueOnMatch := true)] + after);
      && now.severityId == was.severityId
      && now.matchedRuleId == was.matchedRuleId
      && (was.bypassFloodControl ==> now.bypassFloodControl)
      && was.channels <= now.channels
  {
    var r' := r.(continueOnMatch := true);
    var a, b := Hits(m, data, ev, before), Hits(m, data, ev, after);
    SplitHits(m, data, ev, before, r, after);
    SplitHits(m, data, ev, before, r', after);
    if Satisfies(m, data, ev, r) {
      CutAppend(a, [r] + b);
      CutAppend(a, [r'] + b);
      if !Stops(a) {
        CutFirst(r, b);
        CutFirst(r', b);
        Continued(data, ev, a + Cut([r] + b), |a|, a + Cut([r'] + b));
      }
    }
  }

  lemma HitsOfOne(m: Matchers, data: DataSource, ev: Event, r: Rule)
    ensures Hits(m, data, ev, [r]) == if Satisfies(m, data, ev, r) then [r] else []
  {
    assert [r][1..] == [];
  }

  lemma SplitHits(m: Matchers, data: DataSource, ev: Event, before: seq<Rule>, r: Rule, after: seq<Rule>)
    ensures Hits(m, data, ev, before + [r] + after) ==
      Hits(m, data, ev, before) + ((if Satisfies(m, data, ev, r) then [r] else []) + Hits(m, data, ev, after))
  {
    assert before + [r] + after == before + ([r] + after);
    HitsAppend(m, data, ev, before, [r] + after);
    HitsAppend(m, data, ev, [r], after);
    HitsOfOne(m, data, ev, r);
  }

  /** More contributing rules after the same ones, one of them now continuing. */
  lemma Continued(data: DataSource, ev: Event, was: seq<Rule>, at: nat, now: seq<Rule>)
    requires at < |was| <= |now|
    requires forall i :: 0 <= i < |was| ==>
      now[i] == if i == at then was[i].(continueOnMatch := true) else was[i]
    ensures Meaning(data, ev, now).severityId == Meaning(data, ev, was).severityId
    ensures Meaning(data, ev, now).matchedRuleId == Meaning(data, ev, was).matchedRuleId
    ensures Meaning(data, ev, was).bypassFloodControl ==> Meaning(data, ev, now).bypassFloodControl
    ensures Meaning(data, ev, was).channels <= Meaning(data, ev, now).channels
  {
    var severity := SeverityOf(ev, was);
    forall r | r in was
      ensures exists r' :: (r' in now && r'.bypassFloodControl == r.bypassFloodControl
                            && ResolveChannels(data, r', severity) == ResolveChannels(data, r, severity))
    {
      var i :| 0 <= i < |was| && was[i] == r;
      assert now[i] in now;
    }
  }

  /** Rules that all continue may be put in any order, once a rule before them has matched. */
  lemma ContinuingRulesCommute(m: Matchers, data: DataSource, ev: Event,
                               before: seq<Rule>, mid: seq<Rule>, mid': seq<Rule>, after: seq<Rule>)
    requires exists r :: r in before && Satisfies(m, data, ev, r)
    requires forall r :: r in mid <==> r in mid'
    requires forall r :: r in mid ==> r.continueOnMatch
    ensures Decide(m, data, ev, before + mid + after) == Decide(m, data, ev, before + mid' + after)
  {
    var a, b := Hits(m, data, ev, before), Hits(m, data, ev, after);
    var c, c' := Hits(m, data, ev, mid), Hits(m, data, ev, mid');
    HitsMembers(m, data, ev, before);
    HitsMembers(m, data, ev, mid);
    HitsMembers(m, data, ev, mid');
    assert a != [] by {
      var r :| r in before && Satisfies(m, data, ev, r);
      assert r in a;
    }
    ThreeParts(m, data, ev, before, mid, after);
    ThreeParts(m, data, ev, before, mid', after);
    if !Stops(a) {
      SameMembersSameMeaning(data, ev, a + (c + Cut(b)), a + (c' + Cut(b)));
    }
  }

  lemma ThreeParts(m: Matchers, data: DataSource, ev: Event, before: seq<Rule>, mid: seq<Rule>, after: seq<Rule>)
    requires forall r :: r in mid ==> r.continueOnMatch
    ensures var a := Hits(m, data, ev, before);
      Cut(Hits(m, data, ev, before + mid + after)) ==
        if Stops(a) then Cut(a) else a + (Hits(m, data, ev, mid) + Cut(Hits(m, data, ev, after)))
  {
    var a, b, c := Hits(m, data, ev, before), Hits(m, data, ev, after), Hits(m, data, ev, mid);
    assert before + mid + after == before + (mid + after);
    HitsAppend(m, data, ev, before, mid + after);
    HitsAppend(m, data, ev, mid, after);
    HitsMembers(m, data, ev, mid);
    CutAppend(a, c + b);
    CutAppend(c, b);
  }

  lemma SameMembersSameMeaning(data: DataSource, ev: Event, a: seq<Rule>, b: seq<Rule>)
    requires a != [] && b != [] && a[0] == b[0]
    requires forall r :: r in a <==> r in b
    ensures Meaning(data, ev, a) == Meaning(data, ev, b)
  {
    assert Meaning(data, ev, a).channels == Meaning(data, ev, b).channels;
  }
}
