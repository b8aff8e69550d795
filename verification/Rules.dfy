/** The classification and routing engine: an ordered first-match loop with continue and
    stop, and what the loop means. */
module Rules {
  import opened Options
  import Sequences
  import Sorting

  datatype Rule = Rule(
    id: int,
    enabled: bool,
    continueOnMatch: bool,
    bypassFloodControl: bool,
    matchDeviceId: Option<int>,
    matchOidGlob: string,
    matchVarbindRegex: Option<string>,
    severityId: Option<int>,
    channelIds: seq<int>)

  datatype Event = Event(sourceIp: string, trapOid: string, message: string, severityId: Option<int>)

  datatype Decision = Decision(
    severityId: Option<int>,
    matchedRuleId: Option<int>,
    channelIds: seq<int>,
    bypassFloodControl: bool,
    matched: bool)

  /** What the store answers. A failed lookup of a device or of default routes reads as none;
      a failed rule listing fails the classification. */
  datatype DataSource = DataSource(
    rules: Option<seq<Rule>>,
    devices: map<string, int>,
    defaultRoutes: map<int, seq<int>>)

  /** path.Match and regexp, pattern first; a malformed pattern matches nothing. */
  datatype Matchers = Matchers(glob: (string, string) -> bool, regex: (string, string) -> bool)

  // ---- One rule ----

  function Device(data: DataSource, ev: Event): Option<int> {
    if ev.sourceIp in data.devices then Some(data.devices[ev.sourceIp]) else None
  }

  predicate GlobMatch(m: Matchers, pattern: string, oid: string) {
    pattern == "" || pattern == "*" || m.glob(pattern, oid)
  }

  predicate RuleMatches(m: Matchers, r: Rule, ev: Event, device: Option<int>) {
    && (r.matchDeviceId.Some? ==> device == r.matchDeviceId)
    && GlobMatch(m, r.matchOidGlob, ev.trapOid)
    && (r.matchVarbindRegex.None? || r.matchVarbindRegex.value == ""
        || m.regex(r.matchVarbindRegex.value, ev.message))
  }

  function DefaultRoutes(data: DataSource, severityId: int): seq<int> {
    if severityId in data.defaultRoutes then data.defaultRoutes[severityId] else []
  }

  function Routes(data: DataSource, severityId: Option<int>): seq<int> {
    if severityId.Some? then DefaultRoutes(data, severityId.value) else []
  }

  /** A rule's explicit channels, or the default routes of the decision's severity. */
  function ResolveChannels(data: DataSource, r: Rule, severityId: Option<int>): seq<int> {
    if r.channelIds != [] then r.channelIds else Routes(data, severityId)
  }

  // ---- What a rule list decides ----

  /** The rule is enabled and matches: its device is any or the one at the source, its glob is
      empty, "*" or accepted, its regex is absent, empty or accepted. */
  ghost predicate Satisfies(m: Matchers, data: DataSource, ev: Event, r: Rule) {
    && r.enabled
    && (r.matchDeviceId == None
        || (ev.sourceIp in data.devices && r.matchDeviceId == Some(data.devices[ev.sourceIp])))
    && (r.matchOidGlob == "" || r.matchOidGlob == "*" || m.glob(r.matchOidGlob, ev.trapOid))
    && (r.matchVarbindRegex == None || r.matchVarbindRegex == Some("")
        || m.regex(r.matchVarbindRegex.value, ev.message))
  }

  /** The test the loop makes is that one. */
  lemma MatchesIff(m: Matchers, data: DataSource, ev: Event, r: Rule)
    ensures r.enabled && RuleMatches(m, r, ev, Device(data, ev)) <==> Satisfies(m, data, ev, r)
  {
  }

  /** The severity's default routes name the channel. */
  ghost predicate RoutedByDefault(data: DataSource, severityId: Option<int>, ch: int) {
    severityId.Some? && severityId.value in data.defaultRoutes && ch in data.defaultRoutes[severityId.value]
  }

  /** The rule sends to the channel: its own channels if it has any, else the default routes. */
  ghost predicate RoutesTo(data: DataSource, r: Rule, severityId: Option<int>, ch: int) {
    if r.channelIds != [] then ch in r.channelIds else RoutedByDefault(data, severityId, ch)
  }

  lemma ResolvesIff(data: DataSource, r: Rule, severityId: Option<int>, ch: int)
    ensures ch in Routes(data, severityId) <==> RoutedByDefault(data, severityId, ch)
    ensures ch in ResolveChannels(data, r, severityId) <==> RoutesTo(data, r, severityId, ch)
  {
  }

  /** The rules that are satisfied, in order. */
  ghost function Hits(m: Matchers, data: DataSource, ev: Event, rules: seq<Rule>): seq<Rule> {
    if rules == [] then []
    else (if Satisfies(m, data, ev, rules[0]) then [rules[0]] else []) + Hits(m, data, ev, rules[1..])
  }

  /** Everything up to and including the first rule that does not continue. */
  function Cut(hits: seq<Rule>): seq<Rule> {
    if hits == [] then []
    else if !hits[0].continueOnMatch then [hits[0]]
    else [hits[0]] + Cut(hits[1..])
  }

  /** What a decision comes to, its channels as a set. */
  datatype Verdict = Verdict(
    severityId: Option<int>,
    matchedRuleId: Option<int>,
    bypassFloodControl: bool,
    channels: set<int>)

  function SeverityOf(ev: Event, contributing: seq<Rule>): Option<int> {
    if contributing != [] && contributing[0].severityId.Some? then contributing[0].severityId else ev.severityId
  }

  /** The meaning of the rules that contribute: the first names the rule and the severity,
      any of them bypasses, and each adds its channels at that one severity. */
  ghost function Meaning(data: DataSource, ev: Event, contributing: seq<Rule>): Verdict {
    var severity := SeverityOf(ev, contributing);
    Verdict(
      severity,
      if contributing == [] then None else Some(contributing[0].id),
      exists r :: r in contributing && r.bypassFloodControl,
      if contributing == [] then set ch | ch in Routes(data, severity)
      else set r, ch | r in contributing && ch in ResolveChannels(data, r, severity) :: ch)
  }

  ghost function Decide(m: Matchers, data: DataSource, ev: Event, rules: seq<Rule>): Verdict {
    Meaning(data, ev, Cut(Hits(m, data, ev, rules)))
  }

  // ---- In the rules' own terms ----

  /** The first rule of the list that is satisfied. */
  ghost predicate First(m: Matchers, data: DataSource, ev: Event, rules: seq<Rule>, i: int) {
    && 0 <= i < |rules| && Satisfies(m, data, ev, rules[i])
    && forall j :: 0 <= j < i ==> !Satisfies(m, data, ev, rules[j])
  }

  /** A satisfied rule that every satisfied rule before it lets be reached. */
  ghost predicate Contributing(m: Matchers, data: DataSource, ev: Event, rules: seq<Rule>, i: int) {
    && 0 <= i < |rules| && Satisfies(m, data, ev, rules[i])
    && forall j :: 0 <= j < i && Satisfies(m, data, ev, rules[j]) ==> rules[j].continueOnMatch
  }

  ghost predicate NoneSatisfied(m: Matchers, data: DataSource, ev: Event, rules: seq<Rule>) {
    forall i :: 0 <= i < |rules| ==> !Satisfies(m, data, ev, rules[i])
  }

  /** What a decision says of the rule list, field by field. */
  ghost predicate Reports(m: Matchers, data: DataSource, ev: Event, rules: seq<Rule>, d: Decision) {
    && (d.matched <==> !NoneSatisfied(m, data, ev, rules))
    && (d.matchedRuleId == None <==> NoneSatisfied(m, data, ev, rules))
    && (forall i :: First(m, data, ev, rules, i) ==>
          && d.matchedRuleId == Some(rules[i].id)
          && d.severityId == if rules[i].severityId != None then rules[i].severityId else ev.severityId)
    && (d.bypassFloodControl <==> exists i :: Contributing(m, data, ev, rules, i) && rules[i].bypassFloodControl)
    && (NoneSatisfied(m, data, ev, rules) ==>
          && d.severityId == ev.severityId
          && forall ch :: ch in d.channelIds <==> RoutedByDefault(data, d.severityId, ch))
    && (!NoneSatisfied(m, data, ev, rules) ==>
          && (exists i :: First(m, data, ev, rules, i))
          && forall ch :: ch in d.channelIds <==>
               exists i :: Contributing(m, data, ev, rules, i) && RoutesTo(data, rules[i], d.severityId, ch))
  }

  ghost predicate AmongContributing(m: Matchers, data: DataSource, ev: Event, rules: seq<Rule>, r: Rule) {
    exists i :: Contributing(m, data, ev, rules, i) && rules[i] == r
  }

  lemma {:induction false} CutMembers(m: Matchers, data: DataSource, ev: Event, rules: seq<Rule>, cut: seq<Rule>)
    requires cut == Cut(Hits(m, data, ev, rules))
    ensures forall r :: r in cut <==> AmongContributing(m, data, ev, rules, r)
  {
    if rules != [] {
      var rest := rules[1..];
      var tail := Cut(Hits(m, data, ev, rest));
      CutMembers(m, data, ev, rest, tail);
      assert rules[0..] == rules;
      NextRule(m, data, ev, rules, 0);
      forall r ensures r in cut <==> AmongContributing(m, data, ev, rules, r) {
        ContributingTail(m, data, ev, rules, r);
      }
    }
  }

  /** The first rule contributes if it is satisfied; another one if the first lets it. */
  lemma ContributingTail(m: Matchers, data: DataSource, ev: Event, rules: seq<Rule>, r: Rule)
    requires rules != []
    ensures AmongContributing(m, data, ev, rules, r) <==>
      || (Satisfies(m, data, ev, rules[0]) && rules[0] == r)
      || ((Satisfies(m, data, ev, rules[0]) ==> rules[0].continueOnMatch)
          && AmongContributing(m, data, ev, rules[1..], r))
  {
    var rest := rules[1..];
    forall i | 0 <= i < |rest|
      ensures Contributing(m, data, ev, rules, i + 1) <==>
        (Satisfies(m, data, ev, rules[0]) ==> rules[0].continueOnMatch) && Contributing(m, data, ev, rest, i)
    {
      ContributingLater(m, data, ev, rules, i);
    }
    if AmongContributing(m, data, ev, rules, r) {
      var i :| Contributing(m, data, ev, rules, i) && rules[i] == r;
      if i > 0 {
        assert Contributing(m, data, ev, rest, i - 1) && rest[i - 1] == r;
      }
    }
    if Satisfies(m, data, ev, rules[0]) && rules[0] == r {
      assert Contributing(m, data, ev, rules, 0);
    }
    if (Satisfies(m, data, ev, rules[0]) ==> rules[0].continueOnMatch) && AmongContributing(m, data, ev, rest, r) {
      var i :| Contributing(m, data, ev, rest, i) && rest[i] == r;
      assert Contributing(m, data, ev, rules, i + 1) && rules[i + 1] == r;
    }
  }

  lemma ContributingLater(m: Matchers, data: DataSource, ev: Event, rules: seq<Rule>, i: nat)
    requires i + 1 < |rules|
    ensures Contributing(m, data, ev, rules, i + 1) <==>
      (Satisfies(m, data, ev, rules[0]) ==> rules[0].continueOnMatch) && Contributing(m, data, ev, rules[1..], i)
  {
    var rest := rules[1..];
    assert forall j :: 0 <= j < i ==> rest[j] == rules[j + 1];
    if (Satisfies(m, data, ev, rules[0]) ==> rules[0].continueOnMatch) && Contributing(m, data, ev, rest, i) {
      forall j | 0 <= j < i + 1 && Satisfies(m, data, ev, rules[j]) ensures rules[j].continueOnMatch {
        if j > 0 {
          assert rest[j - 1] == rules[j];
        }
      }
    }
  }

  lemma {:induction false} CutStartsAtFirst(m: Matchers, data: DataSource, ev: Event, rules: seq<Rule>, cut: seq<Rule>)
    requires cut == Cut(Hits(m, data, ev, rules))
    ensures cut == [] <==> NoneSatisfied(m, data, ev, rules)
    ensures forall i :: First(m, data, ev, rules, i) ==> cut != [] && cut[0] == rules[i]
    ensures cut != [] ==> exists i :: First(m, data, ev, rules, i)
  {
    if rules != [] {
      var rest := rules[1..];
      var tail := Cut(Hits(m, data, ev, rest));
      CutStartsAtFirst(m, data, ev, rest, tail);
      assert rules[0..] == rules;
      NextRule(m, data, ev, rules, 0);
      assert forall i :: 0 <= i < |rest| ==> rest[i] == rules[i + 1];
      if Satisfies(m, data, ev, rules[0]) {
        assert First(m, data, ev, rules, 0);
      } else {
        forall i | First(m, data, ev, rules, i) ensures i > 0 && First(m, data, ev, rest, i - 1) {
          assert forall j :: 0 <= j < i - 1 ==> rest[j] == rules[j + 1];
        }
        if cut != [] {
          var i :| First(m, data, ev, rest, i);
          assert First(m, data, ev, rules, i + 1);
        }
      }
    }
  }

  /** A decision that tells the verdict reports on the rules. */
  lemma TellsReports(m: Matchers, data: DataSource, ev: Event, rules: seq<Rule>, d: Decision)
    requires Tells(d, Decide(m, data, ev, rules))
    ensures Reports(m, data, ev, rules, d)
  {
    var cut := Cut(Hits(m, data, ev, rules));
    CutMembers(m, data, ev, rules, cut);
    CutStartsAtFirst(m, data, ev, rules, cut);
    assert forall i :: Contributing(m, data, ev, rules, i) ==> AmongContributing(m, data, ev, rules, rules[i]);
    assert d.bypassFloodControl <==> exists r :: r in cut && r.bypassFloodControl;
    forall ch ensures ch in d.channelIds <==>
      if cut == [] then RoutedByDefault(data, d.severityId, ch)
      else exists i :: Contributing(m, data, ev, rules, i) && RoutesTo(data, rules[i], d.severityId, ch)
    {
      ChannelReported(m, data, ev, rules, cut, d.severityId, ch);
    }
  }

  lemma ChannelReported(m: Matchers, data: DataSource, ev: Event, rules: seq<Rule>, cut: seq<Rule>,
                        severityId: Option<int>, ch: int)
    requires forall r :: r in cut <==> AmongContributing(m, data, ev, rules, r)
    ensures ch in Routes(data, severityId) <==> RoutedByDefault(data, severityId, ch)
    ensures Contributes(data, cut, severityId, ch) <==>
      exists i :: Contributing(m, data, ev, rules, i) && RoutesTo(data, rules[i], severityId, ch)
  {
    forall r ensures ch in ResolveChannels(data, r, severityId) <==> RoutesTo(data, r, severityId, ch) {
      ResolvesIff(data, r, severityId, ch);
    }
    if i :| Contributing(m, data, ev, rules, i) && RoutesTo(data, rules[i], severityId, ch) {
      assert AmongContributing(m, data, ev, rules, rules[i]);
      assert ch in ResolveChannels(data, rules[i], severityId);
    }
    if Contributes(data, cut, severityId, ch) {
      var r :| r in cut && ch in ResolveChannels(data, r, severityId);
      var i :| Contributing(m, data, ev, rules, i) && rules[i] == r;
      assert RoutesTo(data, rules[i], severityId, ch);
    }
  }

  // ---- The loop ----

  /** The decision reports the verdict, its channels in some order. */
  ghost predicate Tells(d: Decision, verdict: Verdict) {
    && d.severityId == verdict.severityId
    && d.matchedRuleId == verdict.matchedRuleId
    && (d.matched <==> verdict.matchedRuleId.Some?)
    && d.bypassFloodControl == verdict.bypassFloodControl
    && (forall ch :: ch in d.channelIds <==> ch in verdict.channels)
  }

  method Classify(m: Matchers, data: DataSource, ev: Event) returns (d: Option<Decision>)
    ensures d.None? <==> data.rules.None?
    ensures d.Some? ==> Tells(d.value, Decide(m, data, ev, data.rules.value))
    ensures d.Some? ==> Reports(m, data, ev, data.rules.value, d.value)
    ensures d.Some? ==> Sorting.Distinct(d.value.channelIds)
  {
    if data.rules.None? {
      return None;
    }
    var rules := data.rules.value;
    var device := Device(data, ev);
    var acc := Decision(ev.severityId, None, [], false, false);
    var channelSet: set<int> := {};
    ghost var done: seq<Rule> := [];
    ghost var whole := Cut(Hits(m, data, ev, rules));
    assert rules[0..] == rules;
    Sequences.Empty(whole);
    var i := 0;
    while i < |rules|
      invariant 0 <= i <= |rules|
      invariant whole == done + Cut(Hits(m, data, ev, rules[i..]))
      invariant Absorbed(data, ev, done, acc, channelSet)
    {
      var r := rules[i];
      MatchesIff(m, data, ev, r);
      NextRule(m, data, ev, rules, i);
      Sequences.Assoc(done, [r], Cut(Hits(m, data, ev, rules[i + 1..])));
      i := i + 1;
      if !r.enabled || !RuleMatches(m, r, ev, device) {
        continue;
      }
      acc, channelSet := Contribute(data, ev, r, acc, channelSet, done);
      done := done + [r];
      if !r.continueOnMatch {
        break;
      }
    }
    assert rules[|rules|..] == [];
    Sequences.Empty(done);
    assert done == whole;
    acc := Route(data, ev, acc, channelSet, done);
    TellsReports(m, data, ev, rules, acc);
    return Some(acc);
  }

  /** What a matching rule adds: the first sets the severity and the matched-rule marker. */
  method Contribute(data: DataSource, ev: Event, r: Rule, acc: Decision, channels: set<int>, ghost done: seq<Rule>)
    returns (acc': Decision, channels': set<int>)
    requires Absorbed(data, ev, done, acc, channels)
    ensures Absorbed(data, ev, done + [r], acc', channels')
  {
    acc' := acc;
    if !acc.matched {
      acc' := acc'.(matched := true, matchedRuleId := Some(r.id));
      if r.severityId.Some? {
        acc' := acc'.(severityId := r.severityId);
      }
    }
    if r.bypassFloodControl {
      acc' := acc'.(bypassFloodControl := true);
    }
    AbsorbRule(data, ev, done, acc, channels, r, acc');
    channels' := channels + set ch | ch in ResolveChannels(data, r, acc'.severityId);
  }

  /** With no match, the default routes of the decoded severity; then the set as a list. */
  method Route(data: DataSource, ev: Event, acc: Decision, channels: set<int>, ghost done: seq<Rule>)
    returns (d: Decision)
    requires Absorbed(data, ev, done, acc, channels)
    ensures d == acc.(channelIds := d.channelIds) && Sorting.Distinct(d.channelIds)
    ensures Tells(d, Meaning(data, ev, done))
  {
    var channelSet := channels;
    if !acc.matched {
      if acc.severityId.Some? {
        channelSet := set ch | ch in DefaultRoutes(data, acc.severityId.value);
      }
    }
    var ids := Sorting.Range(channelSet);
    d := acc.(channelIds := ids);
  }

  /** The loop's state after the rules in `done` have contributed. */
  ghost predicate Absorbed(data: DataSource, ev: Event, done: seq<Rule>, acc: Decision, channels: set<int>) {
    && acc.severityId == SeverityOf(ev, done)
    && (acc.matched <==> done != [])
    && acc.matchedRuleId == (if done == [] then None else Some(done[0].id))
    && (acc.bypassFloodControl <==> exists r :: r in done && r.bypassFloodControl)
    && (forall ch :: ch in channels <==> Contributes(data, done, acc.severityId, ch))
  }

  lemma AbsorbRule(data: DataSource, ev: Event, done: seq<Rule>, acc: Decision, channels: set<int>,
                   r: Rule, acc': Decision)
    requires Absorbed(data, ev, done, acc, channels)
    requires acc'.matched && acc'.bypassFloodControl == (acc.bypassFloodControl || r.bypassFloodControl)
    requires acc'.matchedRuleId == if acc.matched then acc.matchedRuleId else Some(r.id)
    requires acc'.severityId == if !acc.matched && r.severityId.Some? then r.severityId else acc.severityId
    ensures Absorbed(data, ev, done + [r], acc',
                     channels + set ch | ch in ResolveChannels(data, r, acc'.severityId))
  {
    ContributesMore(data, done, r, acc'.severityId);
    assert forall x :: x in done + [r] <==> x in done || x == r;
  }

  ghost predicate Contributes(data: DataSource, rules: seq<Rule>, severityId: Option<int>, ch: int) {
    exists r :: r in rules && ch in ResolveChannels(data, r, severityId)
  }

  lemma NextRule(m: Matchers, data: DataSource, ev: Event, rules: seq<Rule>, i: nat)
    requires i < |rules|
    ensures Cut(Hits(m, data, ev, rules[i..])) ==
      var rest := Cut(Hits(m, data, ev, rules[i + 1..]));
      if !Satisfies(m, data, ev, rules[i]) then rest
      else if !rules[i].continueOnMatch then [rules[i]]
      else [rules[i]] + rest
  {
    assert rules[i..][1..] == rules[i + 1..];
    var rest := Hits(m, data, ev, rules[i + 1..]);
    Sequences.Empty(rest);
    assert ([rules[i]] + rest)[1..] == rest;
  }

  lemma ContributesMore(data: DataSource, rules: seq<Rule>, r: Rule, severityId: Option<int>)
    ensures forall ch :: Contributes(data, rules + [r], severityId, ch) <==>
      Contributes(data, rules, severityId, ch) || ch in ResolveChannels(data, r, severityId)
  {
    assert forall x :: x in rules + [r] <==> x in rules || x == r;
  }
}
