/** The rules of a classifier as a multiset: which of them match a flow in a version, and what keeps two
    rules with the same match and priority apart. */
module RuleSets {
  import opened Bits
  import opened Flows
  import opened Subtables
  import opened SubtableUpdate
  import opened Wrappers

  /** The rule is visible and matches `f`. */
  predicate Matches(e: Entry, f: Bits, version: nat) {
    |e.mask| == |f| && And(f, e.mask) == e.flow && e.rule.VisibleIn(version)
  }

  /** The rule has not been given a version to go in. */
  predicate Stays(e: Entry) {
    e.rule.removeVersion == VERSION_NOT_REMOVED
  }

  predicate SameKey(a: Entry, b: Entry) {
    a.mask == b.mask && a.flow == b.flow && a.rule.priority == b.rule.priority
  }

  /** Of the rules that have not been given a version to go in, no two have the same match and priority. */
  ghost predicate OnePerMatch(rules: multiset<Entry>) {
    && (forall a :: a in rules ==> a.rule.removeVersion <= VERSION_NOT_REMOVED)
    && (forall a, b :: a in rules && b in rules && SameKey(a, b) && Stays(a) && Stays(b) ==> a == b)
    && (forall a :: a in rules && Stays(a) ==> rules[a] == 1)
  }

  /** There is no version in which two rules with the same match and priority are visible. */
  ghost predicate OneAtATime(rules: multiset<Entry>) {
    && (forall a, b :: a in rules && b in rules && SameKey(a, b) && a != b ==>
          a.rule.removeVersion <= b.rule.addVersion || b.rule.removeVersion <= a.rule.addVersion)
    && (forall a :: a in rules ==> rules[a] == 1 || a.rule.removeVersion <= a.rule.addVersion)
  }

  /** No rule has been given a version to go in. */
  ghost predicate AllStay(rules: multiset<Entry>) {
    forall a :: a in rules ==> Stays(a)
  }

  lemma AllStayApart(rules: multiset<Entry>)
    requires OnePerMatch(rules) && AllStay(rules)
    ensures OneAtATime(rules)
  {
  }

  // ----- a rule is added, or takes the place of another

  /** The rules after `m` has been added, or has taken the place of another. */
  ghost predicate Merged(rules: multiset<Entry>, rules': multiset<Entry>, mask: Bits, flow: Bits, m: Match,
                         displaced: Option<Match>) {
    match displaced
    case None => rules' == rules + multiset{Entry(mask, flow, m)}
    case Some(d) =>
      Entry(mask, flow, d) in rules && rules' + multiset{Entry(mask, flow, d)} == rules + multiset{Entry(mask, flow, m)}
  }

  /** `d` is a rule with that match and priority, and has not been given a version to go in. */
  predicate Equal(rules: multiset<Entry>, mask: Bits, flow: Bits, priority: Priority, d: Match) {
    Entry(mask, flow, d) in rules && d.priority == priority && d.removeVersion == VERSION_NOT_REMOVED
  }

  /** `displaced` is the one rule with that match and priority, if there is one. */
  ghost predicate Displaces(rules: multiset<Entry>, mask: Bits, flow: Bits, priority: Priority, displaced: Option<Match>) {
    forall d :: Equal(rules, mask, flow, priority, d) <==> displaced == Some(d)
  }

  /** What is left of the rules once the displaced one is gone. */
  ghost function Others(rules: multiset<Entry>, mask: Bits, flow: Bits, displaced: Option<Match>): multiset<Entry> {
    if displaced.Some? then rules - multiset{Entry(mask, flow, displaced.value)} else rules
  }

  lemma MergedOthers(rules: multiset<Entry>, rules': multiset<Entry>, mask: Bits, flow: Bits, m: Match,
                     displaced: Option<Match>)
    requires OnePerMatch(rules) && Merged(rules, rules', mask, flow, m, displaced)
    requires Displaces(rules, mask, flow, m.priority, displaced)
    ensures
      var rest := Others(rules, mask, flow, displaced);
      && rules' == rest + multiset{Entry(mask, flow, m)}
      && (forall e :: e in rest ==> e in rules && rest[e] == rules[e])
      && (forall e :: e in rest <==> e in rules && !(displaced.Some? && e == Entry(mask, flow, displaced.value)))
      && (forall e :: e in rest && SameKey(e, Entry(mask, flow, m)) ==> !Stays(e))
  {
    hide OnePerMatch;
    if displaced.Some? {
      assert Equal(rules, mask, flow, m.priority, displaced.value);
      OnlyOnce(rules, Entry(mask, flow, displaced.value));
      Exchanged(rules, rules', Entry(mask, flow, displaced.value), Entry(mask, flow, m));
    }
    NoneLeft(rules, mask, flow, m.priority, displaced);
  }

  lemma OnlyOnce(rules: multiset<Entry>, e: Entry)
    requires OnePerMatch(rules) && e in rules && Stays(e)
    ensures rules[e] == 1
  {
  }

  lemma Exchanged(rules: multiset<Entry>, rules': multiset<Entry>, d: Entry, e: Entry)
    requires d in rules && rules' + multiset{d} == rules + multiset{e}
    ensures rules' == rules - multiset{d} + multiset{e}
  {
    var rest := rules - multiset{d};
    assert rules == rest + multiset{d};
    assert rules' + multiset{d} == rest + multiset{e} + multiset{d};
    assert rules' == (rules' + multiset{d}) - multiset{d};
  }

  lemma NoneLeft(rules: multiset<Entry>, mask: Bits, flow: Bits, priority: Priority, displaced: Option<Match>)
    requires OnePerMatch(rules) && Displaces(rules, mask, flow, priority, displaced)
    ensures forall e ::
      e in Others(rules, mask, flow, displaced) && e.mask == mask && e.flow == flow && e.rule.priority == priority ==>
        !Stays(e)
  {
    forall e | e in rules && e.mask == mask && e.flow == flow && e.rule.priority == priority && Stays(e)
      ensures displaced == Some(e.rule) && rules[e] == 1 && e == Entry(mask, flow, e.rule)
    {
      assert Equal(rules, mask, flow, priority, e.rule);
    }
  }

  lemma MergedOne(rules: multiset<Entry>, rules': multiset<Entry>, mask: Bits, flow: Bits, m: Match,
                  displaced: Option<Match>)
    requires OnePerMatch(rules) && Merged(rules, rules', mask, flow, m, displaced)
    requires Displaces(rules, mask, flow, m.priority, displaced) && m.removeVersion <= VERSION_NOT_REMOVED
    ensures OnePerMatch(rules')
  {
    hide Merged, Displaces, Others;
    MergedOthers(rules, rules', mask, flow, m, displaced);
  }

  /** A rule that comes in a version in which all rules with its match and priority are gone or replaced is never
      visible beside another of them. */
  lemma MergedApart(rules: multiset<Entry>, rules': multiset<Entry>, mask: Bits, flow: Bits, m: Match,
                    displaced: Option<Match>)
    requires OnePerMatch(rules) && OneAtATime(rules) && Merged(rules, rules', mask, flow, m, displaced)
    requires Displaces(rules, mask, flow, m.priority, displaced) && m.removeVersion == VERSION_NOT_REMOVED
    requires forall e :: e in rules && SameKey(e, Entry(mask, flow, m)) && !Stays(e) ==> e.rule.removeVersion <= m.addVersion
    ensures OneAtATime(rules')
  {
    hide Merged, Displaces, Others;
    MergedOthers(rules, rules', mask, flow, m, displaced);
  }

  /** The rules that match, version by version: in those before `version` the new rule changes nothing, and from
      then on it matches what its match says; the rule that it displaces is gone from all. */
  ghost predicate MatchesAfter(rules: multiset<Entry>, rules': multiset<Entry>, mask: Bits, flow: Bits, version: nat,
                               m: Match, displaced: Option<Match>) {
    forall e, f, w: nat :: e in rules' && Matches(e, f, w) <==>
      || (e in rules && Matches(e, f, w) && !(displaced.Some? && e == Entry(mask, flow, displaced.value)))
      || (e == Entry(mask, flow, m) && |f| == |mask| && And(f, mask) == flow && version <= w < VERSION_NOT_REMOVED)
  }

  lemma MergedMatches(rules: multiset<Entry>, rules': multiset<Entry>, mask: Bits, flow: Bits, m: Match,
                      displaced: Option<Match>)
    requires OnePerMatch(rules) && Merged(rules, rules', mask, flow, m, displaced)
    requires Displaces(rules, mask, flow, m.priority, displaced) && m.removeVersion == VERSION_NOT_REMOVED
    ensures MatchesAfter(rules, rules', mask, flow, m.addVersion, m, displaced)
  {
    hide Merged, Displaces, Others, OnePerMatch;
    MergedOthers(rules, rules', mask, flow, m, displaced);
  }

  // ----- a rule leaves

  lemma RemovedKeeps(rules: multiset<Entry>, rules': multiset<Entry>, e: Entry)
    requires rules' + multiset{e} == rules
    ensures OnePerMatch(rules) ==> OnePerMatch(rules')
    ensures OneAtATime(rules) ==> OneAtATime(rules')
    ensures AllStay(rules) ==> AllStay(rules')
  {
    assert forall a :: a in rules' ==> a in rules && rules'[a] <= rules[a];
  }

  // ----- a rule is given a version to go in

  /** The rule `d` is to go in `version`. */
  predicate Hidden(rules: multiset<Entry>, rules': multiset<Entry>, mask: Bits, flow: Bits, d: Match, version: nat) {
    && Entry(mask, flow, d) in rules
    && rules' + multiset{Entry(mask, flow, d)} == rules + multiset{Entry(mask, flow, d.(removeVersion := version))}
  }

  lemma HiddenOthers(rules: multiset<Entry>, rules': multiset<Entry>, mask: Bits, flow: Bits, d: Match, version: nat)
    requires Hidden(rules, rules', mask, flow, d, version)
    ensures
      var e, e' := Entry(mask, flow, d), Entry(mask, flow, d.(removeVersion := version));
      && e' in rules'
      && (forall a :: a in rules' && a != e' ==> a in rules && rules'[a] <= rules[a])
      && (e != e' ==> rules'[e] < rules[e])
  {
    var e, e' := Entry(mask, flow, d), Entry(mask, flow, d.(removeVersion := version));
    forall a ensures rules'[a] + multiset{e}[a] == rules[a] + multiset{e'}[a] {
      assert (rules' + multiset{e})[a] == (rules + multiset{e'})[a];
    }
  }

  lemma HiddenKeeps(rules: multiset<Entry>, rules': multiset<Entry>, mask: Bits, flow: Bits, d: Match, version: nat)
    requires Hidden(rules, rules', mask, flow, d, version) && version < VERSION_NOT_REMOVED
    ensures OnePerMatch(rules) ==> OnePerMatch(rules')
  {
    hide Hidden;
    HiddenOthers(rules, rules', mask, flow, d, version);
  }

  /** A rule that goes sooner stays out of the way of the others. */
  lemma HiddenApart(rules: multiset<Entry>, rules': multiset<Entry>, mask: Bits, flow: Bits, d: Match, version: nat)
    requires Hidden(rules, rules', mask, flow, d, version) && version <= d.removeVersion && OneAtATime(rules)
    ensures OneAtATime(rules')
  {
    var e, e' := Entry(mask, flow, d), Entry(mask, flow, d.(removeVersion := version));
    HiddenOthers(rules, rules', mask, flow, d, version);
    assert (rules' + multiset{e})[e'] == (rules + multiset{e'})[e'];
  }

  /** It matches what it matched before in the versions before that, and nothing from then on. */
  lemma HiddenMatches(rules: multiset<Entry>, rules': multiset<Entry>, mask: Bits, flow: Bits, d: Match, version: nat)
    requires Hidden(rules, rules', mask, flow, d, version)
    ensures
      var e' := Entry(mask, flow, d.(removeVersion := version));
      forall f, w: nat :: Matches(e', f, w) <==>
        |f| == |mask| && And(f, mask) == flow && d.addVersion <= w < version
  {
  }
}
