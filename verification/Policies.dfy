/** Which retention policies are accepted, and what is stored of them (crates/depot-db/src/retention.rs). */
module Policies {
  import opened Wrappers
  import opened Ordering
  import opened Text
  import opened Tables
  import opened Retention

  lemma {:induction false} TrimStartExactly(s: string) returns (front: string)
    ensures AllWhitespace(front) && s == front + TrimStart(s)
    ensures TrimStart(s) != [] ==> !IsWhitespace(TrimStart(s)[0])
  {
    front := [];
    if s != [] && IsWhitespace(s[0]) {
      var rest := TrimStartExactly(s[1..]);
      front := [s[0]] + rest;
    }
  }

  lemma {:induction false} TrimEndExactly(s: string) returns (back: string)
    ensures AllWhitespace(back) && s == TrimEnd(s) + back
    ensures TrimEnd(s) != [] ==> !IsWhitespace(TrimEnd(s)[|TrimEnd(s)| - 1])
  {
    back := [];
    if s != [] && IsWhitespace(s[|s| - 1]) {
      var rest := TrimEndExactly(s[..|s| - 1]);
      back := rest + [s[|s| - 1]];
    }
  }

  /** The text between the white space it begins and ends with. */
  ghost predicate IsTrimmed(s: string, t: string) {
    && (t != [] ==> !IsWhitespace(t[0]) && !IsWhitespace(t[|t| - 1]))
    && exists front, back :: AllWhitespace(front) && AllWhitespace(back) && s == front + t + back
  }

  lemma TrimExactly(s: string)
    ensures IsTrimmed(s, Trim(s)) && (Trim(s) == [] <==> AllWhitespace(s))
  {
    var front := TrimStartExactly(s);
    var back := TrimEndExactly(TrimStart(s));
    var t := Trim(s);
    assert s == front + t + back;
    if t != [] {
      assert TrimStart(s)[0] == t[0];
      assert t[0] in s;
    }
  }

  /** A rule that is refused, whatever comes after it. */
  predicate BadRule(rules: seq<Rule>, i: nat)
    requires i < |rules|
  {
    || rules[i].priority == 0 || AllWhitespace(rules[i].refPattern)
    || (rules[i].ttlSeconds.Some? && rules[i].ttlSeconds.value > 9223372036854775807)
    || exists j :: 0 <= j < i && rules[j].priority == rules[i].priority
  }

  /** The first of these objections to it. */
  predicate Objection(rules: seq<Rule>, i: nat, e: PolicyError)
    requires i < |rules|
  {
    if rules[i].priority == 0 then e == ZeroPriority
    else if AllWhitespace(rules[i].refPattern) then e == EmptyPattern
    else if rules[i].ttlSeconds.Some? && rules[i].ttlSeconds.value > 9223372036854775807 then e == NumberTooLarge
    else e == DuplicatePriority
  }

  /** The first `n` rules as they are stored. */
  function Trimmed(rules: seq<Rule>, n: nat): (r: seq<Rule>)
    requires n <= |rules|
    ensures |r| == n && forall i :: 0 <= i < n ==> r[i] == rules[i].(refPattern := Trim(rules[i].refPattern))
  {
    if n == 0 then [] else Trimmed(rules, n - 1) + [rules[n - 1].(refPattern := Trim(rules[n - 1].refPattern))]
  }

  lemma {:induction false} InsertsGood(rules: seq<Rule>, n: nat)
    requires n <= |rules| && forall i :: 0 <= i < n ==> !BadRule(rules, i)
    ensures InsertRules(rules, []) == InsertRules(rules[n..], Trimmed(rules, n))
  {
    if n > 0 {
      InsertsGood(rules, n - 1);
      assert !BadRule(rules, n - 1);
      TrimExactly(rules[n - 1].refPattern);
      assert rules[n - 1..][0] == rules[n - 1] && rules[n - 1..][1..] == rules[n..];
    } else {
      assert rules[0..] == rules;
    }
  }

  lemma InsertRefuses(rules: seq<Rule>, n: nat)
    requires n < |rules| && (forall i :: 0 <= i < n ==> !BadRule(rules, i)) && BadRule(rules, n)
    ensures InsertRules(rules, []).Err? && Objection(rules, n, InsertRules(rules, []).error)
  {
    InsertsGood(rules, n);
    TrimExactly(rules[n].refPattern);
    if j :| 0 <= j < n && rules[j].priority == rules[n].priority { assert Trimmed(rules, n)[j].priority == rules[n].priority; }
    assert rules[n..][0] == rules[n];
  }

  lemma InsertAccepts(rules: seq<Rule>)
    requires forall i :: 0 <= i < |rules| ==> !BadRule(rules, i)
    ensures InsertRules(rules, []) == Ok(Trimmed(rules, |rules|))
  {
    InsertsGood(rules, |rules|);
  }

  /** What is refused before the rules are looked at. */
  lemma PolicyRefused(db: Db, project: string, keepLatest: nat, graceSeconds: nat, rules: seq<Rule>)
    ensures var r := ReplacePolicy(db, project, keepLatest, graceSeconds, rules);
            && (keepLatest == 0 ==> r == Err(ZeroKeepLatest))
            && (keepLatest > 0 && rules == [] ==> r == Err(NoRules))
            && (keepLatest > 0 && rules != [] && project !in db.projects ==> r == Err(PolicyError.UnknownProject))
            && (keepLatest > 0 && rules != [] && project in db.projects && graceSeconds > 9223372036854775807 ==>
                  r == Err(NumberTooLarge))
  {}

  /** The first bad rule refuses the whole policy. */
  lemma RuleRefused(db: Db, project: string, keepLatest: nat, graceSeconds: nat, rules: seq<Rule>, i: nat)
    requires keepLatest > 0 && project in db.projects && graceSeconds <= 9223372036854775807
    requires i < |rules| && (forall k :: 0 <= k < i ==> !BadRule(rules, k)) && BadRule(rules, i)
    ensures var r := ReplacePolicy(db, project, keepLatest, graceSeconds, rules); r.Err? && Objection(rules, i, r.error)
  {
    InsertRefuses(rules, i);
  }

  lemma ByPriority(rules: seq<Rule>)
    requires forall i, j :: 0 <= i < j < |rules| ==> rules[i].priority != rules[j].priority
    ensures var r := Sort(rules, PriorityLeq);
            multiset(r) == multiset(rules) && forall i, j :: 0 <= i < j < |r| ==> r[i].priority < r[j].priority
  {
    SortElements(rules, PriorityLeq);
    SortByPriority(rules);
    PermutedPriorities(rules, Sort(rules, PriorityLeq));
  }

  predicate PrioritiesRise(s: seq<Rule>) {
    forall i, j :: 0 <= i < j < |s| ==> s[i].priority <= s[j].priority
  }

  predicate AllAtLeast(p: nat, s: seq<Rule>) {
    forall i :: 0 <= i < |s| ==> p <= s[i].priority
  }

  lemma {:induction false} InsertAtLeast(p: nat, x: Rule, s: seq<Rule>)
    requires p <= x.priority && AllAtLeast(p, s)
    ensures AllAtLeast(p, Insert(x, s, PriorityLeq))
  {
    if s != [] && s[0].priority < x.priority { InsertAtLeast(p, x, s[1..]); }
  }

  lemma {:induction false} InsertByPriority(x: Rule, s: seq<Rule>)
    requires PrioritiesRise(s)
    ensures PrioritiesRise(Insert(x, s, PriorityLeq))
  {
    if s != [] && s[0].priority < x.priority {
      InsertByPriority(x, s[1..]);
      InsertAtLeast(s[0].priority, x, s[1..]);
    }
  }

  lemma {:induction false} SortByPriority(s: seq<Rule>)
    ensures PrioritiesRise(Sort(s, PriorityLeq))
  {
    if s != [] {
      SortByPriority(s[1..]);
      InsertByPriority(s[0], Sort(s[1..], PriorityLeq));
    }
  }

  /** Without one it is stored: all rules in the order of their priorities, their patterns trimmed, and nothing else changes. */
  lemma PolicyAccepted(db: Db, project: string, keepLatest: nat, graceSeconds: nat, rules: seq<Rule>)
    requires keepLatest > 0 && rules != [] && project in db.projects && graceSeconds <= 9223372036854775807
    requires forall i :: 0 <= i < |rules| ==> !BadRule(rules, i)
    ensures var r := ReplacePolicy(db, project, keepLatest, graceSeconds, rules);
            && r.Ok? && project in r.value.policies
            && var p := r.value.policies[project];
               && r.value == db.(policies := db.policies[project := p])
               && p.keepLatest == keepLatest && p.graceSeconds == graceSeconds
               && multiset(p.rules) == multiset(Trimmed(rules, |rules|))
               && forall i, j :: 0 <= i < j < |p.rules| ==> p.rules[i].priority < p.rules[j].priority
  {
    DistinctWhenGood(rules);
    InsertAccepts(rules);
    hide Trimmed, InsertRules, Sort, BadRule;
    ByPriority(Trimmed(rules, |rules|));
  }

  lemma DistinctWhenGood(rules: seq<Rule>)
    requires forall i :: 0 <= i < |rules| ==> !BadRule(rules, i)
    ensures forall i, j :: 0 <= i < j < |rules| ==> rules[i].priority != rules[j].priority
  {
    forall i, j | 0 <= i < j < |rules| ensures rules[i].priority != rules[j].priority { assert !BadRule(rules, j); }
  }

  /** A stored pattern is the given one between its white space. */
  lemma TrimmedExactly(rules: seq<Rule>, i: nat)
    requires i < |rules|
    ensures var stored := Trimmed(rules, |rules|)[i];
            stored == rules[i].(refPattern := stored.refPattern) && IsTrimmed(rules[i].refPattern, stored.refPattern)
  {
    TrimExactly(rules[i].refPattern);
  }
}
