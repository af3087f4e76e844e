/** Retention policies and the builds they keep (crates/depot-db/src/retention.rs). */
module Retention {
  import opened Wrappers
  import opened Ordering
  import opened Text
  import opened Tables

  const DEFAULT_KEEP_LATEST: nat := 2
  const DEFAULT_GRACE_SECONDS: nat := 24 * 60 * 60
  const DAY: nat := 24 * 60 * 60

  function DefaultRules(): (rules: seq<Rule>) {
    [ Rule(10, "refs/heads/main", None, Some(2)),
      Rule(20, "refs/heads/master", None, Some(2)),
      Rule(30, "refs/heads/trunk", None, Some(2)),
      Rule(40, "refs/tags/*", None, Some(1)),
      Rule(50, "refs/heads/release/*", Some(180 * DAY), Some(2)),
      Rule(60, "refs/pull/*", Some(14 * DAY), Some(1)),
      Rule(70, "refs/merge-requests/*", Some(14 * DAY), Some(1)),
      Rule(80, "refs/heads/*", Some(60 * DAY), Some(2)),
      Rule(90, "*", Some(30 * DAY), Some(1)) ]
  }

  function PolicyOf(db: Db, project: string): (p: Policy) {
    if project in db.policies then db.policies[project]
    else Policy(DEFAULT_KEEP_LATEST, DEFAULT_GRACE_SECONDS, DefaultRules())
  }

  /** `matching_retention_rule`: among the matching rules, the first of the least priority number. */
  function MatchingRule(glob: (string, string) -> bool, rules: seq<Rule>, refName: string): (r: Option<Rule>) {
    if rules == [] then None
    else
      var rest := MatchingRule(glob, rules[1..], refName);
      if !glob(rules[0].refPattern, refName) then rest
      else if rest.Some? && rest.value.priority < rules[0].priority then rest
      else Some(rules[0])
  }

  predicate RefIsActive(updatedAt: int, ttlSeconds: Option<nat>, now: int) {
    ttlSeconds.None? || WholeSeconds(now - updatedAt) < ttlSeconds.value
  }

  /** How many builds of a ref are kept; a ref without a matching active rule keeps none. */
  function KeepCount(cfg: Config, db: Db, key: RefKey, updatedAt: int, now: int): (k: nat) {
    var policy := PolicyOf(db, key.project);
    match MatchingRule(cfg.glob, policy.rules, key.refName)
    case None => 0
    case Some(rule) =>
      if RefIsActive(updatedAt, rule.ttlSeconds, now) then rule.keepBuilds.GetOr(policy.keepLatest) else 0
  }

  /** The columns by which the finalized builds of a ref are listed. */
  datatype Candidate = Candidate(finalizedAt: int, createdAt: int, id: string)

  /** Latest finalized first, then latest created; what the query leaves open is settled by the id. */
  predicate NewestFirst(a: Candidate, b: Candidate) {
    || a.finalizedAt > b.finalizedAt
    || (a.finalizedAt == b.finalizedAt && a.createdAt > b.createdAt)
    || (a.finalizedAt == b.finalizedAt && a.createdAt == b.createdAt && Leq(a.id, b.id))
  }

  lemma NewestFirstIsTotalOrder()
    ensures TotalOrder(NewestFirst)
  {
    LeqIsTotalOrder();
  }

  function Candidates(db: Db, key: RefKey): (s: set<Candidate>) {
    set id | id in db.builds && IsCandidate(db.builds[id], key)
      :: Candidate(db.builds[id].finalizedAt.value, db.builds[id].createdAt, id)
  }

  predicate IsCandidate(b: Build, key: RefKey) {
    b.project == key.project && b.refName == key.refName && b.status == Finalized && b.finalizedAt.Some?
  }

  function Take<T>(s: seq<T>, k: nat): (r: seq<T>) {
    if k < |s| then s[..k] else s
  }

  ghost function TopCandidates(s: set<Candidate>, k: nat): (r: set<Candidate>) {
    NewestFirstIsTotalOrder();
    set c | c in Take(Ascending(s, NewestFirst), k)
  }

  ghost function RetainedOfRef(cfg: Config, db: Db, key: RefKey, now: int): (r: set<string>)
    requires key in db.refs
  {
    set c | c in TopCandidates(Candidates(db, key), KeepCount(cfg, db, key, db.refs[key].updatedAt, now)) :: c.id
  }

  /** `list_retained_build_ids_for_gc`. */
  ghost function RetainedBuilds(cfg: Config, db: Db, now: int): (r: set<string>) {
    set key, id | key in db.refs && id in RetainedOfRef(cfg, db, key, now) :: id
  }

  /** Retention looks at builds, policies and refs only. */
  lemma SameRetention(cfg: Config, a: Db, b: Db, now: int)
    requires a.builds == b.builds && a.policies == b.policies && a.refs == b.refs
    ensures RetainedBuilds(cfg, a, now) == RetainedBuilds(cfg, b, now)
  {
    forall key | key in a.refs ensures RetainedOfRef(cfg, a, key, now) == RetainedOfRef(cfg, b, key, now) {
      assert Candidates(a, key) == Candidates(b, key);
    }
  }

  // ---- Exact top-k ----

  function Preceding(s: set<Candidate>, c: Candidate): (r: set<Candidate>) {
    set d | d in s && d != c && NewestFirst(d, c)
  }

  lemma PrecedesByPosition(s: set<Candidate>, r: seq<Candidate>, i: nat, j: nat)
    requires TotalOrder(NewestFirst) && Sorted(r, NewestFirst) && multiset(r) == multiset(s)
    requires i < |r| && j < |r|
    ensures r[j] != r[i] && NewestFirst(r[j], r[i]) <==> j < i
  {
    if j < i { DistinctElements(r, s, j, i); }
    if i < j { DistinctElements(r, s, i, j); }
  }

  /** In the sorted listing, exactly the elements before a position precede its element. */
  lemma PrecedingIsPrefix(s: set<Candidate>, i: nat)
    requires TotalOrder(NewestFirst) && i < |Ascending(s, NewestFirst)|
    ensures Preceding(s, Ascending(s, NewestFirst)[i]) == FirstElements(Ascending(s, NewestFirst), i)
  {
    var r := Ascending(s, NewestFirst);
    AscendingMembers(s, NewestFirst);
    forall d ensures d in Preceding(s, r[i]) <==> d in FirstElements(r, i) {
      InFirstElements(r, i, d);
      if d in s {
        var j :| 0 <= j < |r| && r[j] == d;
        PrecedesByPosition(s, r, i, j);
        if k :| 0 <= k < i && r[k] == d { PrecedesByPosition(s, r, i, k); }
      }
    }
  }

  /** A candidate is kept exactly when fewer than k others precede it. */
  lemma TopCandidatesExact(s: set<Candidate>, k: nat, c: Candidate)
    ensures c in TopCandidates(s, k) <==> c in s && |Preceding(s, c)| < k
  {
    NewestFirstIsTotalOrder();
    var r := Ascending(s, NewestFirst);
    AscendingMembers(s, NewestFirst);
    InTopCandidates(s, k, c);
    hide Ascending, Preceding, FirstElements, TotalOrder, NewestFirst, TopCandidates;
    if c in s {
      var i :| 0 <= i < |r| && r[i] == c;
      PrecedingIsPrefix(s, i);
      FirstElementsCount(r, s, i);
      PlaceInTake(r, s, k, i);
    } else {
      TakenAreMembers(r, k, c);
    }
  }

  lemma InTopCandidates(s: set<Candidate>, k: nat, c: Candidate)
    requires TotalOrder(NewestFirst)
    ensures c in TopCandidates(s, k) <==> c in Take(Ascending(s, NewestFirst), k)
  {
    hide Ascending;
  }

  lemma PlaceInTake(r: seq<Candidate>, s: set<Candidate>, k: nat, i: nat)
    requires multiset(r) == multiset(s) && i < |r|
    ensures r[i] in Take(r, k) <==> i < k
  {
    if i < k {
      assert Take(r, k)[i] == r[i];
    } else {
      forall j | 0 <= j < |Take(r, k)| ensures Take(r, k)[j] != r[i] {
        DistinctElements(r, s, j, i);
      }
    }
  }

  lemma TakenAreMembers(r: seq<Candidate>, k: nat, c: Candidate)
    ensures c in Take(r, k) ==> c in r
  {}

  ghost predicate Keeps(cfg: Config, db: Db, now: int, id: string) {
    exists key :: key in db.refs && KeptByRef(cfg, db, now, key, id)
  }

  ghost predicate KeptByRef(cfg: Config, db: Db, now: int, key: RefKey, id: string)
    requires key in db.refs
  {
    && id in db.builds && IsCandidate(db.builds[id], key)
    && |Preceding(Candidates(db, key), CandidateOf(db, id))| < KeepCount(cfg, db, key, db.refs[key].updatedAt, now)
  }

  function CandidateOf(db: Db, id: string): (c: Candidate)
    requires id in db.builds && db.builds[id].finalizedAt.Some?
  {
    Candidate(db.builds[id].finalizedAt.value, db.builds[id].createdAt, id)
  }

  lemma RetainedOfRefExact(cfg: Config, db: Db, key: RefKey, now: int, id: string)
    requires key in db.refs
    ensures id in RetainedOfRef(cfg, db, key, now) <==> KeptByRef(cfg, db, now, key, id)
  {
    var k := KeepCount(cfg, db, key, db.refs[key].updatedAt, now);
    var s := Candidates(db, key);
    forall c ensures c in TopCandidates(s, k) <==> c in s && |Preceding(s, c)| < k { TopCandidatesExact(s, k, c); }
    if KeptByRef(cfg, db, now, key, id) {
      assert CandidateOf(db, id) in s;
      assert CandidateOf(db, id).id == id;
    }
  }

  /** The retained builds are, ref by ref, the k most recently finalized ones, k being the ref's keep count. */
  lemma RetainedExactly(cfg: Config, db: Db, now: int, id: string)
    ensures id in RetainedBuilds(cfg, db, now) <==> Keeps(cfg, db, now, id)
  {
    forall key | key in db.refs
      ensures id in RetainedOfRef(cfg, db, key, now) <==> KeptByRef(cfg, db, now, key, id)
    {
      RetainedOfRefExact(cfg, db, key, now, id);
    }
  }

  /** The candidate finalized after all others is kept whenever anything is. */
  lemma NewestIsKept(s: set<Candidate>, k: nat, c: Candidate)
    requires c in s && forall d :: d in s && d != c ==> d.finalizedAt < c.finalizedAt
    ensures c in TopCandidates(s, k) <==> k > 0
  {
    assert Preceding(s, c) == {};
    TopCandidatesExact(s, k, c);
  }

  // ---- Which rule applies ----

  predicate DistinctPriorities(rules: seq<Rule>) {
    forall i, j :: 0 <= i < j < |rules| ==> rules[i].priority != rules[j].priority
  }

  /** The applying rule matches and no matching rule has a lower priority number. */
  lemma {:induction false} MatchingRuleIsLeast(glob: (string, string) -> bool, rules: seq<Rule>, refName: string)
    ensures MatchingRule(glob, rules, refName).None? <==>
              forall i :: 0 <= i < |rules| ==> !glob(rules[i].refPattern, refName)
    ensures MatchingRule(glob, rules, refName).Some? ==>
              var r := MatchingRule(glob, rules, refName).value;
              && r in rules && glob(r.refPattern, refName)
              && forall i :: 0 <= i < |rules| && glob(rules[i].refPattern, refName) ==> r.priority <= rules[i].priority
  {
    if rules != [] {
      MatchingRuleIsLeast(glob, rules[1..], refName);
      assert rules == [rules[0]] + rules[1..];
      assert forall i :: 1 <= i < |rules| ==> rules[i] == rules[1..][i - 1];
    }
  }

  /** With distinct priorities the order in which the rules are listed does not matter. */
  lemma MatchingRuleIgnoresOrder(glob: (string, string) -> bool, a: seq<Rule>, b: seq<Rule>, refName: string)
    requires DistinctPriorities(a) && multiset(a) == multiset(b)
    ensures MatchingRule(glob, a, refName) == MatchingRule(glob, b, refName)
  {
    MatchingRuleIsLeast(glob, a, refName);
    MatchingRuleIsLeast(glob, b, refName);
    hide MatchingRule, DistinctPriorities;
    SameRules(a, b);
    if MatchingRule(glob, a, refName).Some? {
      SamePriority(a, MatchingRule(glob, a, refName).value, MatchingRule(glob, b, refName).value);
    }
  }

  lemma SameRules(a: seq<Rule>, b: seq<Rule>)
    requires multiset(a) == multiset(b)
    ensures forall r :: r in a <==> r in b
  {
    forall r ensures r in a <==> r in b {
      InSeqIffInMultiset(a, r);
      InSeqIffInMultiset(b, r);
    }
  }

  lemma SamePriority(rules: seq<Rule>, a: Rule, b: Rule)
    requires DistinctPriorities(rules) && a in rules && b in rules && a.priority == b.priority
    ensures a == b
  {
    var i :| 0 <= i < |rules| && rules[i] == a;
    var j :| 0 <= j < |rules| && rules[j] == b;
  }

  // ---- Replacing a policy ----

  datatype PolicyError =
    | ZeroKeepLatest | NoRules | UnknownProject | ZeroPriority | EmptyPattern | DuplicatePriority | NumberTooLarge

  function TrimStart(s: string): (r: string)
    ensures |r| <= |s|
  {
    if s != [] && IsWhitespace(s[0]) then TrimStart(s[1..]) else s
  }

  function TrimEnd(s: string): (r: string)
    ensures |r| <= |s|
  {
    if s != [] && IsWhitespace(s[|s| - 1]) then TrimEnd(s[..|s| - 1]) else s
  }

  function Trim(s: string): (r: string) {
    TrimEnd(TrimStart(s))
  }

  /** Inserts the rules one by one; the unique (project, priority) index refuses a repeated priority. */
  function InsertRules(rules: seq<Rule>, done: seq<Rule>): (r: Result<seq<Rule>, PolicyError>) {
    if rules == [] then Ok(done)
    else
      var rule := rules[0];
      if rule.priority == 0 then Err(ZeroPriority)
      else if Trim(rule.refPattern) == [] then Err(EmptyPattern)
      else if rule.ttlSeconds.Some? && rule.ttlSeconds.value > I64_MAX then Err(NumberTooLarge)
      else if exists i :: 0 <= i < |done| && done[i].priority == rule.priority then Err(DuplicatePriority)
      else InsertRules(rules[1..], done + [rule.(refPattern := Trim(rule.refPattern))])
  }

  predicate PriorityLeq(a: Rule, b: Rule) {
    a.priority <= b.priority
  }

  /** `replace_project_retention_policy`: all of the new policy or nothing. */
  function ReplacePolicy(db: Db, project: string, keepLatest: nat, graceSeconds: nat, rules: seq<Rule>)
    : (r: Result<Db, PolicyError>)
  {
    if keepLatest == 0 then Err(ZeroKeepLatest)
    else if rules == [] then Err(NoRules)
    else if project !in db.projects then Err(UnknownProject)
    else if graceSeconds > I64_MAX then Err(NumberTooLarge)
    else
      var stored :- InsertRules(rules, []);
      Ok(db.(policies := db.policies[project := Policy(keepLatest, graceSeconds, Sort(stored, PriorityLeq))]))
  }

  /** `delete_project_retention_policy`. */
  function DeletePolicy(db: Db, project: string): (r: Db) {
    db.(policies := db.policies - {project})
  }

  predicate GoodPolicy(p: Policy) {
    && p.keepLatest > 0 && DistinctPriorities(p.rules)
    && forall i :: 0 <= i < |p.rules| ==> p.rules[i].priority > 0
  }

  lemma {:induction false} InsertedRules(rules: seq<Rule>, done: seq<Rule>)
    requires InsertRules(rules, done).Ok?
    requires DistinctPriorities(done) && forall i :: 0 <= i < |done| ==> done[i].priority > 0
    ensures var r := InsertRules(rules, done).value;
            DistinctPriorities(r) && forall i :: 0 <= i < |r| ==> r[i].priority > 0
  {
    if rules != [] {
      InsertedRules(rules[1..], done + [rules[0].(refPattern := Trim(rules[0].refPattern))]);
    }
  }

  lemma PermutedPriorities(a: seq<Rule>, b: seq<Rule>)
    requires DistinctPriorities(a) && multiset(a) == multiset(b)
    ensures DistinctPriorities(b)
  {
    forall r ensures r in a <==> r in b {
      InSeqIffInMultiset(a, r);
      InSeqIffInMultiset(b, r);
    }
    forall i, j | 0 <= i < j < |b| ensures b[i].priority != b[j].priority {
      if b[i].priority == b[j].priority {
        assert b[i] in a && b[j] in a;
        var x := b[i];
        assert b[j] == x;
        assert b == b[..i] + [x] + b[i + 1..j] + [x] + b[j + 1..];
        assert multiset(b)[x] >= 2;
        AtMostOnce(a, x);
      }
    }
  }

  lemma {:induction false} AtMostOnce(a: seq<Rule>, x: Rule)
    requires DistinctPriorities(a)
    ensures multiset(a)[x] <= 1
  {
    if a != [] {
      assert a == [a[0]] + a[1..];
      AtMostOnce(a[1..], x);
      forall i | 0 <= i < |a[1..]| ensures a[1..][i] != a[0] {
        assert a[1..][i] == a[i + 1];
      }
      InSeqIffInMultiset(a[1..], a[0]);
    }
  }

  /** A policy that was accepted keeps at least one build by default and has distinct positive priorities. */
  lemma ReplacedPolicyIsGood(db: Db, project: string, keepLatest: nat, graceSeconds: nat, rules: seq<Rule>)
    requires ReplacePolicy(db, project, keepLatest, graceSeconds, rules).Ok?
    ensures GoodPolicy(ReplacePolicy(db, project, keepLatest, graceSeconds, rules).value.policies[project])
  {
    var stored := InsertRules(rules, []).value;
    var sorted := Sort(stored, PriorityLeq);
    InsertedRules(rules, []);
    SortElements(stored, PriorityLeq);
    PermutedPriorities(stored, sorted);
    forall i | 0 <= i < |sorted| ensures sorted[i].priority > 0 {
      InSeqIffInMultiset(sorted, sorted[i]);
      InSeqIffInMultiset(stored, sorted[i]);
    }
  }

  // ---- Comparing policies ----

  /** When no ref keeps fewer builds, no build is dropped. */
  lemma RetainedMonotone(cfg: Config, a: Db, b: Db, now: int)
    requires a.builds == b.builds && a.refs == b.refs
    requires forall key :: key in a.refs ==>
               KeepCount(cfg, a, key, a.refs[key].updatedAt, now) <= KeepCount(cfg, b, key, b.refs[key].updatedAt, now)
    ensures RetainedBuilds(cfg, a, now) <= RetainedBuilds(cfg, b, now)
  {
    forall id | id in RetainedBuilds(cfg, a, now) ensures id in RetainedBuilds(cfg, b, now) {
      RetainedExactly(cfg, a, now, id);
      RetainedExactly(cfg, b, now, id);
      var key :| key in a.refs && KeptByRef(cfg, a, now, key, id);
      assert Candidates(a, key) == Candidates(b, key);
      assert KeptByRef(cfg, b, now, key, id);
    }
  }

  /** Listing the rules of policies in another order changes nothing, as their priorities are distinct. */
  lemma RetainedIgnoresRuleOrder(cfg: Config, a: Db, b: Db, now: int)
    requires a.builds == b.builds && a.refs == b.refs
    requires forall key :: key in a.refs ==> ReorderedPolicy(PolicyOf(a, key.project), PolicyOf(b, key.project))
    ensures RetainedBuilds(cfg, a, now) == RetainedBuilds(cfg, b, now)
  {
    forall key | key in a.refs
      ensures KeepCount(cfg, a, key, a.refs[key].updatedAt, now) == KeepCount(cfg, b, key, b.refs[key].updatedAt, now)
    {
      MatchingRuleIgnoresOrder(cfg.glob, PolicyOf(a, key.project).rules, PolicyOf(b, key.project).rules, key.refName);
    }
    RetainedMonotone(cfg, a, b, now);
    RetainedMonotone(cfg, b, a, now);
  }

  predicate ReorderedPolicy(a: Policy, b: Policy) {
    a.keepLatest == b.keepLatest && DistinctPriorities(a.rules) && multiset(a.rules) == multiset(b.rules)
  }

  /**
   Without a policy of its own a project keeps builds of a ref exactly as long as the applying default
   rule does not expire, provided the pattern of the last rule matches everything.
   */
  lemma DefaultPolicyKeepsActiveRefs(cfg: Config, db: Db, key: RefKey, updatedAt: int, now: int)
    requires key.project !in db.policies && forall refName :: cfg.glob("*", refName)
    ensures var rule := MatchingRule(cfg.glob, DefaultRules(), key.refName);
            && rule.Some? && rule.value in DefaultRules()
            && (KeepCount(cfg, db, key, updatedAt, now) > 0
                <==> rule.value.ttlSeconds.None? || now - updatedAt < 1000 * rule.value.ttlSeconds.value)
  {
    var rules := DefaultRules();
    MatchingRuleIsLeast(cfg.glob, rules, key.refName);
    assert cfg.glob(rules[8].refPattern, key.refName);
  }
}
