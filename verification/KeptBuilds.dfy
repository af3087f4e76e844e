/** When a build is kept, in the numbers of the rules: milliseconds, days and counts (crates/depot-db/src/retention.rs). */
module KeptBuilds {
  import opened Wrappers
  import opened Text
  import opened Tables
  import opened Retention

  // ---- Which rule applies ----

  /** The rule that applies: it matches, and of the matching rules it is the first of the least priority number. */
  predicate Applies(glob: (string, string) -> bool, rules: seq<Rule>, refName: string, i: nat) {
    && i < |rules| && glob(rules[i].refPattern, refName)
    && (forall j :: 0 <= j < |rules| && glob(rules[j].refPattern, refName) ==> rules[i].priority <= rules[j].priority)
    && (forall j :: 0 <= j < i && glob(rules[j].refPattern, refName) ==> rules[i].priority < rules[j].priority)
  }

  lemma {:induction false} MatchingApplies(glob: (string, string) -> bool, rules: seq<Rule>, refName: string) returns (i: nat)
    requires MatchingRule(glob, rules, refName).Some?
    ensures Applies(glob, rules, refName, i) && MatchingRule(glob, rules, refName) == Some(rules[i])
  {
    var rest := MatchingRule(glob, rules[1..], refName);
    MatchingRuleIsLeast(glob, rules[1..], refName);
    assert forall j :: 1 <= j < |rules| ==> rules[j] == rules[1..][j - 1];
    if MatchingRule(glob, rules, refName) == rest && !(glob(rules[0].refPattern, refName) && rest == Some(rules[0])) {
      var k := MatchingApplies(glob, rules[1..], refName);
      i := k + 1;
    } else {
      i := 0;
    }
  }

  lemma AppliesOnce(glob: (string, string) -> bool, rules: seq<Rule>, refName: string, i: nat, j: nat)
    requires Applies(glob, rules, refName, i) && Applies(glob, rules, refName, j)
    ensures i == j
  {}

  // ---- For how long ----

  /** In milliseconds: for ever, or for so many seconds; a rule of no seconds keeps what lies a second ahead of the clock. */
  predicate Lasts(rule: Rule, updatedAt: int, now: int) {
    match rule.ttlSeconds
    case None => true
    case Some(seconds) => if seconds == 0 then updatedAt - now >= 1000 else now - updatedAt < 1000 * seconds
  }

  lemma ActiveExactly(rule: Rule, updatedAt: int, now: int)
    ensures RefIsActive(updatedAt, rule.ttlSeconds, now) <==> Lasts(rule, updatedAt, now)
  {}

  // ---- How many ----

  /** The policy's count, 2 when the project has no policy. */
  function DefaultCount(db: Db, project: string): (k: nat) {
    if project in db.policies then db.policies[project].keepLatest else 2
  }

  function RulesFor(db: Db, project: string): (rules: seq<Rule>) {
    if project in db.policies then db.policies[project].rules else DefaultRules()
  }

  lemma KeepsWith(cfg: Config, db: Db, key: RefKey, updatedAt: int, now: int, i: nat)
    requires Applies(cfg.glob, RulesFor(db, key.project), key.refName, i)
    ensures var rule := RulesFor(db, key.project)[i];
            KeepCount(cfg, db, key, updatedAt, now)
            == if !Lasts(rule, updatedAt, now) then 0
               else if rule.keepBuilds.Some? then rule.keepBuilds.value else DefaultCount(db, key.project)
  {
    var rules := RulesFor(db, key.project);
    MatchingRuleIsLeast(cfg.glob, rules, key.refName);
    var j := MatchingApplies(cfg.glob, rules, key.refName);
    AppliesOnce(cfg.glob, rules, key.refName, i, j);
    ActiveExactly(rules[i], updatedAt, now);
  }

  lemma KeepsNothing(cfg: Config, db: Db, key: RefKey, updatedAt: int, now: int)
    requires forall i: nat :: !Applies(cfg.glob, RulesFor(db, key.project), key.refName, i)
    ensures KeepCount(cfg, db, key, updatedAt, now) == 0
  {
    if MatchingRule(cfg.glob, RulesFor(db, key.project), key.refName).Some? {
      var i := MatchingApplies(cfg.glob, RulesFor(db, key.project), key.refName);
    }
  }

  /** A rule applies to the ref, lasts, and keeps at least one build. */
  ghost predicate KeepsSome(cfg: Config, db: Db, key: RefKey, updatedAt: int, now: int) {
    var rules := RulesFor(db, key.project);
    exists i: nat ::
      && Applies(cfg.glob, rules, key.refName, i) && Lasts(rules[i], updatedAt, now)
      && 0 < if rules[i].keepBuilds.Some? then rules[i].keepBuilds.value else DefaultCount(db, key.project)
  }

  lemma KeepsSomeExactly(cfg: Config, db: Db, key: RefKey, updatedAt: int, now: int)
    ensures KeepCount(cfg, db, key, updatedAt, now) > 0 <==> KeepsSome(cfg, db, key, updatedAt, now)
  {
    var rules := RulesFor(db, key.project);
    hide KeepCount, Lasts, DefaultRules;
    if i: nat :| Applies(cfg.glob, rules, key.refName, i) {
      KeepsWith(cfg, db, key, updatedAt, now, i);
      forall j: nat | Applies(cfg.glob, rules, key.refName, j) ensures j == i { AppliesOnce(cfg.glob, rules, key.refName, i, j); }
    } else {
      KeepsNothing(cfg, db, key, updatedAt, now);
    }
  }

  /**
   Without a policy: the main branches and tags for ever, releases for 180 days, other branches for 60, reviews
   for 14, all else for 30.
   */
  lemma DefaultRulesAre()
    ensures |DefaultRules()| == 9
    ensures forall i :: 0 <= i < 9 ==>
              && DefaultRules()[i].priority == [10, 20, 30, 40, 50, 60, 70, 80, 90][i]
              && DefaultRules()[i].refPattern
                 == ["refs/heads/main", "refs/heads/master", "refs/heads/trunk", "refs/tags/*", "refs/heads/release/*",
                     "refs/pull/*", "refs/merge-requests/*", "refs/heads/*", "*"][i]
              && DefaultRules()[i].ttlSeconds
                 == [None, None, None, None, Some(15552000), Some(1209600), Some(1209600), Some(5184000), Some(2592000)][i]
              && DefaultRules()[i].keepBuilds
                 == [Some(2), Some(2), Some(2), Some(1), Some(2), Some(1), Some(1), Some(2), Some(1)][i]
  {}

  /** They apply to a project without a policy of its own, along with two builds and a grace period of a day. */
  lemma PolicyOfExactly(db: Db, project: string)
    ensures project in db.policies ==> PolicyOf(db, project) == db.policies[project]
    ensures project !in db.policies ==> PolicyOf(db, project) == Policy(2, 86400, DefaultRules())
  {}

  // ---- Newer builds ----

  /** Both are finalized builds of one ref of one project. */
  predicate FinalizedFor(b: Build, project: string, refName: string) {
    b.project == project && b.refName == refName && b.status == Finalized && b.finalizedAt.Some?
  }

  /** The first was finalized later; or then created later; what the query leaves open is settled by the id. */
  predicate Newer(a: Build, i: string, b: Build, j: string)
    requires a.finalizedAt.Some? && b.finalizedAt.Some?
  {
    || a.finalizedAt.value > b.finalizedAt.value
    || (a.finalizedAt.value == b.finalizedAt.value && a.createdAt > b.createdAt)
    || (a.finalizedAt.value == b.finalizedAt.value && a.createdAt == b.createdAt && i != j && Leq(i, j))
  }

  /** The newer finalized builds of the same ref. */
  function NewerBuilds(db: Db, id: string): (r: set<string>)
    requires id in db.builds && db.builds[id].finalizedAt.Some?
  {
    set other | other in db.builds && FinalizedFor(db.builds[other], db.builds[id].project, db.builds[id].refName)
                && Newer(db.builds[other], other, db.builds[id], id)
  }

  lemma {:induction false} SameCount(s: set<Candidate>, ids: set<string>)
    requires forall c, d :: c in s && d in s && c.id == d.id ==> c == d
    requires ids == set c | c in s :: c.id
    ensures |s| == |ids|
  {
    if s != {} {
      var c :| c in s;
      assert ids - {c.id} == set d | d in s - {c} :: d.id;
      SameCount(s - {c}, ids - {c.id});
    } else {
      assert ids == {};
    }
  }

  lemma NewerAreCandidates(db: Db, key: RefKey, id: string)
    requires id in db.builds && FinalizedFor(db.builds[id], key.project, key.refName)
    ensures |Preceding(Candidates(db, key), CandidateOf(db, id))| == |NewerBuilds(db, id)|
  {
    var s, c := Candidates(db, key), CandidateOf(db, id);
    var before := Preceding(s, c);
    forall other ensures other in NewerBuilds(db, id) <==> exists d :: d in before && d.id == other {
      if other in NewerBuilds(db, id) {
        assert CandidateOf(db, other) in before && CandidateOf(db, other).id == other;
      }
    }
    assert NewerBuilds(db, id) == set d | d in before :: d.id;
    SameCount(before, NewerBuilds(db, id));
  }

  /** A build is kept by its own ref: a rule applies and lasts, and fewer builds are newer than it keeps. */
  ghost predicate KeptByItsRef(cfg: Config, db: Db, now: int, id: string) {
    && id in db.builds
    && var b := db.builds[id];
       var rules := RulesFor(db, b.project);
       && b.status == Finalized && b.finalizedAt.Some? && RefKey(b.project, b.refName) in db.refs
       && exists i: nat ::
            && Applies(cfg.glob, rules, b.refName, i)
            && Lasts(rules[i], db.refs[RefKey(b.project, b.refName)].updatedAt, now)
            && |NewerBuilds(db, id)| < if rules[i].keepBuilds.Some? then rules[i].keepBuilds.value else DefaultCount(db, b.project)
  }

  lemma KeptByKey(cfg: Config, db: Db, now: int, key: RefKey, id: string)
    requires key in db.refs && id in db.builds && FinalizedFor(db.builds[id], key.project, key.refName)
    ensures KeptByRef(cfg, db, now, key, id) <==> KeptByItsRef(cfg, db, now, id)
  {
    var b, updatedAt := db.builds[id], db.refs[key].updatedAt;
    assert key == RefKey(b.project, b.refName) && IsCandidate(b, key);
    NewerAreCandidates(db, key, id);
    hide KeepCount, NewerBuilds, Preceding, Candidates, Lasts, DefaultRules;
    if i: nat :| Applies(cfg.glob, RulesFor(db, key.project), key.refName, i) {
      KeepsWith(cfg, db, key, updatedAt, now, i);
      forall j: nat | Applies(cfg.glob, RulesFor(db, key.project), key.refName, j) ensures j == i {
        AppliesOnce(cfg.glob, RulesFor(db, key.project), key.refName, i, j);
      }
    } else {
      KeepsNothing(cfg, db, key, updatedAt, now);
    }
  }

  /** A build is retained exactly when its own ref keeps it, in the numbers of the rule that applies. */
  lemma RetainedInNumbers(cfg: Config, db: Db, now: int, id: string)
    ensures id in RetainedBuilds(cfg, db, now) <==> KeptByItsRef(cfg, db, now, id)
  {
    hide KeptByItsRef;
    RetainedExactly(cfg, db, now, id);
    if key :| key in db.refs && KeptByRef(cfg, db, now, key, id) {
      KeptByKey(cfg, db, now, key, id);
    } else if KeptByItsRef(cfg, db, now, id) {
      KeptHasKey(cfg, db, now, id);
      KeptByKey(cfg, db, now, RefKey(db.builds[id].project, db.builds[id].refName), id);
    }
  }

  lemma KeptHasKey(cfg: Config, db: Db, now: int, id: string)
    requires KeptByItsRef(cfg, db, now, id)
    ensures id in db.builds && FinalizedFor(db.builds[id], db.builds[id].project, db.builds[id].refName)
    ensures RefKey(db.builds[id].project, db.builds[id].refName) in db.refs
  {}
}
