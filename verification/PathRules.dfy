/** Path rules: what they accept, and the two ways patterns become rules. */
module PathRules {
  import opened Text
  import opened Glob

  datatype PathPolicy = Exact | Prefix | Wildcard | Any

  datatype PathRule = PathRule(policy: PathPolicy, value: string)

  /** The paths a rule stands for. */
  ghost predicate Accepts(rule: PathRule, path: string) {
    match rule.policy
    case Any => true
    case Exact => path == rule.value
    case Prefix => StartsWith(path, rule.value)
    case Wildcard => GlobMatches(rule.value, path)
  }

  /** `PathRule::matches`. */
  method Matches(rule: PathRule, path: string) returns (matched: bool)
    ensures matched <==> Accepts(rule, path)
  {
    match rule.policy
    case Any => matched := true;
    case Exact => matched := path == rule.value;
    case Prefix => matched := StartsWith(path, rule.value);
    case Wildcard => matched := WildcardMatch(rule.value, path);
  }

  ghost predicate AnyAccepts(rules: seq<PathRule>, path: string) {
    exists i :: 0 <= i < |rules| && Accepts(rules[i], path)
  }

  /** How `CapabilityClaims::new` reads one pattern. */
  function ClaimRule(pattern: string): PathRule {
    if pattern == "*" then PathRule(Any, "*")
    else if '*' in pattern then PathRule(Wildcard, pattern)
    else if EndsWith(pattern, "/") then PathRule(Prefix, pattern)
    else PathRule(Exact, pattern)
  }

  /** How `default_path_rules` reads one pattern. */
  function DefaultRule(pattern: string): PathRule {
    if pattern == "*" || pattern == "/*" then PathRule(Any, "*")
    else if '*' in pattern then PathRule(Wildcard, pattern)
    else PathRule(Exact, pattern)
  }

  function ClaimRules(patterns: seq<string>): (rules: seq<PathRule>)
    ensures |rules| == |patterns| && forall i :: 0 <= i < |patterns| ==> rules[i] == ClaimRule(patterns[i])
  {
    seq(|patterns|, i requires 0 <= i < |patterns| => ClaimRule(patterns[i]))
  }

  function DefaultPathRules(patterns: seq<string>): (rules: seq<PathRule>)
    ensures |rules| == |patterns| && forall i :: 0 <= i < |patterns| ==> rules[i] == DefaultRule(patterns[i])
  {
    seq(|patterns|, i requires 0 <= i < |patterns| => DefaultRule(patterns[i]))
  }

  lemma SlashStar(path: string)
    requires StartsWith(path, "/")
    ensures GlobMatches("/*", path)
  {
    assert "/*"[1..] == "*" && "*"[1..] == "";
    assert Expand("*", [path[1..]]) == path[1..] + "" == path[1..];
    assert Stars("/*") == Stars("*") == 1;
    assert Expand("/*", [path[1..]]) == ['/'] + path[1..] == path;
  }

  /** A pattern read both ways accepts the same absolute paths, unless it is an absolute directory without a star. */
  predicate ReadAlike(pattern: string) {
    '*' in pattern || !EndsWith(pattern, "/") || !StartsWith(pattern, "/")
  }

  lemma RuleAgreesExactly(pattern: string)
    ensures ReadAlike(pattern) <==>
            forall path | StartsWith(path, "/") ::
              Accepts(ClaimRule(pattern), path) <==> Accepts(DefaultRule(pattern), path)
  {
    if ReadAlike(pattern) {
      forall path | StartsWith(path, "/")
        ensures Accepts(ClaimRule(pattern), path) <==> Accepts(DefaultRule(pattern), path)
      {
        ReadAlikeAccepts(pattern, path);
      }
    } else {
      DirectoriesDiffer(pattern);
    }
  }

  lemma ReadAlikeAccepts(pattern: string, path: string)
    requires ReadAlike(pattern) && StartsWith(path, "/")
    ensures Accepts(ClaimRule(pattern), path) <==> Accepts(DefaultRule(pattern), path)
  {
    if pattern == "/*" {
      SlashStar(path);
    } else if '*' !in pattern && EndsWith(pattern, "/") {
      assert pattern[0] != '/' by { assert pattern[..1] == [pattern[0]]; }
      assert path[0] == '/' by { assert path[..1] == [path[0]]; }
      assert |pattern| <= |path| ==> path[..|pattern|][0] == path[0];
    }
  }

  lemma DirectoriesDiffer(pattern: string)
    requires !ReadAlike(pattern)
    ensures
      exists path ::
        StartsWith(path, "/") && Accepts(ClaimRule(pattern), path) && !Accepts(DefaultRule(pattern), path)
  {
    var deeper := pattern + "x";
    assert deeper[..|pattern|] == pattern && deeper[..1] == pattern[..1];
    assert StartsWith(deeper, "/") && ClaimRule(pattern).policy == Prefix && DefaultRule(pattern).policy == Exact;
    assert Accepts(ClaimRule(pattern), deeper) && !Accepts(DefaultRule(pattern), deeper);
  }

  /** For patterns that all hold a star the two rule lists accept the same absolute paths. */
  lemma StarRulesAgree(patterns: seq<string>, path: string)
    requires forall i :: 0 <= i < |patterns| ==> '*' in patterns[i]
    requires StartsWith(path, "/")
    ensures AnyAccepts(ClaimRules(patterns), path) <==> AnyAccepts(DefaultPathRules(patterns), path)
  {
    forall i | 0 <= i < |patterns|
      ensures Accepts(ClaimRules(patterns)[i], path) <==> Accepts(DefaultPathRules(patterns)[i], path)
    {
      RuleAgreesExactly(patterns[i]);
    }
  }

  /** For any patterns at all, `CapabilityClaims::new` never accepts less. */
  lemma ClaimRulesAcceptMore(patterns: seq<string>, path: string)
    requires StartsWith(path, "/") && AnyAccepts(DefaultPathRules(patterns), path)
    ensures AnyAccepts(ClaimRules(patterns), path)
  {
    var i :| 0 <= i < |patterns| && Accepts(DefaultPathRules(patterns)[i], path);
    if patterns[i] == "/*" { SlashStar(path); }
    assert path[..|path|] == path;
    assert Accepts(ClaimRules(patterns)[i], path);
  }
}
