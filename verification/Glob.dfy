/**
 Path rules of a capability: the greedy wildcard matcher against a declarative
 reading of `*`, and the two places that turn patterns into rules.
 */
module Glob {
  import opened Text

  /** How many `*` a pattern holds. */
  function Stars(pattern: string): nat {
    if pattern == "" then 0 else (if pattern[0] == '*' then 1 else 0) + Stars(pattern[1..])
  }

  /** The pattern with its stars replaced, left to right, by the given strings. */
  function Expand(pattern: string, fills: seq<string>): string
    requires |fills| == Stars(pattern)
  {
    if pattern == "" then ""
    else if pattern[0] == '*' then fills[0] + Expand(pattern[1..], fills[1..])
    else [pattern[0]] + Expand(pattern[1..], fills)
  }

  /** The declarative meaning: some choice of strings for the stars yields `value`. */
  ghost predicate GlobMatches(pattern: string, value: string) {
    exists fills: seq<string> :: |fills| == Stars(pattern) && Expand(pattern, fills) == value
  }

  /** `pattern.split('*').collect()`. */
  function SplitStars(pattern: string): (parts: seq<string>)
    ensures |parts| == Stars(pattern) + 1
  {
    if pattern == "" then [""]
    else
      var rest := SplitStars(pattern[1..]);
      if pattern[0] == '*' then [""] + rest
      else [[pattern[0]] + rest[0]] + rest[1..]
  }

  /** The parts occur in order in `value`, the first anywhere and the last at the end. */
  ghost predicate Follows(parts: seq<string>, value: string)
    requires |parts| > 0
  {
    if |parts| == 1 then EndsWith(value, parts[0])
    else exists k :: 0 <= k <= |value| && Stands(parts[0], value, k) && Follows(parts[1..], value[k + |parts[0]|..])
  }

  predicate Stands(part: string, value: string, k: int) { OccursAt(value, part, k) }

  /** What a pattern split at its stars asks of a value. */
  ghost predicate PartsMatch(parts: seq<string>, value: string)
    requires |parts| > 0
  {
    if |parts| == 1 then value == parts[0]
    else StartsWith(value, parts[0]) && Follows(parts[1..], value[|parts[0]|..])
  }

  /** More text in front never hurts: the exchange argument behind the greedy choice. */
  lemma {:induction false} FollowsLater(parts: seq<string>, value: string, from: nat)
    requires |parts| > 0 && from <= |value|
    requires Follows(parts, value[from..])
    ensures Follows(parts, value)
  {
    if |parts| == 1 {
      var tail := value[from..];
      var at := |tail| - |parts[0]|;
      assert value[from + at..from + at + |parts[0]|] == tail[at..at + |parts[0]|];
    } else {
      var tail := value[from..];
      var k :| 0 <= k <= |tail| && Stands(parts[0], tail, k) && Follows(parts[1..], tail[k + |parts[0]|..]);
      assert value[from + k..from + k + |parts[0]|] == tail[k..k + |parts[0]|];
      assert Stands(parts[0], value, from + k);
      assert value[from + k + |parts[0]|..] == tail[k + |parts[0]|..];
    }
  }

  /** The leftmost occurrence serves whenever any occurrence does. */
  lemma LeftmostServes(parts: seq<string>, value: string, first: nat)
    requires |parts| > 1
    requires OccursAt(value, parts[0], first)
    requires forall q :: 0 <= q < first ==> !OccursAt(value, parts[0], q)
    ensures Follows(parts, value) <==> Follows(parts[1..], value[first + |parts[0]|..])
  {
    var n := |parts[0]|;
    if Follows(parts, value) {
      var k :| 0 <= k <= |value| && Stands(parts[0], value, k) && Follows(parts[1..], value[k + n..]);
      assert first <= k;
      assert value[first + n..][k - first..] == value[k + n..];
      FollowsLater(parts[1..], value[first + n..], k - first);
    }
    if Follows(parts[1..], value[first + n..]) {
      assert Stands(parts[0], value, first);
    }
  }

  /** Splitting at the stars keeps the declarative meaning. */
  lemma {:induction false} PartsMeanGlob(pattern: string, value: string)
    ensures PartsMatch(SplitStars(pattern), value) <==> GlobMatches(pattern, value)
    decreases pattern
  {
    if pattern == "" {
      if value == "" { assert Expand(pattern, []) == value; }
    } else if pattern[0] == '*' {
      StarMeansAnyCut(pattern, value);
    } else {
      LiteralMeansItself(pattern, value);
    }
  }

  lemma {:induction false} StarMeansAnyCut(pattern: string, value: string)
    requires pattern != "" && pattern[0] == '*'
    ensures PartsMatch(SplitStars(pattern), value) <==> GlobMatches(pattern, value)
    decreases pattern, 1
  {
    var rest := SplitStars(pattern[1..]);
    assert SplitStars(pattern)[1..] == rest && value[0..] == value;
    if GlobMatches(pattern, value) { FilledStarFollows(pattern, value); }
    if Follows(rest, value) { FollowedStarFills(pattern, value); }
  }

  lemma {:induction false} FilledStarFollows(pattern: string, value: string)
    requires pattern != "" && pattern[0] == '*' && GlobMatches(pattern, value)
    ensures Follows(SplitStars(pattern[1..]), value)
    decreases pattern, 0
  {
    var fills: seq<string> :| |fills| == Stars(pattern) && Expand(pattern, fills) == value;
    var k := |fills[0]|;
    assert value[k..] == Expand(pattern[1..], fills[1..]);
    PartsMeanGlob(pattern[1..], value[k..]);
    PartsFollow(SplitStars(pattern[1..]), value[k..]);
    FollowsLater(SplitStars(pattern[1..]), value, k);
  }

  lemma {:induction false} FollowedStarFills(pattern: string, value: string)
    requires pattern != "" && pattern[0] == '*' && Follows(SplitStars(pattern[1..]), value)
    ensures GlobMatches(pattern, value)
    decreases pattern, 0
  {
    var k := FollowsCut(SplitStars(pattern[1..]), value);
    PartsMeanGlob(pattern[1..], value[k..]);
    var fills: seq<string> :| |fills| == Stars(pattern[1..]) && Expand(pattern[1..], fills) == value[k..];
    var all := [value[..k]] + fills;
    assert all[1..] == fills;
    assert Expand(pattern, all) == value[..k] + value[k..] == value;
  }

  lemma PartsFollow(parts: seq<string>, value: string)
    requires |parts| > 0 && PartsMatch(parts, value)
    ensures Follows(parts, value)
  {
    if |parts| > 1 { assert Stands(parts[0], value, 0); }
  }

  /** A value whose tail the parts follow can be cut where the first part stands. */
  lemma FollowsCut(parts: seq<string>, value: string) returns (k: nat)
    requires |parts| > 0 && Follows(parts, value)
    ensures k <= |value| && PartsMatch(parts, value[k..])
  {
    if |parts| == 1 {
      k := |value| - |parts[0]|;
    } else {
      k :| 0 <= k <= |value| && Stands(parts[0], value, k) && Follows(parts[1..], value[k + |parts[0]|..]);
      assert value[k..][|parts[0]|..] == value[k + |parts[0]|..];
      assert value[k..][..|parts[0]|] == parts[0];
    }
  }

  lemma {:induction false} LiteralMeansItself(pattern: string, value: string)
    requires pattern != "" && pattern[0] != '*'
    ensures PartsMatch(SplitStars(pattern), value) <==> GlobMatches(pattern, value)
    decreases pattern, 0
  {
    var rest := SplitStars(pattern[1..]);
    var parts := SplitStars(pattern);
    assert parts[1..] == rest[1..] && parts[0] == [pattern[0]] + rest[0];
    if value == "" || value[0] != pattern[0] {
      assert !StartsWith(value, parts[0]) by {
        if |value| >= |parts[0]| { assert value[..|parts[0]|][0] == value[0]; }
      }
      assert forall fills: seq<string> :: |fills| == Stars(pattern) ==> Expand(pattern, fills) != value;
    } else {
      PartsMeanGlob(pattern[1..], value[1..]);
      assert value == [value[0]] + value[1..];
      if |parts| > 1 {
        assert StartsWith(value, parts[0]) <==> StartsWith(value[1..], rest[0]) by {
          if StartsWith(value, parts[0]) { assert value[1..][..|rest[0]|] == parts[0][1..]; }
          if StartsWith(value[1..], rest[0]) { assert value[..|parts[0]|] == [value[0]] + value[1..][..|rest[0]|]; }
        }
        if StartsWith(value, parts[0]) { assert value[|parts[0]|..] == value[1..][|rest[0]|..]; }
      }
      if GlobMatches(pattern[1..], value[1..]) {
        var fills: seq<string> :| |fills| == Stars(pattern[1..]) && Expand(pattern[1..], fills) == value[1..];
        assert Expand(pattern, fills) == value;
      }
      if GlobMatches(pattern, value) {
        var fills: seq<string> :| |fills| == Stars(pattern) && Expand(pattern, fills) == value;
        assert Expand(pattern[1..], fills) == value[1..];
      }
    }
  }

  /** A pattern that starts (ends) with a star splits into an empty first (last) part, and only then. */
  lemma {:induction false} EndParts(pattern: string)
    ensures pattern == "" || ((SplitStars(pattern)[0] == "") <==> pattern[0] == '*')
    ensures pattern == "" || ((SplitStars(pattern)[Stars(pattern)] == "") <==> pattern[|pattern| - 1] == '*')
  {
    if |pattern| > 1 {
      EndParts(pattern[1..]);
      assert pattern[1..][|pattern| - 2] == pattern[|pattern| - 1];
      var rest := SplitStars(pattern[1..]);
      if pattern[0] != '*' && |rest| > 1 {
        assert SplitStars(pattern)[Stars(pattern)] == rest[Stars(pattern)];
      }
    }
  }

  /** What is left to match once `index` parts have consumed `cursor` characters. */
  ghost predicate Pending(parts: seq<string>, index: nat, value: string, cursor: nat)
    requires |parts| > 1 && index <= |parts| && cursor <= |value|
  {
    if index == 0 then PartsMatch(parts, value[cursor..])
    else if index == |parts| then true
    else Follows(parts[index..], value[cursor..])
  }

  lemma SkipEmpty(parts: seq<string>, index: nat, value: string, cursor: nat)
    requires |parts| > 1 && index < |parts| && cursor <= |value| && parts[index] == ""
    ensures Pending(parts, index, value, cursor) <==> Pending(parts, index + 1, value, cursor)
  {
    var tail := value[cursor..];
    assert tail[0..] == tail;
    assert parts[index..][1..] == parts[index + 1..];
    if 0 < index < |parts| - 1 { LeftmostServes(parts[index..], tail, 0); }
  }

  lemma TakeFirst(parts: seq<string>, value: string)
    requires |parts| > 1
    ensures Pending(parts, 0, value, 0) <==> StartsWith(value, parts[0]) && Pending(parts, 1, value, |parts[0]|)
  {
    assert value[0..] == value;
  }

  lemma TakeFound(parts: seq<string>, index: nat, value: string, cursor: nat, pos: nat)
    requires |parts| > 1 && 0 < index < |parts| && cursor <= |value|
    requires index < |parts| - 1 || parts[index] == ""
    requires OccursAt(value[cursor..], parts[index], pos)
    requires forall q :: 0 <= q < pos ==> !OccursAt(value[cursor..], parts[index], q)
    ensures Pending(parts, index, value, cursor) <==> Pending(parts, index + 1, value, cursor + pos + |parts[index]|)
  {
    var tail := value[cursor..];
    assert parts[index..][1..] == parts[index + 1..];
    assert tail[pos + |parts[index]|..] == value[cursor + pos + |parts[index]|..];
    if index < |parts| - 1 { LeftmostServes(parts[index..], tail, pos); }
  }

  lemma NotFound(parts: seq<string>, index: nat, value: string, cursor: nat)
    requires |parts| > 1 && 0 < index < |parts| && cursor <= |value|
    requires forall q :: 0 <= q ==> !OccursAt(value[cursor..], parts[index], q)
    ensures !Pending(parts, index, value, cursor)
  {
    assert forall k :: !Stands(parts[index], value[cursor..], k);
  }

  /** `wildcard_match`: the greedy leftmost search decides the declarative meaning. */
  method WildcardMatch(pattern: string, value: string) returns (matched: bool)
    ensures matched <==> GlobMatches(pattern, value)
  {
    PartsMeanGlob(pattern, value);
    if pattern == "*" {
      SoleStar(value);
      return true;
    }
    var parts := SplitStars(pattern);
    if |parts| == 1 {
      NoStarsOnePart(pattern);
      return pattern == value;
    }
    matched := MatchParts(pattern, parts, value);
  }

  /** The loop of `wildcard_match` over the parts between the stars. */
  method MatchParts(pattern: string, parts: seq<string>, value: string) returns (matched: bool)
    requires parts == SplitStars(pattern) && |parts| > 1
    ensures matched <==> PartsMatch(parts, value)
  {
    EndParts(pattern);
    assert value[0..] == value;
    var cursor: nat := 0;
    for index := 0 to |parts|
      invariant cursor <= |value|
      invariant index == 0 ==> cursor == 0
      invariant PartsMatch(parts, value) <==> Pending(parts, index, value, cursor)
    {
      var part := parts[index];
      if part == "" {
        SkipEmpty(parts, index, value, cursor);
        continue;
      }
      if index == 0 && pattern[0] != '*' {
        TakeFirst(parts, value);
        if !StartsWith(value[cursor..], part) {
          return false;
        }
        cursor := cursor + |part|;
        continue;
      }
      if index == |parts| - 1 && pattern[|pattern| - 1] != '*' {
        assert parts[index..] == [part];
        return EndsWith(value[cursor..], part);
      }
      var pos := FindFrom(value[cursor..], part, 0);
      if pos.None? {
        NotFound(parts, index, value, cursor);
        return false;
      }
      TakeFound(parts, index, value, cursor, pos.value);
      cursor := cursor + pos.value + |part|;
    }
    return true;
  }

  lemma SoleStar(value: string)
    ensures GlobMatches("*", value)
  {
    assert "*"[1..] == "";
    assert Expand("*", [value]) == value + "" == value;
  }

  lemma {:induction false} NoStarsOnePart(pattern: string)
    requires Stars(pattern) == 0
    ensures SplitStars(pattern) == [pattern]
  {
    if pattern != "" {
      NoStarsOnePart(pattern[1..]);
      assert [pattern[0]] + pattern[1..] == pattern;
    }
  }
}
