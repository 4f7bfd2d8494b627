/** The order in which a `BTreeMap` with string keys is listed. */
module Ordering {

  /** Strictly before, character by character; a proper prefix comes first. */
  predicate Before(a: string, b: string) {
    b != "" && (a == "" || a[0] < b[0] || (a[0] == b[0] && Before(a[1..], b[1..])))
  }

  lemma {:induction false} BeforeIsTotal(a: string, b: string)
    ensures a == b || Before(a, b) || Before(b, a)
    ensures !(Before(a, b) && Before(b, a)) && !Before(a, a)
    decreases a
  {
    if a != "" && b != "" {
      BeforeIsTotal(a[1..], b[1..]);
      BeforeIsTotal(a[1..], a[1..]);
      assert a == [a[0]] + a[1..] && b == [b[0]] + b[1..];
    } else if a != "" {
      BeforeIsTotal(a[1..], a[1..]);
    }
  }

  lemma {:induction false} BeforeIsTransitive(a: string, b: string, c: string)
    requires Before(a, b) && Before(b, c)
    ensures Before(a, c)
    decreases a
  {
    if a != "" && a[0] == b[0] && b[0] == c[0] {
      BeforeIsTransitive(a[1..], b[1..], c[1..]);
    }
  }

  ghost predicate IsLeast(keys: set<string>, k: string) {
    k in keys && forall j :: j in keys ==> j == k || Before(k, j)
  }

  lemma {:induction false} LeastExists(keys: set<string>) returns (k: string)
    requires keys != {}
    ensures IsLeast(keys, k)
    decreases |keys|
  {
    var any :| any in keys;
    if keys == {any} {
      return any;
    }
    var rest := keys - {any};
    assert keys == rest + {any};
    var least := LeastExists(rest);
    BeforeIsTotal(any, least);
    k := if Before(any, least) then any else least;
    forall j | j in keys ensures j == k || Before(k, j) {
      if j in rest && k == any && j != least { BeforeIsTransitive(any, least, j); }
    }
  }

  /** The keys, each once, in order. */
  ghost function SortedKeys(keys: set<string>): seq<string>
    decreases |keys|
  {
    if keys == {} then []
    else
      assert exists k :: IsLeast(keys, k) by { var k := LeastExists(keys); }
      var k :| IsLeast(keys, k);
      [k] + SortedKeys(keys - {k})
  }

  ghost predicate Ascending(s: seq<string>) {
    forall i, j :: 0 <= i < j < |s| ==> Before(s[i], s[j])
  }

  lemma {:induction false} SortedKeysListsAll(keys: set<string>)
    ensures Ascending(SortedKeys(keys)) && forall k :: k in SortedKeys(keys) <==> k in keys
    decreases |keys|
  {
    if keys != {} {
      var k := SortedKeys(keys)[0];
      assert IsLeast(keys, k) && SortedKeys(keys) == [k] + SortedKeys(keys - {k});
      SortedKeysListsAll(keys - {k});
      var rest := SortedKeys(keys - {k});
      forall j | 0 <= j < |rest| ensures Before(k, rest[j]) { assert rest[j] in rest; }
    }
  }

  /** Only one ascending listing of a set exists. */
  lemma {:induction false} AscendingIsUnique(a: seq<string>, b: seq<string>)
    requires Ascending(a) && Ascending(b) && forall k :: k in a <==> k in b
    ensures a == b
    decreases a
  {
    assert |b| > 0 ==> b[0] in b;
    if a != [] {
      assert a[0] in a && b != [];
      SameFirst(a, b);
      TailMembers(a);
      TailMembers(b);
      AscendingIsUnique(a[1..], b[1..]);
    }
  }

  lemma SameFirst(a: seq<string>, b: seq<string>)
    requires Ascending(a) && Ascending(b) && a != [] && b != [] && a[0] in b && b[0] in a
    ensures a[0] == b[0]
  {
    var i :| 0 <= i < |b| && b[i] == a[0];
    var j :| 0 <= j < |a| && a[j] == b[0];
    BeforeIsTotal(a[0], b[0]);
  }

  lemma TailMembers(a: seq<string>)
    requires Ascending(a) && a != []
    ensures forall k :: k in a[1..] <==> k in a && k != a[0]
  {
    assert a == [a[0]] + a[1..];
    forall j | 1 <= j < |a| ensures a[j] != a[0] { BeforeIsTotal(a[0], a[j]); }
  }
}
