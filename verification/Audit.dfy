/** The hash-chained audit log: append, verify, and what a chain gives away about tampering. */
module Audit {
  import opened Basics

  const GENESIS_HASH: string := "sha256:0000000000000000000000000000000000000000000000000000000000000000"

  /** The fields of an event that its hash covers; `M` is the JSON metadata. */
  datatype HashInput<M> = HashInput(
    sequence: nat, timestamp: int, actor: string, action: string, resource: string, metadata: M, previousHash: string)

  datatype Event<M> = Event(body: HashInput<M>, eventHash: string)

  /** SHA-256 over the canonical JSON of the covered fields; any function will do. */
  type Hash<!M> = HashInput<M> -> string

  function LastHash<M>(rows: seq<Event<M>>): string {
    if |rows| == 0 then GENESIS_HASH else rows[|rows| - 1].eventHash
  }

  /** What `append` writes after `rows`. */
  function NextEvent<M>(
    hash: Hash<M>, rows: seq<Event<M>>, now: int, action: string, resource: string, metadata: M): Event<M>
  {
    var body := HashInput(|rows| + 1, now, "local-user", action, resource, metadata, LastHash(rows));
    Event(body, hash(body))
  }

  /** The row at `i` is numbered `i + 1`, names its predecessor's hash, and hashes to its own. */
  predicate GoodRow<M(==)>(hash: Hash<M>, rows: seq<Event<M>>, i: nat)
    requires i < |rows|
  {
    && rows[i].body.sequence == i + 1
    && rows[i].body.previousHash == LastHash(rows[..i])
    && rows[i].eventHash == hash(rows[i].body)
  }

  predicate WellFormed<M(==)>(hash: Hash<M>, rows: seq<Event<M>>) {
    forall i :: 0 <= i < |rows| ==> GoodRow(hash, rows, i)
  }

  /** The answer of `verify`; a mismatch names its row, counted from one. */
  datatype Verdict =
    | Intact(events: nat)
    | SequenceMismatch(row: nat)
    | PreviousHashMismatch(row: nat)
    | EventHashMismatch(row: nat)

  /** Rows before `row` are good and `row` is the first bad one, bad in the way the verdict says. */
  ghost predicate Explains<M>(hash: Hash<M>, rows: seq<Event<M>>, verdict: Verdict) {
    match verdict
    case Intact(n) => n == |rows| && WellFormed(hash, rows)
    case SequenceMismatch(row) => FirstBad(hash, rows, row) && rows[row - 1].body.sequence != row
    case PreviousHashMismatch(row) =>
      FirstBad(hash, rows, row) && rows[row - 1].body.sequence == row
      && rows[row - 1].body.previousHash != LastHash(rows[..row - 1])
    case EventHashMismatch(row) =>
      FirstBad(hash, rows, row) && rows[row - 1].body.sequence == row
      && rows[row - 1].body.previousHash == LastHash(rows[..row - 1])
      && rows[row - 1].eventHash != hash(rows[row - 1].body)
  }

  ghost predicate FirstBad<M>(hash: Hash<M>, rows: seq<Event<M>>, row: nat) {
    && 0 < row <= |rows|
    && (forall i :: 0 <= i < row - 1 ==> GoodRow(hash, rows, i))
    && !GoodRow(hash, rows, row - 1)
  }

  class AuditLog<M(==)> {
    const hash: Hash<M>
    var rows: seq<Event<M>>

    constructor (hash: Hash<M>)
      ensures this.hash == hash && rows == []
    {
      this.hash := hash;
      rows := [];
    }

    /** `append`, with the clock reading taken under the lock. */
    method Append(now: int, action: string, resource: string, metadata: M) returns (event: Event<M>)
      modifies this
      ensures event == NextEvent(hash, old(rows), now, action, resource, metadata)
      ensures event.body.sequence == |rows| && event.body.timestamp == now && event.body.actor == "local-user"
      ensures event.body.action == action && event.body.resource == resource && event.body.metadata == metadata
      ensures event.body.previousHash == (if |rows| == 1 then GENESIS_HASH else old(rows[|rows| - 1]).eventHash)
      ensures event.eventHash == hash(event.body)
      ensures rows == old(rows) + [event]
      ensures WellFormed(hash, old(rows)) ==> WellFormed(hash, rows)
    {
      var previousHash := if |rows| == 0 then GENESIS_HASH else rows[|rows| - 1].eventHash;
      var body := HashInput(|rows| + 1, now, "local-user", action, resource, metadata, previousHash);
      event := Event(body, hash(body));
      if WellFormed(hash, rows) { AppendKeepsChain(hash, rows, now, action, resource, metadata); }
      rows := rows + [event];
    }

    /** `verify`: intact exactly for a well-formed chain, otherwise the first bad row and its first defect. */
    method Verify() returns (verdict: Verdict)
      ensures Explains(hash, rows, verdict)
      ensures verdict.Intact? <==> WellFormed(hash, rows)
    {
      var prev := GENESIS_HASH;
      for idx := 0 to |rows|
        invariant prev == LastHash(rows[..idx])
        invariant forall i :: 0 <= i < idx ==> GoodRow(hash, rows, i)
      {
        var e := rows[idx];
        var seqNo := idx + 1;
        assert GoodRow(hash, rows, idx)
          <==> e.body.sequence == seqNo && e.body.previousHash == prev && e.eventHash == hash(e.body);
        if e.body.sequence != seqNo {
          return SequenceMismatch(seqNo);
        }
        if e.body.previousHash != prev {
          return PreviousHashMismatch(seqNo);
        }
        if e.eventHash != hash(e.body) {
          return EventHashMismatch(seqNo);
        }
        prev := e.eventHash;
      }
      return Intact(|rows|);
    }
  }

  lemma AppendKeepsChain<M>(hash: Hash<M>, rows: seq<Event<M>>, now: int, action: string, resource: string, metadata: M)
    requires WellFormed(hash, rows)
    ensures WellFormed(hash, rows + [NextEvent(hash, rows, now, action, resource, metadata)])
  {
    var longer := rows + [NextEvent(hash, rows, now, action, resource, metadata)];
    forall i | 0 <= i < |longer| ensures GoodRow(hash, longer, i) {
      if i < |rows| {
        assert GoodRow(hash, rows, i);
        assert longer[..i] == rows[..i];
      } else {
        assert longer[..i] == rows;
      }
    }
  }

  /** Every prefix of a chain is a chain: `verify` cannot see that rows were cut off the end. */
  lemma PrefixIsChain<M>(hash: Hash<M>, rows: seq<Event<M>>, n: nat)
    requires WellFormed(hash, rows) && n <= |rows|
    ensures WellFormed(hash, rows[..n])
  {
    forall i | 0 <= i < n ensures GoodRow(hash, rows[..n], i) {
      assert GoodRow(hash, rows, i);
      assert rows[..n][..i] == rows[..i];
    }
  }

  /** Two different inputs of the hash function with one hash. */
  ghost predicate CollidesAt<M>(hash: Hash<M>, x: HashInput<M>, y: HashInput<M>) {
    x != y && hash(x) == hash(y)
  }

  /** A row of one log and a row of the other hash different inputs to one hash. */
  ghost predicate RowsCollide<M>(hash: Hash<M>, a: seq<Event<M>>, b: seq<Event<M>>) {
    exists i, j :: 0 <= i < |a| && 0 <= j < |b| && CollidesAt(hash, a[i].body, b[j].body)
  }

  lemma PrefixesCollide<M>(hash: Hash<M>, a: seq<Event<M>>, b: seq<Event<M>>, m: nat, n: nat)
    requires m <= |a| && n <= |b| && RowsCollide(hash, a[..m], b[..n])
    ensures RowsCollide(hash, a, b)
  {
    var i, j :| 0 <= i < m && 0 <= j < n && CollidesAt(hash, a[..m][i].body, b[..n][j].body);
    assert CollidesAt(hash, a[i].body, b[j].body);
  }

  /**
   Two chains that end in the same hash are the same chain, unless a row of one and a row of
   the other collide.
   */
  lemma {:induction false} SameEndSameChain<M>(hash: Hash<M>, a: seq<Event<M>>, b: seq<Event<M>>)
    requires WellFormed(hash, a) && WellFormed(hash, b)
    requires |a| > 0 && |b| > 0 && LastHash(a) == LastHash(b)
    ensures a == b || RowsCollide(hash, a, b)
    decreases |a|
  {
    var m, n := |a| - 1, |b| - 1;
    assert GoodRow(hash, a, m) && GoodRow(hash, b, n);
    if a[m].body != b[n].body {
      assert CollidesAt(hash, a[m].body, b[n].body);
    } else {
      assert m == n && a[m] == b[m];
      assert a == a[..m] + [a[m]] && b == b[..m] + [b[m]];
      if m > 0 {
        PrefixIsChain(hash, a, m);
        PrefixIsChain(hash, b, m);
        SameEndSameChain(hash, a[..m], b[..m]);
        if a[..m] != b[..m] { PrefixesCollide(hash, a, b, m, m); }
      }
    }
  }

  /**
   Tamper evidence. Against a trusted last hash every change shows: rows that are
   not the original log are not a chain ending in that hash.
   */
  lemma TamperShows<M>(hash: Hash<M>, original: seq<Event<M>>, found: seq<Event<M>>)
    requires WellFormed(hash, original) && |original| > 0 && |found| > 0 && !RowsCollide(hash, original, found)
    requires LastHash(found) == LastHash(original)
    ensures WellFormed(hash, found) <==> found == original
  {
    if WellFormed(hash, found) { SameEndSameChain(hash, original, found); }
  }

  /**
   Without a trusted last hash, a log put together from rows of the original (some
   dropped, repeated or moved) verifies exactly when it is a prefix of the original.
   So the only such change that goes unseen is cutting rows off the end.
   */
  lemma RearrangedRowsShow<M>(hash: Hash<M>, original: seq<Event<M>>, found: seq<Event<M>>)
    requires WellFormed(hash, original)
    requires forall e :: e in found ==> e in original
    ensures WellFormed(hash, found) <==> found <= original
  {
    if WellFormed(hash, found) {
      forall i | 0 <= i < |found| ensures i < |original| && found[i] == original[i] {
        assert GoodRow(hash, found, i) && found[i] in original;
        var j :| 0 <= j < |original| && original[j] == found[i];
        assert GoodRow(hash, original, j);
      }
      var last := |found| - 1;
      assert last < 0 || (found[last] in found && last < |original|);
    }
    if found <= original {
      PrefixIsChain(hash, original, |found|);
      assert original[..|found|] == found;
    }
  }

  lemma MiddleEditBreaks<M>(hash: Hash<M>, rows: seq<Event<M>>, i: nat, edited: Event<M>)
    requires WellFormed(hash, rows) && i < |rows| - 1 && edited != rows[i]
    requires !CollidesAt(hash, edited.body, rows[i].body)
    ensures !WellFormed(hash, rows[i := edited])
  {
    var changed := rows[i := edited];
    assert GoodRow(hash, rows, i) && GoodRow(hash, rows, i + 1);
    assert LastHash(changed[..i + 1]) == edited.eventHash;
    if edited.eventHash != rows[i].eventHash {
      assert !GoodRow(hash, changed, i + 1);
    } else {
      assert !GoodRow(hash, changed, i);
    }
  }

  /** Rewriting one row goes unseen only in the last row. */
  lemma EditedRowShows<M>(hash: Hash<M>, rows: seq<Event<M>>, i: nat, edited: Event<M>)
    requires WellFormed(hash, rows) && i < |rows| && edited != rows[i] && !CollidesAt(hash, edited.body, rows[i].body)
    ensures WellFormed(hash, rows[i := edited]) <==> i == |rows| - 1 && GoodRow(hash, rows[i := edited], i)
  {
    var changed := rows[i := edited];
    assert GoodRow(hash, rows, i);
    if i < |rows| - 1 {
      MiddleEditBreaks(hash, rows, i, edited);
    } else if WellFormed(hash, changed) {
      assert GoodRow(hash, changed, i);
    }
    if i == |rows| - 1 && GoodRow(hash, changed, i) {
      forall k | 0 <= k < |rows| ensures GoodRow(hash, changed, k) {
        assert GoodRow(hash, rows, k);
        if k < i { assert changed[..k] == rows[..k]; }
      }
    }
  }

  /** In a log that verifies, a row of the original stands only where it stood, behind the rows that stood before it. */
  lemma OriginalRowFixesPrefix<M>(hash: Hash<M>, original: seq<Event<M>>, found: seq<Event<M>>, i: nat)
    requires WellFormed(hash, original) && WellFormed(hash, found) && !RowsCollide(hash, original, found)
    requires i < |found| && found[i] in original
    ensures i < |original| && found[..i + 1] == original[..i + 1]
  {
    var j :| 0 <= j < |original| && original[j] == found[i];
    assert GoodRow(hash, original, j) && GoodRow(hash, found, i);
    PrefixIsChain(hash, original, i + 1);
    PrefixIsChain(hash, found, i + 1);
    SameEndSameChain(hash, original[..i + 1], found[..i + 1]);
    if RowsCollide(hash, original[..i + 1], found[..i + 1]) { PrefixesCollide(hash, original, found, i + 1, i + 1); }
  }

  /** `found` is the original up to `n`, and well-made rows that are none of the original's from there on. */
  ghost predicate RewrittenFrom<M(!new)>(hash: Hash<M>, original: seq<Event<M>>, found: seq<Event<M>>, n: nat) {
    && n <= |original| && n <= |found| && found[..n] == original[..n]
    && forall i :: n <= i < |found| ==> found[i] !in original && GoodRow(hash, found, i)
  }

  /**
   Which changes go unseen: whatever was done to the log, it verifies if and only if it is a prefix of the
   original followed by new rows that carry the chain on.
   */
  lemma UnseenIff<M(!new)>(hash: Hash<M>, original: seq<Event<M>>, found: seq<Event<M>>)
    requires WellFormed(hash, original) && !RowsCollide(hash, original, found)
    ensures WellFormed(hash, found) <==> exists n :: 0 <= n <= |original| && RewrittenFrom(hash, original, found, n)
  {
    if WellFormed(hash, found) {
      var n := FirstNewRow(hash, original, found);
      assert RewrittenFrom(hash, original, found, n);
    }
    forall n | 0 <= n <= |original| && RewrittenFrom(hash, original, found, n) ensures WellFormed(hash, found) {
      PrefixCarriesOn(hash, original, found, n);
    }
  }

  lemma {:induction false} FirstNewRow<M(!new)>(hash: Hash<M>, original: seq<Event<M>>, found: seq<Event<M>>)
    returns (n: nat)
    requires WellFormed(hash, original) && WellFormed(hash, found) && !RowsCollide(hash, original, found)
    ensures RewrittenFrom(hash, original, found, n)
  {
    n := |found|;
    while n > 0 && found[n - 1] !in original
      invariant n <= |found| && forall i :: n <= i < |found| ==> found[i] !in original
    {
      n := n - 1;
    }
    if n > 0 { OriginalRowFixesPrefix(hash, original, found, n - 1); }
  }

  lemma PrefixCarriesOn<M(!new)>(hash: Hash<M>, original: seq<Event<M>>, found: seq<Event<M>>, n: nat)
    requires WellFormed(hash, original) && RewrittenFrom(hash, original, found, n)
    ensures WellFormed(hash, found)
  {
    forall i | 0 <= i < |found| ensures GoodRow(hash, found, i) {
      if i < n {
        assert GoodRow(hash, original, i) && found[i] == found[..n][i] == original[..n][i];
        assert found[..i] == found[..n][..i] == original[..n][..i] == original[..i];
      }
    }
  }
}
