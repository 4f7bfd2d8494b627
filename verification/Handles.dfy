/** Saving sealed findings in the vault under the names of their handles, and getting the text back. */
module Handles {
  import opened Basics
  import opened Text
  import opened Findings
  import opened Scanners
  import opened Replace
  import opened Seal
  import opened Vaults

  /** The name a finding is saved under. */
  function RecordName(prefix: string, kind: string, fingerprint: string): string {
    prefix + "/" + kind + "/" + fingerprint
  }

  /** Saving one finding: a name that exists already is no error. */
  function StoredOne(fp: string -> string, s: Store, prefix: string, f: Finding, now: int, saved: bool): Step<()> {
    if !f.shouldSeal then Step(s, Ok(())) else
    var added := KeyAdded(fp, s, RecordName(prefix, f.kind, f.fingerprint), f.value, now, saved);
    if added.answer == Err(CredentialExists) then Step(added.store, Ok(())) else added
  }

  /** Saving the findings from `i` on, up to the first error. */
  function Stored(
    fp: string -> string, s: Store, prefix: string, fs: seq<Finding>, now: int, saved: nat -> bool, i: nat): Step<()>
    requires i <= |fs|
    decreases |fs| - i
  {
    if i == |fs| then Step(s, Ok(())) else
    var one := StoredOne(fp, s, prefix, fs[i], now, saved(i));
    if one.answer.Err? then one else Stored(fp, one.store, prefix, fs, now, saved, i + 1)
  }

  method SaveOne(
    vault: Vault, prefix: string, finding: Finding, now: int, saved: bool) returns (r: Result<(), VaultError>)
    modifies vault
    ensures Step(vault.State(), r) == StoredOne(vault.fingerprint, old(vault.State()), prefix, finding, now, saved)
    ensures
      var name := prefix + "/" + finding.kind + "/" + finding.fingerprint;
      if !finding.shouldSeal then r.Ok? && unchanged(vault)
      else if !NameFits(name) then r == Err(InvalidName) && unchanged(vault)
      else if name in old(vault.data).keys then r.Ok? && unchanged(vault)
      else if PreviewPanics(finding.value) then r == Err(Panicked) && unchanged(vault)
      else KeyWritten(vault.fingerprint, old(vault.data), vault.data, name, finding.value, [], now) &&
           SavedAs(r, saved, vault.data, old(vault.disk), vault.disk)
  {
    r := Ok(());
    if finding.shouldSeal {
      var added := vault.AddKey(prefix + "/" + finding.kind + "/" + finding.fingerprint, finding.value, now, saved);
      if added.Err? && added.error != CredentialExists {
        r := added;
      }
    }
  }

  /** `save_sealed_findings`; `saved` tells which of the saves succeed. */
  method SaveSealedFindings(vault: Vault, prefix: string, findings: seq<Finding>, now: int, saved: nat -> bool)
    returns (r: Result<(), VaultError>)
    modifies vault
    ensures Step(vault.State(), r) == Stored(vault.fingerprint, old(vault.State()), prefix, findings, now, saved, 0)
  {
    for i := 0 to |findings|
      invariant Stored(vault.fingerprint, vault.State(), prefix, findings, now, saved, i)
             == Stored(vault.fingerprint, old(vault.State()), prefix, findings, now, saved, 0)
    {
      var one := SaveOne(vault, prefix, findings[i], now, saved(i));
      if one.Err? {
        return one;
      }
    }
    return Ok(());
  }

  // ---------- unsealing ----------

  /** `fp_` and sixteen hexadecimal digits. */
  const FINGERPRINT_LENGTH: nat := 19

  type Lookup = (string, string) -> Option<string>

  /** The text from `from` on, with every handle that names a stored secret replaced by its value. */
  function Unsealed(text: string, lookup: Lookup, from: nat): string
    requires from <= |text|
    decreases |text| - from
  {
    if from == |text| then "" else
    var slash := if OccursAt(text, SCHEME, from) then FindChar(text, '/', from + |SCHEME|) else None;
    if slash.Some? && slash.value + 1 + FINGERPRINT_LENGTH <= |text| then
      var end := slash.value + 1 + FINGERPRINT_LENGTH;
      var value := lookup(text[from + |SCHEME|..slash.value], text[slash.value + 1..end]);
      if value.Some? then value.value + Unsealed(text, lookup, end) else [text[from]] + Unsealed(text, lookup, from + 1)
    else [text[from]] + Unsealed(text, lookup, from + 1)
  }

  /** The secrets that were saved under a prefix. */
  function SavedUnder(data: VaultData, prefix: string): Lookup {
    (kind, fingerprint) =>
      var name := RecordName(prefix, kind, fingerprint);
      if name in data.keys then Some(data.keys[name].value) else None
  }

  /** A secret is found under its prefix, kind and fingerprint, with slashes between. */
  lemma SavedUnderSpells(data: VaultData, prefix: string, kind: string, fingerprint: string, value: string)
    ensures
      var name := prefix + "/" + kind + "/" + fingerprint;
      SavedUnder(data, prefix)(kind, fingerprint) == Some(value)
      <==> name in data.keys && data.keys[name].value == value
  {}

  /** No end of the scheme is also a beginning of it. */
  lemma SchemeHasNoBorder(n: nat)
    requires 0 < n < |SCHEME|
    ensures SCHEME[|SCHEME| - n..] != SCHEME[..n]
  {
    assert SCHEME[|SCHEME| - n..][n - 1] == '/' && SCHEME[..n][n - 1] == SCHEME[n - 1];
    assert SCHEME[|SCHEME| - n..][0] == SCHEME[|SCHEME| - n] && SCHEME[..n][0] == 'l';
    if n == 11 { assert SCHEME[|SCHEME| - n..][1] == ':' && SCHEME[..n][1] == 'o'; }
  }

  /** Words that overlap in a text share the overlap: the end of the one is the beginning of the other. */
  lemma OverlapIsBorder(text: string, word: string, q: nat, later: nat)
    requires OccursAt(text, word, q) && OccursAt(text, word, later) && q < later < q + |word|
    ensures word[later - q..] == word[..|word| - (later - q)]
  {
    var gap := later - q;
    forall i | 0 <= i < |word| - gap ensures word[gap..][i] == word[..|word| - gap][i] {
      assert text[q..q + |word|][gap + i] == text[later + i] == text[later..later + |word|][i];
    }
  }

  /** The scheme does not stand across the start of a handle. */
  lemma NoneAcross(text: string, q: nat, handle: nat)
    requires OccursAt(text, SCHEME, handle) && q < handle < q + |SCHEME|
    ensures !OccursAt(text, SCHEME, q)
  {
    if OccursAt(text, SCHEME, q) {
      OverlapIsBorder(text, SCHEME, q, handle);
      SchemeHasNoBorder(|SCHEME| - (handle - q));
    }
  }

  lemma CopyOne(text: string, lookup: Lookup, p: nat)
    requires p < |text| && !OccursAt(text, SCHEME, p)
    ensures Unsealed(text, lookup, p) == [text[p]] + Unsealed(text, lookup, p + 1)
  {}

  /** Text in which no handle starts is copied. */
  lemma {:induction false} CopyGap(text: string, lookup: Lookup, from: nat, to: nat)
    requires from <= to <= |text| && forall q :: from <= q < to ==> !OccursAt(text, SCHEME, q)
    ensures Unsealed(text, lookup, from) == text[from..to] + Unsealed(text, lookup, to)
    decreases |text| - from
  {
    if from == to {
      assert text[from..to] == "";
    } else {
      CopyOne(text, lookup, from);
      CopyGap(text, lookup, from + 1, to);
      Associates([text[from]], text[from + 1..to], Unsealed(text, lookup, to));
      assert text[from..to] == [text[from]] + text[from + 1..to];
    }
  }

  /** A handle that is looked up successfully gives way to its value. */
  lemma UnsealHandle(text: string, lookup: Lookup, from: nat, f: Finding)
    requires OccursAt(text, Handle(f), from) && PlainKind(f.kind) && |f.fingerprint| == FINGERPRINT_LENGTH
    requires lookup(f.kind, f.fingerprint) == Some(f.value)
    ensures OccursAt(text, SCHEME, from)
    ensures Unsealed(text, lookup, from) == f.value + Unsealed(text, lookup, from + |Handle(f)|)
  {
    HandleParts(text, from, f);
    FirstSlash(text, from + |SCHEME|, from + |SCHEME| + |f.kind|);
    UnsealAt(text, lookup, from, from + |SCHEME| + |f.kind|, f.value);
  }

  lemma HandleParts(text: string, from: nat, f: Finding)
    requires OccursAt(text, Handle(f), from)
    ensures OccursAt(text, SCHEME, from) && OccursAt(text, f.kind, from + |SCHEME|)
    ensures OccursAt(text, "/", from + |SCHEME| + |f.kind|)
    ensures OccursAt(text, f.fingerprint, from + |SCHEME| + |f.kind| + 1)
    ensures |Handle(f)| == |SCHEME| + |f.kind| + 1 + |f.fingerprint|
  {
    OccursSplit(text, SCHEME + f.kind + "/", f.fingerprint, from);
    OccursSplit(text, SCHEME + f.kind, "/", from);
    OccursSplit(text, SCHEME, f.kind, from);
  }

  lemma UnsealAt(text: string, lookup: Lookup, from: nat, slash: nat, value: string)
    requires OccursAt(text, SCHEME, from) && from + |SCHEME| <= slash
    requires FindChar(text, '/', from + |SCHEME|) == Some(slash) && slash + 1 + FINGERPRINT_LENGTH <= |text|
    requires lookup(text[from + |SCHEME|..slash], text[slash + 1..slash + 1 + FINGERPRINT_LENGTH]) == Some(value)
    ensures Unsealed(text, lookup, from) == value + Unsealed(text, lookup, slash + 1 + FINGERPRINT_LENGTH)
  {}

  lemma OccursSplit(text: string, a: string, b: string, p: nat)
    requires OccursAt(text, a + b, p)
    ensures OccursAt(text, a, p) && OccursAt(text, b, p + |a|)
  {
    assert text[p..p + |a + b|][..|a|] == text[p..p + |a|];
    assert text[p..p + |a + b|][|a|..] == text[p + |a|..p + |a| + |b|];
  }

  /** Equal stretches of two texts hold the same words at the same places. */
  lemma SameWindow(text: string, from: nat, input: string, cursor: nat, n: nat, needle: string, q: nat)
    requires from + n <= |text| && cursor + n <= |input| && text[from..from + n] == input[cursor..cursor + n]
    requires from <= q && q + |needle| <= from + n
    ensures OccursAt(text, needle, q) <==> OccursAt(input, needle, q - from + cursor)
  {
    SliceOfSlice(text, from, n, q - from, |needle|);
    SliceOfSlice(input, cursor, n, q - from, |needle|);
  }

  lemma SliceOfSlice(s: string, from: nat, n: nat, i: nat, m: nat)
    requires from + n <= |s| && i + m <= n
    ensures s[from..from + n][i..i + m] == s[from + i..from + i + m]
  {
    var a, b := s[from..from + n][i..i + m], s[from + i..from + i + m];
    assert |a| == |b| && forall k :: 0 <= k < m ==> a[k] == b[k];
  }

  lemma FirstSlash(text: string, s: nat, slash: nat)
    requires s <= slash < |text| && text[slash] == '/' && PlainKind(text[s..slash])
    ensures FindChar(text, '/', s) == Some(slash)
  {
    assert forall q :: s <= q < slash ==> text[q] == text[s..slash][q - s];
  }

  /** From `cursor` on, every place where the scheme stands in the text overlaps a sealed span. */
  ghost predicate Masked(input: string, fs: seq<Finding>, cursor: nat) {
    forall q: nat :: cursor <= q && OccursAt(input, SCHEME, q) ==>
                       exists k :: k in fs && q < k.end && k.start < q + |SCHEME|
  }

  /** The findings to unseal: genuine parts of the text whose values can be looked up. */
  ghost predicate Recoverable(input: string, fs: seq<Finding>, lookup: Lookup) {
    forall f :: f in fs ==>
                  && f.start < f.end <= |input| && f.value == input[f.start..f.end]
                  && PlainKind(f.kind) && |f.fingerprint| == FINGERPRINT_LENGTH
                  && lookup(f.kind, f.fingerprint) == Some(f.value)
  }

  /** No handle starts in the copied text in front of the first span. */
  lemma GapIsClear(text: string, from: nat, input: string, fs: seq<Finding>, cursor: nat, q: nat)
    requires Spans(input, fs) && fs != [] && cursor <= fs[0].start && Masked(input, fs, cursor)
    requires from <= q < from + (fs[0].start - cursor) <= |text|
    requires text[from..from + (fs[0].start - cursor)] == input[cursor..fs[0].start]
    requires OccursAt(text, SCHEME, from + (fs[0].start - cursor))
    ensures !OccursAt(text, SCHEME, q)
  {
    var gap := fs[0].start - cursor;
    if q + |SCHEME| > from + gap {
      NoneAcross(text, q, from + gap);
    } else {
      SameWindow(text, from, input, cursor, gap, SCHEME, q);
      NoneBeforeFirst(input, fs, cursor, q - from + cursor);
    }
  }

  lemma NoneBeforeFirst(input: string, fs: seq<Finding>, cursor: nat, p: nat)
    requires Spans(input, fs) && fs != [] && Masked(input, fs, cursor) && cursor <= p && p + |SCHEME| <= fs[0].start
    ensures !OccursAt(input, SCHEME, p)
  {
    forall k | k in fs ensures fs[0].start <= k.start {
      var i :| 0 <= i < |fs| && fs[i] == k;
      assert i > 0 ==> fs[0].end <= fs[i].start;
    }
  }

  lemma LastGapIsClear(text: string, from: nat, input: string, cursor: nat)
    requires from <= |text| && cursor <= |input| && text[from..] == input[cursor..] && Masked(input, [], cursor)
    ensures forall q :: from <= q ==> !OccursAt(text, SCHEME, q)
  {
    forall q | from <= q ensures !OccursAt(text, SCHEME, q) {
      if q + |SCHEME| <= |text| {
        assert text[from..|text|] == text[from..] && input[cursor..|input|] == input[cursor..];
        SameWindow(text, from, input, cursor, |text| - from, SCHEME, q);
      }
    }
  }

  lemma MaskedTail(input: string, fs: seq<Finding>, cursor: nat)
    requires fs != [] && Spans(input, fs) && cursor <= fs[0].start && Masked(input, fs, cursor)
    ensures Masked(input, fs[1..], fs[0].end)
  {
    forall q: nat | fs[0].end <= q && OccursAt(input, SCHEME, q)
      ensures exists k :: k in fs[1..] && q < k.end && k.start < q + |SCHEME|
    {
      var k :| k in fs && q < k.end && k.start < q + |SCHEME|;
      assert fs == [fs[0]] + fs[1..] && k != fs[0];
      assert k in fs[1..];
    }
  }

  /** The rewritten text, cut at its first handle. */
  lemma FirstHandle(text: string, from: nat, input: string, fs: seq<Finding>, cursor: nat)
    requires from <= |text| && Spans(input, fs) && fs != [] && cursor <= fs[0].start
    requires text[from..] == Rewritten(input, fs, cursor)
    ensures Spans(input, fs[1..]) && (fs[1..] != [] ==> fs[0].end <= fs[1..][0].start)
    ensures
      var start := from + (fs[0].start - cursor);
      && start + |Handle(fs[0])| <= |text|
      && text[from..start] == input[cursor..fs[0].start]
      && OccursAt(text, Handle(fs[0]), start)
      && text[start + |Handle(fs[0])|..] == Rewritten(input, fs[1..], fs[0].end)
  {
    SpansTail(input, fs, 1);
    ThreeParts(text, from, input[cursor..fs[0].start], Handle(fs[0]), Rewritten(input, fs[1..], fs[0].end));
  }

  lemma ThreeParts(text: string, from: nat, a: string, b: string, c: string)
    requires from <= |text| && text[from..] == a + b + c
    ensures from + |a| + |b| <= |text| && text[from..from + |a|] == a
    ensures OccursAt(text, b, from + |a|) && text[from + |a| + |b|..] == c
  {
    var tail := text[from..];
    assert tail[..|a|] == a && tail[|a|..|a| + |b|] == b && tail[|a| + |b|..] == c;
  }

  lemma FirstGapIsClear(text: string, from: nat, input: string, fs: seq<Finding>, cursor: nat)
    requires Spans(input, fs) && fs != [] && cursor <= fs[0].start && Masked(input, fs, cursor)
    requires from + (fs[0].start - cursor) <= |text|
    requires text[from..from + (fs[0].start - cursor)] == input[cursor..fs[0].start]
    requires OccursAt(text, SCHEME, from + (fs[0].start - cursor))
    ensures forall q :: from <= q < from + (fs[0].start - cursor) ==> !OccursAt(text, SCHEME, q)
  {
    forall q | from <= q < from + (fs[0].start - cursor) ensures !OccursAt(text, SCHEME, q) {
      GapIsClear(text, from, input, fs, cursor, q);
    }
  }

  /** Copied text, then a handle. */
  lemma UnsealUpTo(text: string, lookup: Lookup, from: nat, start: nat, f: Finding)
    requires from <= start && OccursAt(text, Handle(f), start)
    requires PlainKind(f.kind) && |f.fingerprint| == FINGERPRINT_LENGTH
    requires lookup(f.kind, f.fingerprint) == Some(f.value)
    requires forall q :: from <= q < start ==> !OccursAt(text, SCHEME, q)
    ensures Unsealed(text, lookup, from) == text[from..start] + (f.value + Unsealed(text, lookup, start + |Handle(f)|))
  {
    CopyGap(text, lookup, from, start);
    UnsealHandle(text, lookup, start, f);
  }

  lemma UnsealRest(text: string, from: nat, input: string, cursor: nat, lookup: Lookup)
    requires from <= |text| && cursor <= |input| && text[from..] == input[cursor..] && Masked(input, [], cursor)
    ensures Unsealed(text, lookup, from) == input[cursor..]
  {
    LastGapIsClear(text, from, input, cursor);
    CopyGap(text, lookup, from, |text|);
    assert text[from..|text|] + "" == text[from..];
  }

  lemma RecoverableTail(input: string, fs: seq<Finding>, lookup: Lookup)
    requires fs != [] && Recoverable(input, fs, lookup)
    ensures Recoverable(input, fs[1..], lookup) && Recoverable(input, [fs[0]], lookup)
  {
    assert fs[0] in fs && forall g :: g in fs[1..] ==> g in fs;
  }

  lemma ClearGap(text: string, from: nat, input: string, fs: seq<Finding>, cursor: nat, start: nat)
    requires Spans(input, fs) && fs != [] && cursor <= fs[0].start && Masked(input, fs, cursor)
    requires from <= |text| && text[from..] == Rewritten(input, fs, cursor) && start == from + (fs[0].start - cursor)
    ensures forall q :: from <= q < start ==> !OccursAt(text, SCHEME, q)
  {
    FirstHandle(text, from, input, fs, cursor);
    HandleParts(text, start, fs[0]);
    FirstGapIsClear(text, from, input, fs, cursor);
  }

  /** Where the first handle stands, and that nothing in front of it looks like one. */
  lemma CutFirst(text: string, from: nat, input: string, fs: seq<Finding>, cursor: nat) returns (start: nat, end: nat)
    requires Spans(input, fs) && fs != [] && cursor <= fs[0].start && Masked(input, fs, cursor)
    requires from <= |text| && text[from..] == Rewritten(input, fs, cursor)
    ensures from <= start <= end <= |text| && end == start + |Handle(fs[0])|
    ensures OccursAt(text, Handle(fs[0]), start) && text[from..start] == input[cursor..fs[0].start]
    ensures forall q :: from <= q < start ==> !OccursAt(text, SCHEME, q)
    ensures Spans(input, fs[1..]) && (fs[1..] != [] ==> fs[0].end <= fs[1..][0].start)
    ensures text[end..] == Rewritten(input, fs[1..], fs[0].end)
  {
    start := from + (fs[0].start - cursor);
    end := start + |Handle(fs[0])|;
    FirstHandle(text, from, input, fs, cursor);
    ClearGap(text, from, input, fs, cursor, start);
  }

  /** Unsealing the rewritten text gives the original text back. */
  lemma {:induction false} UnsealRewritten(
    text: string, from: nat, input: string, fs: seq<Finding>, cursor: nat, lookup: Lookup)
    requires Spans(input, fs) && cursor <= |input| && (fs != [] ==> cursor <= fs[0].start)
    requires from <= |text| && text[from..] == Rewritten(input, fs, cursor)
    requires Masked(input, fs, cursor) && Recoverable(input, fs, lookup)
    ensures Unsealed(text, lookup, from) == input[cursor..]
    decreases fs
  {
    if fs == [] {
      UnsealRest(text, from, input, cursor, lookup);
    } else {
      RecoverableTail(input, fs, lookup);
      MaskedTail(input, fs, cursor);
      var start, end := CutFirst(text, from, input, fs, cursor);
      UnsealRewritten(text, end, input, fs[1..], fs[0].end, lookup);
      UnsealFirst(text, lookup, from, start, end, input, cursor, fs[0]);
    }
  }

  /** Copied text, a handle, and a rest that is known to unseal. */
  lemma UnsealFirst(
    text: string, lookup: Lookup, from: nat, start: nat, end: nat, input: string, cursor: nat, f: Finding)
    requires from <= start <= end <= |text| && OccursAt(text, Handle(f), start) && end == start + |Handle(f)|
    requires forall q :: from <= q < start ==> !OccursAt(text, SCHEME, q)
    requires Recoverable(input, [f], lookup) && cursor <= f.start < f.end <= |input|
    requires text[from..start] == input[cursor..f.start] && Unsealed(text, lookup, end) == input[f.end..]
    ensures Unsealed(text, lookup, from) == input[cursor..]
  {
    assert f in [f];
    UnsealUpTo(text, lookup, from, start, f);
    ThreePieces(input, cursor, f.start, f.end);
  }

  lemma ThreePieces(input: string, a: nat, b: nat, c: nat)
    requires a <= b <= c <= |input|
    ensures input[a..b] + (input[b..c] + input[c..]) == input[a..]
  {}

  // ---------- what saving leaves in the vault ----------

  function NameOf(prefix: string, f: Finding): string { RecordName(prefix, f.kind, f.fingerprint) }

  /** The vault holds the value of `f` under its name. */
  ghost predicate Recovers(data: VaultData, prefix: string, f: Finding) {
    NameOf(prefix, f) in data.keys && data.keys[NameOf(prefix, f)].value == f.value
  }

  /** Saving one sealed finding with success leaves its value in the vault exactly when nothing else was there. */
  lemma StoredOneIff(fp: string -> string, s: Store, prefix: string, f: Finding, now: int, saved: bool)
    requires f.shouldSeal && StoredOne(fp, s, prefix, f, now, saved).answer.Ok?
    ensures Recovers(StoredOne(fp, s, prefix, f, now, saved).store.mem, prefix, f)
       <==> NameOf(prefix, f) !in s.mem.keys || Recovers(s.mem, prefix, f)
  {}

  /** Saving never replaces a record, and adds one under the name of the finding only. */
  lemma StoredOneKeeps(fp: string -> string, s: Store, prefix: string, f: Finding, now: int, saved: bool)
    requires StoredOne(fp, s, prefix, f, now, saved).answer.Ok?
    ensures
      var after := StoredOne(fp, s, prefix, f, now, saved).store.mem;
      && (forall n :: n in s.mem.keys ==> n in after.keys && after.keys[n] == s.mem.keys[n])
      && (forall n :: n in after.keys && n !in s.mem.keys ==> n == NameOf(prefix, f) && after.keys[n].value == f.value)
      && (f.shouldSeal ==> NameOf(prefix, f) in after.keys)
  {}

  /** Every sealed finding from `i` on is recovered. */
  ghost predicate AllRecovered(data: VaultData, prefix: string, fs: seq<Finding>, i: nat) {
    forall j :: i <= j < |fs| && fs[j].shouldSeal ==> Recovers(data, prefix, fs[j])
  }

  /** No record is there before under the name of a sealed finding with another value. */
  ghost predicate NoStaleRecord(data: VaultData, prefix: string, fs: seq<Finding>, i: nat) {
    forall j :: i <= j < |fs| && fs[j].shouldSeal && NameOf(prefix, fs[j]) in data.keys ==>
                  Recovers(data, prefix, fs[j])
  }

  /** Sealed findings of one name have one value. */
  ghost predicate NamesTellValues(prefix: string, fs: seq<Finding>, i: nat) {
    forall j, k :: i <= j < |fs| && i <= k < |fs| && fs[j].shouldSeal && fs[k].shouldSeal ==>
                     (NameOf(prefix, fs[j]) == NameOf(prefix, fs[k]) ==> fs[j].value == fs[k].value)
  }

  /** When saving succeeds it has kept every record, and every sealed finding has one. */
  lemma {:induction false} StoredKeeps(
    fp: string -> string, s: Store, prefix: string, fs: seq<Finding>, now: int, saved: nat -> bool, i: nat)
    requires i <= |fs| && Stored(fp, s, prefix, fs, now, saved, i).answer.Ok?
    ensures
      var after := Stored(fp, s, prefix, fs, now, saved, i).store.mem;
      && (forall n :: n in s.mem.keys ==> n in after.keys && after.keys[n] == s.mem.keys[n])
      && (forall j :: i <= j < |fs| && fs[j].shouldSeal ==> NameOf(prefix, fs[j]) in after.keys)
    decreases |fs| - i
  {
    if i < |fs| {
      StoredOneKeeps(fp, s, prefix, fs[i], now, saved(i));
      StoredKeeps(fp, StoredOne(fp, s, prefix, fs[i], now, saved(i)).store, prefix, fs, now, saved, i + 1);
    }
  }

  /** After one finding is saved the records still agree with the later ones. */
  lemma NextAgrees(fp: string -> string, s: Store, prefix: string, fs: seq<Finding>, now: int, saved: bool, i: nat)
    requires i < |fs| && StoredOne(fp, s, prefix, fs[i], now, saved).answer.Ok?
    requires NoStaleRecord(s.mem, prefix, fs, i) && NamesTellValues(prefix, fs, i)
    ensures NoStaleRecord(StoredOne(fp, s, prefix, fs[i], now, saved).store.mem, prefix, fs, i + 1)
  {
    var after := StoredOne(fp, s, prefix, fs[i], now, saved).store.mem;
    StoredOneKeeps(fp, s, prefix, fs[i], now, saved);
    forall j | i + 1 <= j < |fs| && fs[j].shouldSeal && NameOf(prefix, fs[j]) in after.keys
      ensures Recovers(after, prefix, fs[j])
    {
      if NameOf(prefix, fs[j]) in s.mem.keys { assert Recovers(s.mem, prefix, fs[j]); }
    }
  }

  lemma {:induction false} AgreeingAreRecovered(
    fp: string -> string, s: Store, prefix: string, fs: seq<Finding>, now: int, saved: nat -> bool, i: nat)
    requires i <= |fs| && Stored(fp, s, prefix, fs, now, saved, i).answer.Ok?
    requires NoStaleRecord(s.mem, prefix, fs, i) && NamesTellValues(prefix, fs, i)
    ensures AllRecovered(Stored(fp, s, prefix, fs, now, saved, i).store.mem, prefix, fs, i)
    decreases |fs| - i
  {
    if i < |fs| {
      var one := StoredOne(fp, s, prefix, fs[i], now, saved(i));
      NextAgrees(fp, s, prefix, fs, now, saved(i), i);
      AgreeingAreRecovered(fp, one.store, prefix, fs, now, saved, i + 1);
      StoredKeeps(fp, one.store, prefix, fs, now, saved, i + 1);
      if fs[i].shouldSeal { StoredOneIff(fp, s, prefix, fs[i], now, saved(i)); }
    }
  }

  /**
   When saving succeeds, every sealed value is found again under its name if and only if no record
   with another value was there before and no two sealed findings share a name but not a value.
   */
  lemma {:induction false} RecoveredIff(
    fp: string -> string, s: Store, prefix: string, fs: seq<Finding>, now: int, saved: nat -> bool)
    requires Stored(fp, s, prefix, fs, now, saved, 0).answer.Ok?
    ensures AllRecovered(Stored(fp, s, prefix, fs, now, saved, 0).store.mem, prefix, fs, 0)
       <==> NoStaleRecord(s.mem, prefix, fs, 0) && NamesTellValues(prefix, fs, 0)
  {
    StoredKeeps(fp, s, prefix, fs, now, saved, 0);
    if NoStaleRecord(s.mem, prefix, fs, 0) && NamesTellValues(prefix, fs, 0) {
      AgreeingAreRecovered(fp, s, prefix, fs, now, saved, 0);
    }
    var after := Stored(fp, s, prefix, fs, now, saved, 0).store.mem;
    if AllRecovered(after, prefix, fs, 0) {
      forall j | 0 <= j < |fs| && fs[j].shouldSeal && NameOf(prefix, fs[j]) in s.mem.keys
        ensures Recovers(s.mem, prefix, fs[j])
      {
        assert Recovers(after, prefix, fs[j]);
      }
      forall j, k | 0 <= j < |fs| && 0 <= k < |fs| && fs[j].shouldSeal && fs[k].shouldSeal
                    && NameOf(prefix, fs[j]) == NameOf(prefix, fs[k]) ensures fs[j].value == fs[k].value
      {
        assert Recovers(after, prefix, fs[j]) && Recovers(after, prefix, fs[k]);
      }
    }
  }

  /** Saving succeeds when the names are valid and every save works: no finding's value makes the preview panic. */
  lemma {:induction false} StoredSucceeds(
    fp: string -> string, s: Store, prefix: string, fs: seq<Finding>, now: int, saved: nat -> bool, i: nat)
    requires i <= |fs| && forall j: nat :: j < |fs| ==> saved(j)
    requires forall j :: 0 <= j < |fs| && fs[j].shouldSeal ==>
                           ValidName(NameOf(prefix, fs[j])) && !PreviewPanics(fs[j].value)
    ensures Stored(fp, s, prefix, fs, now, saved, i).answer.Ok?
    decreases |fs| - i
  {
    if i < |fs| {
      StoredSucceeds(fp, StoredOne(fp, s, prefix, fs[i], now, saved(i)).store, prefix, fs, now, saved, i + 1);
    }
  }

  // ---------- fingerprints ----------

  ghost predicate FixedLength(fp: string -> string) {
    forall v: string :: |fp(v)| == FINGERPRINT_LENGTH
  }

  /** No two of these values share a fingerprint. */
  ghost predicate Distinguishes(fp: string -> string, values: set<string>) {
    forall a, b :: a in values && b in values && fp(a) == fp(b) ==> a == b
  }

  /** The values at hand: those to be sealed and those in the vault. */
  ghost function ValuesAtHand(data: VaultData, fs: seq<Finding>): set<string> {
    (set i | 0 <= i < |fs| && fs[i].shouldSeal :: fs[i].value) + (set n | n in data.keys :: data.keys[n].value)
  }

  /** Every record under the prefix is filed under the fingerprint of its value. */
  ghost predicate Filed(fp: string -> string, data: VaultData, prefix: string) {
    forall kind: string, h: string ::
      |h| == FINGERPRINT_LENGTH && RecordName(prefix, kind, h) in data.keys
      ==> fp(data.keys[RecordName(prefix, kind, h)].value) == h
  }

  ghost predicate Fingerprinted(fp: string -> string, fs: seq<Finding>) {
    forall i :: 0 <= i < |fs| ==> fs[i].fingerprint == fp(fs[i].value)
  }

  lemma NameEndsInFingerprint(prefix: string, kind: string, h: string, kind': string, h': string)
    requires |h| == |h'| && RecordName(prefix, kind, h) == RecordName(prefix, kind', h')
    ensures h == h'
  {
    var name := RecordName(prefix, kind, h);
    assert name[|name| - |h|..] == h && name[|name| - |h'|..] == h';
  }

  /** Fingerprints that tell the values at hand apart make the names tell them apart. */
  lemma DistinctValuesAgree(fp: string -> string, data: VaultData, prefix: string, fs: seq<Finding>)
    requires FixedLength(fp) && Fingerprinted(fp, fs) && Filed(fp, data, prefix)
    requires Distinguishes(fp, ValuesAtHand(data, fs))
    ensures NoStaleRecord(data, prefix, fs, 0) && NamesTellValues(prefix, fs, 0)
  {
    forall j | 0 <= j < |fs| && fs[j].shouldSeal && NameOf(prefix, fs[j]) in data.keys
      ensures Recovers(data, prefix, fs[j])
    {
      var stored := data.keys[NameOf(prefix, fs[j])].value;
      assert fp(stored) == fp(fs[j].value);
      assert stored in ValuesAtHand(data, fs) && fs[j].value in ValuesAtHand(data, fs);
    }
    forall j, k | 0 <= j < |fs| && 0 <= k < |fs| && fs[j].shouldSeal && fs[k].shouldSeal
                  && NameOf(prefix, fs[j]) == NameOf(prefix, fs[k]) ensures fs[j].value == fs[k].value
    {
      NameEndsInFingerprint(prefix, fs[j].kind, fs[j].fingerprint, fs[k].kind, fs[k].fingerprint);
      assert fs[j].value in ValuesAtHand(data, fs) && fs[k].value in ValuesAtHand(data, fs);
    }
  }

  // ---------- the round trip through the vault ----------

  /** The findings whose handles the sealed text holds. */
  ghost function FoundIn(crypto: Crypto, input: string, tables: Tables, options: Options): seq<Finding> {
    Normalized(RawFindings(crypto, input, tables, options))
  }

  lemma RecoveredAreRecoverable(
    crypto: Crypto, input: string, options: Options, found: seq<Finding>, data: VaultData, prefix: string)
    requires FixedLength(crypto.fingerprint) && AllGenuine(crypto, input, options, found)
    requires AllRecovered(data, prefix, found, 0)
    ensures Recoverable(input, Sealable(found), SavedUnder(data, prefix))
  {
    SealableMembers(found);
    forall f | f in Sealable(found)
      ensures f.value == input[f.start..f.end] && SavedUnder(data, prefix)(f.kind, f.fingerprint) == Some(f.value)
    {
      assert Genuine(crypto, input, options, f);
      var j :| 0 <= j < |found| && found[j] == f;
      assert Recovers(data, prefix, found[j]);
    }
  }

  /**
   The round trip: when every place where the scheme stands in the text overlaps a sealed span,
   saving succeeds, no stale record is in the way and names tell the sealed values apart, then
   replacing each handle of the sealed text by the value stored under its name gives back the text.
   */
  lemma {:induction false} SealRoundTrip(
    crypto: Crypto, input: string, tables: Tables, options: Options, s: Store, prefix: string, now: int,
    saved: nat -> bool)
    requires FixedLength(crypto.fingerprint) && Masked(input, Sealable(FoundIn(crypto, input, tables, options)), 0)
    requires Stored(crypto.fingerprint, s, prefix, FoundIn(crypto, input, tables, options), now, saved, 0).answer.Ok?
    requires NoStaleRecord(s.mem, prefix, FoundIn(crypto, input, tables, options), 0)
    requires NamesTellValues(prefix, FoundIn(crypto, input, tables, options), 0)
    ensures
      var found := FoundIn(crypto, input, tables, options);
      var after := Stored(crypto.fingerprint, s, prefix, found, now, saved, 0).store.mem;
      Spans(input, Sealable(found)) &&
      Unsealed(PerPosition(input, Sealable(found), 0), SavedUnder(after, prefix), 0) == input
  {
    var found := FoundIn(crypto, input, tables, options);
    var after := Stored(crypto.fingerprint, s, prefix, found, now, saved, 0).store.mem;
    RawAreGenuine(crypto, input, tables, options);
    NormalizedAreGenuine(crypto, input, options, RawFindings(crypto, input, tables, options));
    SealedMeetsSpans(crypto, input, tables, options);
    AgreeingAreRecovered(crypto.fingerprint, s, prefix, found, now, saved, 0);
    RecoveredAreRecoverable(crypto, input, options, found, after, prefix);
    UnsealSealed(input, Sealable(found), SavedUnder(after, prefix));
  }

  /** In terms of fingerprints: they need only tell the values at hand apart. */
  lemma {:induction false} SealRoundTripDistinct(
    crypto: Crypto, input: string, tables: Tables, options: Options, s: Store, prefix: string, now: int,
    saved: nat -> bool)
    requires FixedLength(crypto.fingerprint) && Masked(input, Sealable(FoundIn(crypto, input, tables, options)), 0)
    requires Stored(crypto.fingerprint, s, prefix, FoundIn(crypto, input, tables, options), now, saved, 0).answer.Ok?
    requires Filed(crypto.fingerprint, s.mem, prefix)
    requires Distinguishes(crypto.fingerprint, ValuesAtHand(s.mem, FoundIn(crypto, input, tables, options)))
    ensures
      var found := FoundIn(crypto, input, tables, options);
      var after := Stored(crypto.fingerprint, s, prefix, found, now, saved, 0).store.mem;
      Spans(input, Sealable(found)) &&
      Unsealed(PerPosition(input, Sealable(found), 0), SavedUnder(after, prefix), 0) == input
  {
    var found := FoundIn(crypto, input, tables, options);
    RawAreGenuine(crypto, input, tables, options);
    NormalizedAreGenuine(crypto, input, options, RawFindings(crypto, input, tables, options));
    GenuineFingerprints(crypto, input, options, found);
    DistinctValuesAgree(crypto.fingerprint, s.mem, prefix, found);
    SealRoundTrip(crypto, input, tables, options, s, prefix, now, saved);
  }

  /** Into an empty vault whose saves work: the fingerprints need only tell the sealed values apart. */
  lemma {:induction false} SealRoundTripFresh(
    crypto: Crypto, input: string, tables: Tables, options: Options, prefix: string, now: int, saved: nat -> bool)
    requires FixedLength(crypto.fingerprint) && !Contains(input, SCHEME)
    requires forall j: nat :: saved(j)
    requires forall f :: f in FoundIn(crypto, input, tables, options) && f.shouldSeal ==> ValidName(NameOf(prefix, f))
    requires Distinguishes(crypto.fingerprint, ValuesAtHand(EMPTY, FoundIn(crypto, input, tables, options)))
    ensures
      var found := FoundIn(crypto, input, tables, options);
      var step := Stored(crypto.fingerprint, Store(EMPTY, EMPTY), prefix, found, now, saved, 0);
      && step.answer.Ok? && Spans(input, Sealable(found))
      && Unsealed(PerPosition(input, Sealable(found), 0), SavedUnder(step.store.mem, prefix), 0) == input
  {
    var found := FoundIn(crypto, input, tables, options);
    FoundArePreviewable(crypto, input, tables, options);
    assert forall j :: 0 <= j < |found| ==> found[j] in found;
    StoredSucceeds(crypto.fingerprint, Store(EMPTY, EMPTY), prefix, found, now, saved, 0);
    NoSchemeIsMasked(input, Sealable(found));
    SealRoundTripDistinct(crypto, input, tables, options, Store(EMPTY, EMPTY), prefix, now, saved);
  }

  lemma FoundArePreviewable(crypto: Crypto, input: string, tables: Tables, options: Options)
    ensures forall f :: f in FoundIn(crypto, input, tables, options) ==> !PreviewPanics(f.value)
  {
    var raw := RawFindings(crypto, input, tables, options);
    RawAreGenuine(crypto, input, tables, options);
    assert forall i :: 0 <= i < |raw| ==> raw[i] in raw;
    NormalizedIsDisjoint(raw);
    forall f | f in Normalized(raw) ensures !PreviewPanics(f.value) {
      assert f in multiset(Normalized(raw)) && f in raw;
      FoundValuesAreSafe(crypto, input, tables, options, f);
    }
  }

  lemma GenuineFingerprints(crypto: Crypto, input: string, options: Options, fs: seq<Finding>)
    requires AllGenuine(crypto, input, options, fs)
    ensures Fingerprinted(crypto.fingerprint, fs)
  {
    assert forall i :: 0 <= i < |fs| ==> fs[i] in fs;
  }

  lemma UnsealSealed(input: string, fs: seq<Finding>, lookup: Lookup)
    requires Spans(input, fs) && Masked(input, fs, 0) && Recoverable(input, fs, lookup)
    ensures Unsealed(PerPosition(input, fs, 0), lookup, 0) == input
  {
    RewrittenPerPosition(input, fs, 0);
    var text := PerPosition(input, fs, 0);
    assert text[0..] == text && input[0..] == input;
    UnsealRewritten(text, 0, input, fs, 0, lookup);
  }

  /** The scheme standing nowhere in the text is enough for the first condition. */
  lemma NoSchemeIsMasked(input: string, fs: seq<Finding>)
    requires !Contains(input, SCHEME)
    ensures Masked(input, fs, 0)
  {}

  /** Without it the trip can fail: a handle copied from the input is unsealed like any other. */
  lemma CopiedHandleIsReplaced(f: Finding, lookup: Lookup)
    requires PlainKind(f.kind) && |f.fingerprint| == FINGERPRINT_LENGTH
    requires lookup(f.kind, f.fingerprint) == Some(f.value)
    ensures PerPosition(Handle(f), [], 0) == Handle(f) && Unsealed(Handle(f), lookup, 0) == f.value
  {
    var input := Handle(f);
    RewrittenPerPosition(input, [], 0);
    assert input[0..] == input && input[0..|input|] == input && f.value + "" == f.value;
    UnsealHandle(input, lookup, 0, f);
  }

  /** A handle with a value stands at `p`, its kind up to the first slash at `slash`. */
  predicate KnownHandle(text: string, lookup: Lookup, p: nat, slash: nat) {
    && OccursAt(text, SCHEME, p) && p + |SCHEME| <= slash && slash + 20 <= |text| && text[slash] == '/'
    && (forall q :: p + |SCHEME| <= q < slash ==> text[q] != '/')
    && lookup(text[p + |SCHEME|..slash], text[slash + 1..slash + 20]) != None
  }

  lemma UnknownCopied(text: string, lookup: Lookup, p: nat, slash: Option<nat>)
    requires OccursAt(text, SCHEME, p) && slash == FindChar(text, '/', p + |SCHEME|)
    requires slash.Some? && slash.value + 20 <= |text| ==>
               lookup(text[p + |SCHEME|..slash.value], text[slash.value + 1..slash.value + 20]) == None
    ensures Unsealed(text, lookup, p) == [text[p]] + Unsealed(text, lookup, p + 1)
  {}

  lemma UnknownStep(text: string, lookup: Lookup, p: nat)
    requires p < |text| && forall slash: nat :: !KnownHandle(text, lookup, p, slash)
    ensures Unsealed(text, lookup, p) == [text[p]] + Unsealed(text, lookup, p + 1)
  {
    if OccursAt(text, SCHEME, p) {
      var slash := FindChar(text, '/', p + |SCHEME|);
      if slash.Some? { assert !KnownHandle(text, lookup, p, slash.value); }
      UnknownCopied(text, lookup, p, slash);
    } else {
      CopyOne(text, lookup, p);
    }
  }

  /** Text without known handles is left as it is, unknown handles included. */
  lemma {:induction false} UnknownStays(text: string, lookup: Lookup, from: nat)
    requires from <= |text| && forall p: nat, slash: nat :: from <= p ==> !KnownHandle(text, lookup, p, slash)
    ensures Unsealed(text, lookup, from) == text[from..]
    decreases |text| - from
  {
    if from < |text| {
      UnknownStep(text, lookup, from);
      UnknownStays(text, lookup, from + 1);
    }
  }

  /** A record that was there before stays, and saving reports success. */
  lemma ExistingRecordWins(fp: string -> string, s: Store, prefix: string, f: Finding, now: int, saved: bool)
    requires NameOf(prefix, f) in s.mem.keys && ValidName(NameOf(prefix, f))
    ensures StoredOne(fp, s, prefix, f, now, saved) == Step(s, Ok(()))
    ensures SavedUnder(s.mem, prefix)(f.kind, f.fingerprint) == Some(s.mem.keys[NameOf(prefix, f)].value)
  {}
}
