/**
 * The `service:Action` tokens both scrapers extract from the text of a row's
 * dependent-actions cell: every leftmost, non-overlapping, greedy match of the pattern
 * `([a-z0-9-]+):([A-Z][a-zA-Z0-9]+)`, as Python's `re.findall` reports them.
 */
module DependentPattern {
  import opened Wrappers
  import Text

  /** The class `[a-z0-9-]` of the service part. */
  predicate IsServiceChar(c: char) {
    'a' <= c <= 'z' || '0' <= c <= '9' || c == '-'
  }

  /** The class `[a-zA-Z0-9]` of the action part after its first letter. */
  predicate IsAlnum(c: char) {
    'a' <= c <= 'z' || 'A' <= c <= 'Z' || '0' <= c <= '9'
  }

  /** The end of the longest run of `[a-z0-9-]` characters that starts at `i`. */
  function ServiceRunEnd(s: string, i: nat): (j: nat)
    requires i <= |s|
    ensures i <= j <= |s|
    ensures forall k :: i <= k < j ==> IsServiceChar(s[k])
    ensures j == |s| || !IsServiceChar(s[j])
    decreases |s| - i
  {
    if i < |s| && IsServiceChar(s[i]) then ServiceRunEnd(s, i + 1) else i
  }

  /** The end of the longest run of `[a-zA-Z0-9]` characters that starts at `i`. */
  function AlnumRunEnd(s: string, i: nat): (j: nat)
    requires i <= |s|
    ensures i <= j <= |s|
    ensures forall k :: i <= k < j ==> IsAlnum(s[k])
    ensures j == |s| || !IsAlnum(s[j])
    decreases |s| - i
  {
    if i < |s| && IsAlnum(s[i]) then AlnumRunEnd(s, i + 1) else i
  }

  /** A match of the pattern: group 1 is `s[start..colon]`, group 2 is `s[colon + 1..end]`. */
  datatype Span = Span(start: nat, colon: nat, end: nat)

  /**
   * `m` is the match the regular expression engine finds when it tries position `m.start`:
   * the groups have their classes, and the greedy group 2 stops only where the class does.
   */
  predicate IsMatch(s: string, m: Span) {
    && m.start < m.colon
    && m.colon + 2 < m.end <= |s|
    && (forall k :: m.start <= k < m.colon ==> IsServiceChar(s[k]))
    && s[m.colon] == ':'
    && Text.IsUpper(s[m.colon + 1])
    && (forall k :: m.colon + 2 <= k < m.end ==> IsAlnum(s[k]))
    && (m.end == |s| || !IsAlnum(s[m.end]))
  }

  /** A match that starts at `i` is the one the greedy groups give: it is unique. */
  lemma {:induction false} MatchDetermined(s: string, i: nat)
    requires i < |s|
    ensures forall c: nat, e: nat :: IsMatch(s, Span(i, c, e)) ==>
      c == ServiceRunEnd(s, i) && e == AlnumRunEnd(s, c + 2)
  {
    forall c: nat, e: nat | IsMatch(s, Span(i, c, e))
      ensures c == ServiceRunEnd(s, i) && e == AlnumRunEnd(s, c + 2)
    {
      var colon := ServiceRunEnd(s, i);
      var end := AlnumRunEnd(s, c + 2);
      assert !IsServiceChar(s[c]);
    }
  }

  /** The attempt to match at position `i`: the match the greedy groups give, if they give one. */
  function MatchAt(s: string, i: nat): (r: Option<Span>)
    requires i < |s|
    ensures r.Some? ==> r.value.start == i < r.value.end <= |s|
  {
    var colon := ServiceRunEnd(s, i);
    if i < colon && colon + 2 < |s| && s[colon] == ':' && Text.IsUpper(s[colon + 1]) && IsAlnum(s[colon + 2]) then
      Some(Span(i, colon, AlnumRunEnd(s, colon + 2)))
    else
      None
  }

  /** A successful attempt at `i` is a match of the pattern. */
  lemma MatchAtSound(s: string, i: nat)
    requires i < |s|
    ensures MatchAt(s, i).Some? ==> IsMatch(s, MatchAt(s, i).value)
  {
  }

  /** When the attempt at `i` fails, no match of the pattern starts at `i`. */
  lemma MatchAtComplete(s: string, i: nat)
    requires i < |s|
    ensures MatchAt(s, i).None? <==> forall c: nat, e: nat :: !IsMatch(s, Span(i, c, e))
  {
    MatchDetermined(s, i);
  }

  /** No match starts anywhere in `[lo, hi)`. */
  ghost predicate NoMatchIn(s: string, lo: nat, hi: nat) {
    forall p: nat :: lo <= p < hi && p < |s| ==> MatchAt(s, p).None?
  }

  lemma NoMatchJoin(s: string, lo: nat, mid: nat, hi: nat)
    requires lo <= mid <= hi
    requires NoMatchIn(s, lo, mid) && NoMatchIn(s, mid, hi)
    ensures NoMatchIn(s, lo, hi)
  {
  }

  /** The matches `findall` reports, scanning from `i`: the leftmost match, then the scan after it. */
  function Scan(s: string, i: nat): (r: seq<Span>)
    requires i <= |s|
    ensures forall k :: 0 <= k < |r| ==> i <= r[k].start < r[k].end
    ensures forall k :: 0 < k < |r| ==> r[k - 1].end <= r[k].start
    decreases |s| - i
  {
    if i == |s| then []
    else
      var at := MatchAt(s, i);
      if at.Some? then [at.value] + Scan(s, at.value.end) else Scan(s, i + 1)
  }

  /** `findall` skips no match before the first match it reports. */
  lemma {:induction false} ScanMissesNothingFirst(s: string, i: nat)
    requires i <= |s|
    ensures Scan(s, i) == [] ==> NoMatchIn(s, i, |s|)
    ensures Scan(s, i) != [] ==> NoMatchIn(s, i, Scan(s, i)[0].start)
    decreases |s| - i
  {
    if i < |s| {
      var at := MatchAt(s, i);
      if at.None? {
        ScanMissesNothingFirst(s, i + 1);
        var rest := Scan(s, i + 1);
        assert Scan(s, i) == rest;
        assert NoMatchIn(s, i, i + 1);
        if rest == [] {
          NoMatchJoin(s, i, i + 1, |s|);
        } else {
          NoMatchJoin(s, i, i + 1, rest[0].start);
        }
      }
    }
  }

  /** `findall` skips no match after the last match it reports. */
  lemma {:induction false} ScanMissesNothingLast(s: string, i: nat)
    requires i <= |s|
    requires Scan(s, i) != []
    ensures NoMatchIn(s, LastEnd(Scan(s, i)), |s|)
    decreases |s| - i
  {
    var at := MatchAt(s, i);
    if at.None? {
      assert Scan(s, i) == Scan(s, i + 1);
      ScanMissesNothingLast(s, i + 1);
    } else {
      var rest := Scan(s, at.value.end);
      assert Scan(s, i) == [at.value] + rest;
      if rest == [] {
        ScanMissesNothingFirst(s, at.value.end);
      } else {
        ScanMissesNothingLast(s, at.value.end);
        LastEndCons(at.value, rest);
      }
    }
  }

  /** Where the last of a list of spans ends. */
  function LastEnd(ms: seq<Span>): nat
    requires ms != []
  {
    ms[|ms| - 1].end
  }

  lemma LastEndCons(m: Span, ms: seq<Span>)
    requires ms != []
    ensures LastEnd([m] + ms) == LastEnd(ms)
  {
    assert ([m] + ms)[|ms|] == ms[|ms| - 1];
  }

  /** `findall` skips no match between two consecutive matches it reports. */
  lemma {:induction false} ScanMissesNothingBetween(s: string, i: nat, k: nat)
    requires i <= |s|
    requires 0 < k < |Scan(s, i)|
    ensures NoMatchIn(s, Scan(s, i)[k - 1].end, Scan(s, i)[k].start)
    decreases |s| - i
  {
    var at := MatchAt(s, i);
    if at.None? {
      assert Scan(s, i) == Scan(s, i + 1);
      ScanMissesNothingBetween(s, i + 1, k);
    } else if k == 1 {
      var rest := Scan(s, at.value.end);
      assert Scan(s, i)[0] == at.value && Scan(s, i)[1] == rest[0];
      ScanMissesNothingFirst(s, at.value.end);
    } else {
      var rest := Scan(s, at.value.end);
      assert Scan(s, i)[k - 1] == rest[k - 2] && Scan(s, i)[k] == rest[k - 1];
      ScanMissesNothingBetween(s, at.value.end, k - 1);
    }
  }

  /** Every span `findall` reports is a match of the pattern. */
  lemma {:induction false} ScanSound(s: string, i: nat)
    requires i <= |s|
    ensures forall k :: 0 <= k < |Scan(s, i)| ==> IsMatch(s, Scan(s, i)[k])
    decreases |s| - i
  {
    if i < |s| {
      var at := MatchAt(s, i);
      if at.None? {
        assert Scan(s, i) == Scan(s, i + 1);
        ScanSound(s, i + 1);
      } else {
        MatchAtSound(s, i);
        ScanSound(s, at.value.end);
        assert Scan(s, i) == [at.value] + Scan(s, at.value.end);
      }
    }
  }

  predicate AllServiceChars(s: string) {
    forall k :: 0 <= k < |s| ==> IsServiceChar(s[k])
  }

  predicate AllAlnum(s: string) {
    forall k :: 0 <= k < |s| ==> IsAlnum(s[k])
  }

  /** A token `svc:Act`: `svc` non-empty over `[a-z0-9-]`, `Act` an upper-case letter and one or more of `[a-zA-Z0-9]`. */
  ghost predicate IsDependentActionToken(token: string) {
    exists k :: 0 < k < |token| - 2 && token[k] == ':' && AllServiceChars(token[..k])
      && Text.IsUpper(token[k + 1]) && AllAlnum(token[k + 2..])
  }

  /** The two groups of a match joined by a colon: the matched text itself. */
  function Token(s: string, m: Span): (t: string)
    requires IsMatch(s, m)
    ensures t == s[m.start..m.end]
    ensures IsDependentActionToken(t)
  {
    var t := s[m.start..m.colon] + ":" + s[m.colon + 1..m.end];
    var k := m.colon - m.start;
    assert t == s[m.start..m.end];
    assert t[k] == ':' && t[..k] == s[m.start..m.colon] && t[k + 1] == s[m.colon + 1];
    assert t[k + 2..] == s[m.colon + 2..m.end];
    t
  }

  function Tokens(s: string, ms: seq<Span>): (r: seq<string>)
    requires forall k :: 0 <= k < |ms| ==> IsMatch(s, ms[k])
    ensures |r| == |ms|
    ensures forall k :: 0 <= k < |r| ==> r[k] == Token(s, ms[k])
  {
    if ms == [] then [] else [Token(s, ms[0])] + Tokens(s, ms[1..])
  }

  /** The list comprehension over `re.findall(...)`: one token per match, in text order. */
  function FindAll(text: string): (r: seq<string>)
    ensures forall k :: 0 <= k < |r| ==> IsDependentActionToken(r[k])
    ensures ':' !in text ==> r == []
  {
    var ms := Scan(text, 0);
    ScanSound(text, 0);
    assert ms != [] ==> text[ms[0].colon] == ':';
    Tokens(text, ms)
  }

  /** The loop over the matches that `re.findall` returns: each match's two groups, joined by a colon, are appended. */
  method CollectTokens(text: string) returns (deps: seq<string>)
    ensures deps == FindAll(text)
  {
    var ms := Scan(text, 0);
    ScanSound(text, 0);
    deps := [];
    var i := 0;
    while i < |ms|
      invariant i <= |ms| && |deps| == i
      invariant forall k :: 0 <= k < i ==> deps[k] == Token(text, ms[k])
    {
      deps := deps + [text[ms[i].start..ms[i].colon] + ":" + text[ms[i].colon + 1..ms[i].end]];
      i := i + 1;
    }
  }
}
