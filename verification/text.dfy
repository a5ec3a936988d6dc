/** String primitives shared by every bot: substring search, Python's
    `split(sep)[k]`, `str.replace`, ASCII `lower()`, JavaScript `trim()`, and
    the two regular expressions whose only use is to cut a sitekey out of
    text (`data-sitekey="([^"]+)"` and `sitekey=([^&]+)`). */
module Text {

  datatype Option<T> = None | Some(value: T)

  /** `sub` occurs in `s` starting at index `i`. */
  predicate OccursAt(s: string, sub: string, i: nat) {
    i + |sub| <= |s| && forall m :: 0 <= m < |sub| ==> s[i + m] == sub[m]
  }

  /** Python's `sub in s`, JavaScript's `s.includes(sub)`: `sub` occurs at
      some index of `s`. */
  predicate Contains(s: string, sub: string) {
    exists i: nat :: i <= |s| && OccursAt(s, sub, i)
  }

  /** A witness position is enough to conclude `Contains`. */
  lemma OccursAtContains(s: string, sub: string, i: nat)
    requires OccursAt(s, sub, i)
    ensures Contains(s, sub)
  {
  }

  /** Being a prefix is occurring at index 0. */
  lemma PrefixOccurs(s: string, sub: string)
    ensures sub <= s <==> OccursAt(s, sub, 0)
  {
    if OccursAt(s, sub, 0) {
      assert sub == s[..|sub|];
    }
  }

  /** Two adjacent occurrences make one occurrence of the concatenation. */
  lemma OccursAtConcat(s: string, a: string, b: string, i: nat)
    requires OccursAt(s, a, i) && OccursAt(s, b, i + |a|)
    ensures OccursAt(s, a + b, i)
  {
    forall m | 0 <= m < |a + b| ensures s[i + m] == (a + b)[m] {
      if m >= |a| {
        assert s[i + |a| + (m - |a|)] == b[m - |a|];
      }
    }
  }

  /** An occurrence of `a + b` is an occurrence of `a` followed by one of `b`. */
  lemma OccursAtSplit(s: string, a: string, b: string, i: nat)
    requires OccursAt(s, a + b, i)
    ensures OccursAt(s, a, i) && OccursAt(s, b, i + |a|)
  {
    forall m | 0 <= m < |a| ensures s[i + m] == a[m] {
      assert (a + b)[m] == a[m];
    }
    forall m | 0 <= m < |b| ensures s[i + |a| + m] == b[m] {
      assert s[i + (|a| + m)] == (a + b)[|a| + m];
    }
  }

  /** Whatever contains `a + b` contains `a`. */
  lemma ContainsPrefixOfPattern(s: string, a: string, b: string)
    requires Contains(s, a + b)
    ensures Contains(s, a)
  {
    var i: nat :| i <= |s| && OccursAt(s, a + b, i);
    OccursAtSplit(s, a, b, i);
  }

  /** Whatever contains `a + b` contains `b`. */
  lemma ContainsSuffixOfPattern(s: string, a: string, b: string)
    requires Contains(s, a + b)
    ensures Contains(s, b)
  {
    var i: nat :| i <= |s| && OccursAt(s, a + b, i);
    OccursAtSplit(s, a, b, i);
    OccursAtContains(s, b, i + |a|);
  }

  /** Occurrences in a suffix are occurrences in the whole, shifted. */
  lemma OccursAtDrop(s: string, sub: string, k: nat, j: nat)
    requires k <= |s|
    ensures OccursAt(s[k..], sub, j) <==> OccursAt(s, sub, k + j)
  {
    if OccursAt(s, sub, k + j) {
      forall m | 0 <= m < |sub| ensures s[k..][j + m] == sub[m] {
        assert s[k + j + m] == sub[m];
      }
    }
    if OccursAt(s[k..], sub, j) {
      forall m | 0 <= m < |sub| ensures s[k + j + m] == sub[m] {
        assert s[k..][j + m] == sub[m];
      }
    }
  }

  /** Whatever the tail of `s` contains, `s` contains. */
  lemma ContainsOfTail(s: string, sub: string)
    requires s != [] && Contains(s[1..], sub)
    ensures Contains(s, sub)
  {
    var i: nat :| i <= |s[1..]| && OccursAt(s[1..], sub, i);
    OccursAtDrop(s, sub, 1, i);
  }

  /** Where a string occurs, so does each of its prefixes. */
  lemma OccursAtPrefix(s: string, sub: string, p: string, i: nat)
    requires OccursAt(s, sub, i) && p <= sub
    ensures OccursAt(s, p, i)
  {
    forall m | 0 <= m < |p| ensures s[i + m] == p[m] {
      assert sub[m] == p[m];
    }
  }

  /** Occurrences inside a prefix of `s` are occurrences in `s`. */
  lemma OccursAtTake(s: string, sub: string, n: nat, j: nat)
    requires n <= |s| && OccursAt(s[..n], sub, j)
    ensures OccursAt(s, sub, j)
  {
    forall m | 0 <= m < |sub| ensures s[j + m] == sub[m] {
      assert s[..n][j + m] == sub[m];
    }
  }

  /** The first index at or after `from` at which `sub` occurs in `s`
      (Python's `s.find(sub, from)`). */
  function IndexFrom(s: string, sub: string, from: nat): (r: Option<nat>)
    ensures r.Some? ==> from <= r.value && OccursAt(s, sub, r.value)
    ensures r.Some? ==> forall j: nat :: from <= j < r.value ==> !OccursAt(s, sub, j)
    ensures r.None? ==> forall j: nat :: from <= j ==> !OccursAt(s, sub, j)
    decreases |s| - from
  {
    if from > |s| then None
    else if OccursAt(s, sub, from) then Some(from)
    else IndexFrom(s, sub, from + 1)
  }

  /** The first index at which `sub` occurs in `s` (Python's `s.find(sub)`). */
  function IndexOf(s: string, sub: string): (r: Option<nat>)
    ensures r.Some? ==> OccursAt(s, sub, r.value)
    ensures r.Some? ==> forall j: nat :: j < r.value ==> !OccursAt(s, sub, j)
    ensures r.None? <==> !Contains(s, sub)
  {
    IndexFrom(s, sub, 0)
  }

  /** Python's `s.split(sep)[0]`: the text before the first `sep`, or all of `s`. */
  function BeforeFirst(s: string, sep: string): (r: string)
    requires |sep| > 0
    ensures r <= s
    ensures !Contains(r, sep)
    ensures Contains(s, sep) ==> OccursAt(s, sep, |r|)
    ensures !Contains(s, sep) ==> r == s
    ensures forall j: nat :: j < |r| ==> !OccursAt(s, sep, j)
  {
    match IndexOf(s, sep)
    case None => s
    case Some(i) =>
      NoEarlierOccurrence(s, sep, i);
      s[..i]
  }

  /** A prefix that stops before the first `sep` has no `sep` in it. */
  lemma NoEarlierOccurrence(s: string, sep: string, i: nat)
    requires i <= |s|
    requires forall j: nat :: j < i ==> !OccursAt(s, sep, j)
    requires |sep| > 0
    ensures !Contains(s[..i], sep)
  {
    forall j: nat | j <= i ensures !OccursAt(s[..i], sep, j) {
      if OccursAt(s[..i], sep, j) {
        OccursAtTake(s, sep, i, j);
      }
    }
  }

  /** `r` is the text of `s` from index `k` up to the next occurrence of
      `sep` or to the end of `s`: no `sep` starts inside it. */
  predicate RunUntil(s: string, sep: string, k: nat, r: string) {
    OccursAt(s, r, k) && (forall j: nat :: k <= j < k + |r| ==> !OccursAt(s, sep, j))
    && (k + |r| == |s| || OccursAt(s, sep, k + |r|))
  }

  /** The run from `k` to the next `sep` (Python's `s[k:s.find(sep, k)]`,
      or `s[k:]` when there is none). */
  function RunFrom(s: string, sep: string, k: nat): (r: string)
    requires k <= |s|
    ensures RunUntil(s, sep, k, r)
  {
    match IndexFrom(s, sep, k)
    case None => s[k..]
    case Some(j) => s[k..j]
  }

  /** A run read from `s` has no `sep` of its own. */
  lemma RunHasNoSep(s: string, sep: string, k: nat, r: string)
    requires |sep| > 0 && RunUntil(s, sep, k, r)
    ensures !Contains(r, sep)
  {
    forall m: nat | m <= |r| ensures !OccursAt(r, sep, m) {
      if OccursAt(r, sep, m) {
        forall t | 0 <= t < |sep| ensures s[k + m + t] == sep[t] {
          assert r[m + t] == sep[t];
          assert s[k + (m + t)] == r[m + t];
        }
        assert OccursAt(s, sep, k + m);
      }
    }
  }

  /** Python's `s.split(sep)[1]` when `sep in s`: the text right after the
      first `sep`, up to the next `sep` or the end of `s`. */
  function SecondPiece(s: string, sep: string): (r: string)
    requires |sep| > 0 && Contains(s, sep)
    ensures RunUntil(s, sep, IndexOf(s, sep).value + |sep|, r)
    ensures !Contains(r, sep)
    ensures Contains(s, sep + r)
  {
    var i := IndexOf(s, sep).value;
    var r := RunFrom(s, sep, i + |sep|);
    RunHasNoSep(s, sep, i + |sep|, r);
    OccursAtConcat(s, sep, r, i);
    r
  }

  /** `BeforeFirst(piece, [c])` of a `piece` found at `k` in `s`, read as
      positions of `s`: no `c` inside, and a `c` right after it unless it
      is the whole piece. */
  lemma BeforeCharWithin(s: string, k: nat, piece: string, c: char)
    requires OccursAt(s, piece, k)
    ensures forall j :: k <= j < k + |BeforeFirst(piece, [c])| ==> s[j] != c
    ensures |BeforeFirst(piece, [c])| < |piece| ==> s[k + |BeforeFirst(piece, [c])|] == c
  {
    var r := BeforeFirst(piece, [c]);
    forall j | k <= j < k + |r| ensures s[j] != c {
      assert !OccursAt(piece, [c], j - k);
      assert s[k + (j - k)] == piece[j - k];
    }
    if |r| < |piece| {
      assert OccursAt(piece, [c], |r|);
      assert piece[|r| + 0] == [c][0];
      assert s[k + |r|] == piece[|r|];
    }
  }

  /** Python's `s.replace(pat, rep)`: every non-overlapping occurrence of
      `pat`, scanning left to right, is replaced by `rep`. */
  function ReplaceAll(s: string, pat: string, rep: string): string
    requires |pat| > 0
    decreases |s|
  {
    if s == [] then []
    else if pat <= s then rep + ReplaceAll(s[|pat|..], pat, rep)
    else [s[0]] + ReplaceAll(s[1..], pat, rep)
  }

  /** Replacing a pattern that does not occur leaves the string as it is. */
  lemma {:induction false} ReplaceAbsent(s: string, pat: string, rep: string)
    requires |pat| > 0 && !Contains(s, pat)
    ensures ReplaceAll(s, pat, rep) == s
    decreases |s|
  {
    if s != [] {
      PrefixOccurs(s, pat);
      forall i: nat | i <= |s[1..]| ensures !OccursAt(s[1..], pat, i) {
        OccursAtDrop(s, pat, 1, i);
      }
      ReplaceAbsent(s[1..], pat, rep);
    }
  }

  /** Copying a first character that does not start the pattern. */
  lemma ReplaceCons(c: char, s: string, pat: string, rep: string)
    requires |pat| > 0 && !(pat <= [c] + s)
    ensures ReplaceAll([c] + s, pat, rep) == [c] + ReplaceAll(s, pat, rep)
  {
    assert ([c] + s)[1..] == s;
  }

  /** Replacing at a position where the pattern starts. */
  lemma ReplaceHead(s: string, pat: string, rep: string)
    requires |pat| > 0
    ensures ReplaceAll(pat + s, pat, rep) == rep + ReplaceAll(s, pat, rep)
  {
    assert pat <= pat + s;
    assert (pat + s)[|pat|..] == s;
  }

  /** A prefix in which the pattern starts nowhere is copied unchanged. */
  lemma {:induction false} ReplaceUntouched(p: string, s: string, pat: string, rep: string)
    requires |pat| > 0
    requires forall i :: 0 <= i < |p| ==> !(pat <= (p + s)[i..])
    ensures ReplaceAll(p + s, pat, rep) == p + ReplaceAll(s, pat, rep)
    decreases |p|
  {
    if p != [] {
      assert (p + s)[1..] == p[1..] + s;
      assert forall i :: 0 <= i < |p[1..]| ==> (p[1..] + s)[i..] == (p + s)[i + 1..];
      ReplaceUntouched(p[1..], s, pat, rep);
      assert !(pat <= (p + s)[0..]);
      assert (p + s)[0..] == p + s;
    }
  }

  /** ASCII case folding of one character (Python's `lower()` on ASCII). */
  function LowerChar(c: char): (r: char)
    ensures 'A' <= c <= 'Z' ==> 'a' <= r <= 'z'
    ensures !('A' <= c <= 'Z') ==> r == c
  {
    if 'A' <= c <= 'Z' then (c as int + 32) as char else c
  }

  function Lower(s: string): (r: string)
    ensures |r| == |s|
    ensures forall i :: 0 <= i < |s| ==> r[i] == LowerChar(s[i])
  {
    seq(|s|, i requires 0 <= i < |s| => LowerChar(s[i]))
  }

  /** Whitespace as JavaScript's `trim()` sees it, restricted to the
      characters the portal's pages use (ASCII blanks, NBSP, BOM). */
  predicate IsSpace(c: char) {
    c == ' ' || c == '\t' || c == '\n' || c == '\r' || c == '\U{000B}' || c == '\U{000C}'
    || c == '\U{00A0}' || c == '\U{FEFF}'
  }

  /** Drops the leading whitespace. */
  function TrimStart(s: string): string
    decreases |s|
  {
    if s != [] && IsSpace(s[0]) then TrimStart(s[1..]) else s
  }

  /** Drops the trailing whitespace. */
  function TrimEnd(s: string): string
    decreases |s|
  {
    if s != [] && IsSpace(s[|s| - 1]) then TrimEnd(s[..|s| - 1]) else s
  }

  /** JavaScript's `s.trim()`. */
  function Trim(s: string): string {
    TrimEnd(TrimStart(s))
  }

  /** `TrimStart` keeps a suffix that starts with a non-blank, and drops
      only blanks. */
  lemma {:induction false} TrimStartShape(s: string)
    ensures |TrimStart(s)| <= |s| && TrimStart(s) == s[|s| - |TrimStart(s)|..]
    ensures TrimStart(s) == [] || !IsSpace(TrimStart(s)[0])
    ensures forall i :: 0 <= i < |s| - |TrimStart(s)| ==> IsSpace(s[i])
    decreases |s|
  {
    if s != [] && IsSpace(s[0]) {
      TrimStartShape(s[1..]);
    }
  }

  /** `TrimEnd` keeps a prefix that ends with a non-blank, and drops only
      blanks. */
  lemma {:induction false} TrimEndShape(s: string)
    ensures TrimEnd(s) <= s
    ensures TrimEnd(s) == [] || !IsSpace(TrimEnd(s)[|TrimEnd(s)| - 1])
    ensures forall i :: |TrimEnd(s)| <= i < |s| ==> IsSpace(s[i])
    decreases |s|
  {
    if s != [] && IsSpace(s[|s| - 1]) {
      TrimEndShape(s[..|s| - 1]);
    }
  }

  /** `s.trim()` is empty exactly when `s` is all whitespace. */
  lemma TrimEmptyIffBlank(s: string)
    ensures Trim(s) == [] <==> forall i :: 0 <= i < |s| ==> IsSpace(s[i])
  {
    var t := TrimStart(s);
    TrimStartShape(s);
    TrimEndShape(t);
    if t != [] {
      assert s[|s| - |t|] == t[0];
    }
  }

  /** The longest prefix of `t` without the character `stop`. */
  function TakeUntil(t: string, stop: char): (r: string)
    ensures r <= t
    ensures forall i :: 0 <= i < |r| ==> r[i] != stop
    ensures |r| < |t| ==> t[|r|] == stop
    decreases |t|
  {
    if t == [] || t[0] == stop then [] else [t[0]] + TakeUntil(t[1..], stop)
  }

  /** Leftmost match of the regular expression `prefix([^stop]+)` (or
      `prefix([^stop]+)stop` when `closed`), returning the captured group:
      the regex engine tries each occurrence of `prefix` from the left and
      takes the greedy run of non-`stop` characters after it. */
  function Capture(s: string, prefix: string, stop: char, closed: bool): (r: Option<string>)
    ensures r.Some? ==> |r.value| > 0 && Contains(s, prefix + r.value)
    ensures r.Some? ==> forall i :: 0 <= i < |r.value| ==> r.value[i] != stop
    decreases |s|
  {
    var group := if prefix <= s then TakeUntil(s[|prefix|..], stop) else [];
    if prefix <= s && |group| > 0 && (!closed || |group| < |s| - |prefix|) then
      assert prefix + group <= s;
      PrefixOccurs(s, prefix + group);
      Some(group)
    else if s == [] then None
    else
      var r := Capture(s[1..], prefix, stop, closed);
      if r.Some? then
        ContainsOfTail(s, prefix + r.value);
        r
      else r
  }

  /** The greedy group of `prefix([^stop]+)` tried at index `i`. */
  function GroupAt(s: string, prefix: string, stop: char, i: nat): string
    requires i + |prefix| <= |s|
  {
    TakeUntil(s[i + |prefix|..], stop)
  }

  /** The regular expression matches at `i`: `prefix` occurs there, the
      group after it is not empty, and, when `closed`, a `stop` follows. */
  predicate MatchAt(s: string, prefix: string, stop: char, closed: bool, i: nat) {
    OccursAt(s, prefix, i) && |GroupAt(s, prefix, stop, i)| > 0
    && (!closed || i + |prefix| + |GroupAt(s, prefix, stop, i)| < |s|)
  }

  /** The regular expression matches at `i` and nowhere before. */
  predicate FirstMatchAt(s: string, prefix: string, stop: char, closed: bool, i: nat) {
    MatchAt(s, prefix, stop, closed, i) && forall j: nat :: j < i ==> !MatchAt(s, prefix, stop, closed, j)
  }

  /** Dropping the first character moves every match one place left. */
  lemma MatchAtShift(s: string, prefix: string, stop: char, closed: bool, i: nat)
    requires s != []
    ensures MatchAt(s[1..], prefix, stop, closed, i) <==> MatchAt(s, prefix, stop, closed, i + 1)
  {
    if i + |prefix| <= |s[1..]| {
      assert s[1..][i..i + |prefix|] == s[i + 1..i + 1 + |prefix|];
      assert s[1..][i + |prefix|..] == s[i + 1 + |prefix|..];
    }
  }

  /** One step of `Capture`: a match at index 0 is taken, otherwise the
      search goes on one character later. */
  lemma CaptureStep(s: string, prefix: string, stop: char, closed: bool)
    ensures MatchAt(s, prefix, stop, closed, 0) ==>
      Capture(s, prefix, stop, closed) == Some(GroupAt(s, prefix, stop, 0))
    ensures !MatchAt(s, prefix, stop, closed, 0) && s != [] ==>
      Capture(s, prefix, stop, closed) == Capture(s[1..], prefix, stop, closed)
    ensures !MatchAt(s, prefix, stop, closed, 0) && s == [] ==> Capture(s, prefix, stop, closed).None?
  {
    if prefix <= s {
      assert OccursAt(s, prefix, 0);
    } else {
      assert !OccursAt(s, prefix, 0);
    }
  }

  /** Without a match at index 0, the matches of `s` are those of `s[1..]`
      moved one place right. */
  lemma MatchesOfTail(s: string, prefix: string, stop: char, closed: bool)
    requires s != [] && !MatchAt(s, prefix, stop, closed, 0)
    ensures (exists i: nat :: MatchAt(s, prefix, stop, closed, i)) <==>
      exists i: nat :: MatchAt(s[1..], prefix, stop, closed, i)
    ensures forall i: nat :: FirstMatchAt(s[1..], prefix, stop, closed, i) ==>
      FirstMatchAt(s, prefix, stop, closed, i + 1) && GroupAt(s[1..], prefix, stop, i) == GroupAt(s, prefix, stop, i + 1)
  {
    forall i: nat ensures MatchAt(s[1..], prefix, stop, closed, i) <==> MatchAt(s, prefix, stop, closed, i + 1) {
      MatchAtShift(s, prefix, stop, closed, i);
    }
    forall i: nat | MatchAt(s, prefix, stop, closed, i) ensures MatchAt(s[1..], prefix, stop, closed, i - 1) {
    }
    forall i: nat | FirstMatchAt(s[1..], prefix, stop, closed, i)
      ensures FirstMatchAt(s, prefix, stop, closed, i + 1) && GroupAt(s[1..], prefix, stop, i) == GroupAt(s, prefix, stop, i + 1)
    {
      assert s[1..][i + |prefix|..] == s[i + 1 + |prefix|..];
      forall j: nat | j < i + 1 ensures !MatchAt(s, prefix, stop, closed, j) {
        if j > 0 {
          assert !MatchAt(s[1..], prefix, stop, closed, j - 1);
        }
      }
    }
  }

  /** `Capture` is the leftmost match: it finds a group exactly when the
      regular expression matches somewhere, and then the group of the
      first index where it does. */
  lemma {:induction false} CaptureIsFirstMatch(s: string, prefix: string, stop: char, closed: bool)
    ensures Capture(s, prefix, stop, closed).Some? <==> exists i: nat :: MatchAt(s, prefix, stop, closed, i)
    ensures Capture(s, prefix, stop, closed).Some? ==>
      exists i: nat :: FirstMatchAt(s, prefix, stop, closed, i)
        && Capture(s, prefix, stop, closed).value == GroupAt(s, prefix, stop, i)
    decreases |s|
  {
    CaptureStep(s, prefix, stop, closed);
    if MatchAt(s, prefix, stop, closed, 0) {
      assert FirstMatchAt(s, prefix, stop, closed, 0);
    } else if s == [] {
      forall i: nat ensures !MatchAt(s, prefix, stop, closed, i) {
        if i == 0 && OccursAt(s, prefix, i) {
          assert GroupAt(s, prefix, stop, i) == [];
        }
      }
    } else {
      CaptureIsFirstMatch(s[1..], prefix, stop, closed);
      MatchesOfTail(s, prefix, stop, closed);
    }
  }

  /** A capture is only ever found where the literal prefix occurs. */
  lemma CaptureNeedsPrefix(s: string, prefix: string, stop: char, closed: bool)
    requires Capture(s, prefix, stop, closed).Some?
    ensures Contains(s, prefix)
  {
    ContainsPrefixOfPattern(s, prefix, Capture(s, prefix, stop, closed).value);
  }

  /** Python truthiness of an optional string (`None` and `''` are false). */
  predicate Truthy(v: Option<string>) {
    v.Some? && v.value != []
  }
}
