/** String helpers shared by the models: whitespace trimming (JavaScript
    `trim`, Python `strip`), substring search, and the two kinds of
    replacement the source uses (replace the first occurrence, replace every
    occurrence left to right). */
module Text {
  import opened Outcomes

  /** Sequence concatenation is associative. */
  lemma {:induction false} AppendAssoc<T>(a: seq<T>, b: seq<T>, c: seq<T>)
    ensures (a + b) + c == a + (b + c)
  {
  }

  /** Whitespace removed by `trim`/`strip`: the six ASCII characters both
      remove. Both also remove Unicode spaces, and Python's `strip` also
      removes the separators U+001C to U+001F, which `trim` keeps; neither
      difference is modelled, so the two share this one predicate. */
  predicate IsSpace(c: char) {
    c == ' ' || '\t' <= c <= '\r'  // tab, line feed, vertical tab, form feed, carriage return
  }

  /** Every character of `s` in [lo, hi) is whitespace. */
  predicate SpaceBetween(s: string, lo: int, hi: int)
    requires 0 <= lo && hi <= |s|
  {
    forall i :: lo <= i < hi ==> IsSpace(s[i])
  }

  /** No whitespace at either end. */
  predicate IsTrimmed(s: string) {
    s == [] || (!IsSpace(s[0]) && !IsSpace(s[|s| - 1]))
  }

  /** `s` is `r` with some whitespace before it and some after it. */
  predicate Padded(s: string, r: string) {
    exists i, j | 0 <= i <= j <= |s| :: r == s[i..j] && SpaceBetween(s, 0, i) && SpaceBetween(s, j, |s|)
  }

  /** `trim()` / `strip()`: no whitespace is left at either end (and only
      whitespace was removed: `TrimRemovesOnlySpace`). */
  function Trim(s: string): (r: string)
    ensures IsTrimmed(r)
    decreases |s|
  {
    if s != [] && IsSpace(s[0]) then Trim(s[1..])
    else if s != [] && IsSpace(s[|s| - 1]) then Trim(s[..|s| - 1])
    else s
  }

  /** `s` is some whitespace, then `Trim(s)`, then some whitespace. */
  lemma {:induction false} TrimRemovesOnlySpace(s: string)
    ensures Padded(s, Trim(s))
    decreases |s|
  {
    if s != [] && IsSpace(s[0]) {
      TrimRemovesOnlySpace(s[1..]);
      PaddedAfterSpace(s, Trim(s));
    } else if s != [] && IsSpace(s[|s| - 1]) {
      TrimRemovesOnlySpace(s[..|s| - 1]);
      PaddedBeforeSpace(s, Trim(s));
    } else {
      assert Trim(s) == s[0..|s|];
    }
  }

  /** A leading whitespace character extends the padding. */
  lemma {:induction false} PaddedAfterSpace(s: string, r: string)
    requires s != [] && IsSpace(s[0]) && Padded(s[1..], r)
    ensures Padded(s, r)
  {
    var t := s[1..];
    var i, j :| 0 <= i <= j <= |t| && r == t[i..j] && SpaceBetween(t, 0, i) && SpaceBetween(t, j, |t|);
    assert r == s[i + 1..j + 1];
    assert SpaceBetween(s, 0, i + 1) by {
      forall k | 0 < k < i + 1 ensures IsSpace(s[k]) {
        assert s[k] == t[k - 1];
      }
    }
    assert SpaceBetween(s, j + 1, |s|) by {
      forall k | j + 1 <= k < |s| ensures IsSpace(s[k]) {
        assert s[k] == t[k - 1];
      }
    }
  }

  /** A trailing whitespace character extends the padding. */
  lemma {:induction false} PaddedBeforeSpace(s: string, r: string)
    requires s != [] && IsSpace(s[|s| - 1]) && Padded(s[..|s| - 1], r)
    ensures Padded(s, r)
  {
    var t := s[..|s| - 1];
    var i, j :| 0 <= i <= j <= |t| && r == t[i..j] && SpaceBetween(t, 0, i) && SpaceBetween(t, j, |t|);
    assert r == s[i..j];
    assert SpaceBetween(s, 0, i) by {
      forall k | 0 <= k < i ensures IsSpace(s[k]) {
        assert s[k] == t[k];
      }
    }
    assert SpaceBetween(s, j, |s|) by {
      forall k | j <= k < |s| - 1 ensures IsSpace(s[k]) {
        assert s[k] == t[k];
      }
    }
  }

  predicate StartsWith(s: string, prefix: string) {
    |prefix| <= |s| && s[..|prefix|] == prefix
  }

  /** `pat` occurs in `s` starting at index `i`. */
  predicate OccursAt(s: string, pat: string, i: int) {
    0 <= i && i + |pat| <= |s| && s[i..i + |pat|] == pat
  }

  predicate Contains(s: string, pat: string) {
    exists i | 0 <= i <= |s| :: OccursAt(s, pat, i)
  }

  /** Index of the leftmost occurrence of `pat` in `s` at or after `from`
      (`FindFromFindsLeftmost`). */
  function FindFrom(s: string, pat: string, from: nat): (r: Option<nat>)
    ensures r.Some? ==> from <= r.value && r.value + |pat| <= |s|
    decreases |s| - from
  {
    if |s| < from + |pat| then None
    else if s[from..from + |pat|] == pat then Some(from)
    else FindFrom(s, pat, from + 1)
  }

  /** `FindFrom` returns an occurrence at or after `from` with none between,
      and fails only when there is none at or after `from`. */
  lemma {:induction false} FindFromFindsLeftmost(s: string, pat: string, from: nat)
    ensures var r := FindFrom(s, pat, from);
      && (r.Some? ==> from <= r.value && OccursAt(s, pat, r.value))
      && (r.Some? ==> forall k :: from <= k < r.value ==> !OccursAt(s, pat, k))
      && (r.None? ==> forall k :: from <= k ==> !OccursAt(s, pat, k))
    decreases |s| - from
  {
    if |s| < from + |pat| {
    } else if s[from..from + |pat|] == pat {
    } else {
      FindFromFindsLeftmost(s, pat, from + 1);
    }
  }

  /** JavaScript `s.replace(pat, "")` with a string pattern: removes the
      leftmost occurrence only (`ReplaceFirstAt`, `ReplaceFirstAbsent`). */
  function ReplaceFirst(s: string, pat: string): string {
    match FindFrom(s, pat, 0)
    case None => s
    case Some(k) => s[..k] + s[k + |pat|..]
  }

  /** When the leftmost occurrence of `pat` is at `k` (ending at `e`),
      exactly that one is cut out. */
  lemma {:induction false} ReplaceFirstAt(s: string, pat: string, k: nat, e: nat)
    requires OccursAt(s, pat, k) && e == k + |pat|
    requires forall j :: 0 <= j < k ==> !OccursAt(s, pat, j)
    ensures ReplaceFirst(s, pat) == s[..k] + s[e..]
  {
    FindFromFindsLeftmost(s, pat, 0);
    match FindFrom(s, pat, 0)
    case None =>
      assert false;
    case Some(k') =>
      assert k' == k;
  }

  /** When `pat` does not occur, nothing changes. */
  lemma {:induction false} ReplaceFirstAbsent(s: string, pat: string)
    requires !Contains(s, pat)
    ensures ReplaceFirst(s, pat) == s
  {
    FindFromFindsLeftmost(s, pat, 0);
    match FindFrom(s, pat, 0)
    case None =>
    case Some(k) =>
      assert false;
  }

  /** Python `s.replace(pat, "")`, and JavaScript `s.replace(/pat/g, "")`:
      every occurrence found scanning left to right, without overlaps, is
      removed. An empty pattern changes nothing. */
  function ReplaceAll(s: string, pat: string): string
    decreases |s|
  {
    if |pat| == 0 || |s| < |pat| then s
    else if s[..|pat|] == pat then ReplaceAll(s[|pat|..], pat)
    else [s[0]] + ReplaceAll(s[1..], pat)
  }

  /** Removing a pattern that does not occur is the identity. */
  lemma {:induction false} ReplaceAllNoOccurrence(s: string, pat: string)
    requires !Contains(s, pat)
    ensures ReplaceAll(s, pat) == s
    decreases |s|
  {
    if |pat| == 0 || |s| < |pat| {
    } else {
      assert !OccursAt(s, pat, 0);
      assert !Contains(s[1..], pat) by {
        forall i | OccursAt(s[1..], pat, i) ensures false {
          assert s[1..][i..i + |pat|] == s[i + 1..i + 1 + |pat|];
          assert OccursAt(s, pat, i + 1);
        }
      }
      ReplaceAllNoOccurrence(s[1..], pat);
    }
  }

  /** Trimming keeps out any pattern the untrimmed string lacks. */
  lemma {:induction false} TrimKeepsAbsence(s: string, pat: string)
    requires !Contains(s, pat)
    ensures !Contains(Trim(s), pat)
  {
    var r := Trim(s);
    TrimRemovesOnlySpace(s);
    var i, j :| 0 <= i <= j <= |s| && r == s[i..j] && SpaceBetween(s, 0, i) && SpaceBetween(s, j, |s|);
    InfixKeepsAbsence(s, pat, i, j);
  }

  lemma {:induction false} InfixKeepsAbsence(s: string, pat: string, i: nat, j: nat)
    requires i <= j <= |s|
    requires !Contains(s, pat)
    ensures !Contains(s[i..j], pat)
  {
    forall k | 0 <= k <= j - i && OccursAt(s[i..j], pat, k) ensures false {
      OccursInSlice(s, pat, i, j, k);
    }
  }

  /** An occurrence inside a slice is an occurrence in the whole string. */
  lemma {:induction false} OccursInSlice(s: string, pat: string, i: nat, j: nat, k: nat)
    requires i <= j <= |s|
    requires OccursAt(s[i..j], pat, k)
    ensures OccursAt(s, pat, i + k)
  {
    var r := s[i..j];
    assert r[k..k + |pat|] == pat;
    assert forall t | 0 <= t < |pat| :: s[i + k + t] == r[k + t] == pat[t];
    assert s[i + k..i + k + |pat|] == pat;
  }

  /** When `pat` starts nowhere before `p`, replacing every occurrence
      leaves `s[..p]` as it is. */
  lemma {:induction false} ReplaceAllKeepsPrefix(s: string, pat: string, p: nat)
    requires |pat| > 0 && p <= |s|
    requires forall k :: 0 <= k < p ==> !OccursAt(s, pat, k)
    ensures ReplaceAll(s, pat) == s[..p] + ReplaceAll(s[p..], pat)
    decreases p
  {
    if p == 0 {
      assert s[p..] == s;
    } else if |s| < |pat| {
      assert s[..p] + s[p..] == s;
    } else {
      var t := s[1..];
      ReplaceAllSkipsHead(s, pat);
      forall k | 0 <= k < p - 1 ensures !OccursAt(t, pat, k) {
        ShiftOccurs(s, pat, k);
      }
      ReplaceAllKeepsPrefix(t, pat, p - 1);
      assert t[p - 1..] == s[p..];
      assert [s[0]] + t[..p - 1] == s[..p];
      AppendAssoc([s[0]], t[..p - 1], ReplaceAll(s[p..], pat));
    }
  }

  /** Where no occurrence starts at 0, the first character is kept. */
  lemma {:induction false} ReplaceAllSkipsHead(s: string, pat: string)
    requires |pat| > 0 && |pat| <= |s| && !OccursAt(s, pat, 0)
    ensures ReplaceAll(s, pat) == [s[0]] + ReplaceAll(s[1..], pat)
  {
  }

  /** Where `w` occurs, so does every prefix of `w`. */
  lemma {:induction false} PrefixOccurs(s: string, w: string, p: string, k: int)
    requires StartsWith(w, p)
    ensures OccursAt(s, w, k) ==> OccursAt(s, p, k)
  {
    if OccursAt(s, w, k) {
      assert s[k..k + |p|] == w[..|p|];
    }
  }

  /** When the leftmost occurrence of `pat` is at `k` (ending at `e`),
      replacing every occurrence keeps what precedes it, drops it, and carries on after it. */
  lemma {:induction false} ReplaceAllAt(s: string, pat: string, k: nat, e: nat)
    requires |pat| > 0 && OccursAt(s, pat, k) && e == k + |pat|
    requires forall j :: 0 <= j < k ==> !OccursAt(s, pat, j)
    ensures ReplaceAll(s, pat) == s[..k] + ReplaceAll(s[e..], pat)
  {
    ReplaceAllKeepsPrefix(s, pat, k);
    var t := s[k..];
    assert |pat| <= |t| && t[..|pat|] == pat;
    assert ReplaceAll(t, pat) == ReplaceAll(t[|pat|..], pat);
    assert t[|pat|..] == s[e..];
  }

  /** An occurrence fixes every character it covers. */
  lemma {:induction false} OccursAtChar(s: string, pat: string, k: int, j: nat)
    requires j < |pat|
    ensures OccursAt(s, pat, k) ==> s[k + j] == pat[j]
  {
    if OccursAt(s, pat, k) {
      assert s[k..k + |pat|][j] == s[k + j];
    }
  }

  /** `FindFrom` returns the first occurrence at or after `from`. */
  lemma {:induction false} FindFromAt(s: string, pat: string, from: nat, k: nat)
    requires from <= k && OccursAt(s, pat, k)
    requires forall j :: from <= j < k ==> !OccursAt(s, pat, j)
    ensures FindFrom(s, pat, from) == Some(k)
  {
    FindFromFindsLeftmost(s, pat, from);
  }

  /** Dropping the first character shifts every occurrence one place left. */
  lemma {:induction false} ShiftOccurs(s: string, pat: string, k: nat)
    requires |s| > 0
    ensures OccursAt(s[1..], pat, k) <==> OccursAt(s, pat, k + 1)
  {
    if k + |pat| <= |s| - 1 {
      assert s[1..][k..k + |pat|] == s[k + 1..k + 1 + |pat|];
    }
  }

  predicate IsDigit(c: char) {
    '0' <= c <= '9'
  }

  /** The decimal numeral of `n` (JavaScript `${n}` and Python `str(n)` for a
      non-negative integer): digits only, no leading zero
      (`DecimalRoundTrip`). */
  function DecimalString(n: nat): (r: string)
    ensures |r| >= 1 && forall i :: 0 <= i < |r| ==> IsDigit(r[i])
    ensures r[0] == '0' <==> n == 0
  {
    if n < 10 then [(n as int + '0' as int) as char]
    else DecimalString(n / 10) + [(n % 10 + '0' as int) as char]
  }

  /** The number a string of digits denotes. */
  function DecimalValue(s: string): nat
    requires forall i :: 0 <= i < |s| ==> IsDigit(s[i])
  {
    if s == [] then 0
    else
      var d := s[|s| - 1];
      assert IsDigit(d);
      DecimalValue(s[..|s| - 1]) * 10 + (d as int - '0' as int)
  }

  /** Reading the numeral back gives the number. */
  lemma {:induction false} DecimalRoundTrip(n: nat)
    ensures DecimalValue(DecimalString(n)) == n
  {
    var r := DecimalString(n);
    if n >= 10 {
      DecimalRoundTrip(n / 10);
      assert r[..|r| - 1] == DecimalString(n / 10);
    }
  }
}
