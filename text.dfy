/**
 * The JavaScript string operations the workshop board relies on, stated on
 * `string` (a sequence of Unicode scalar values): `toLowerCase`, `includes`,
 * `indexOf`, `startsWith`, `trim`, `split` with a one-character separator and
 * `replace` with a string pattern and an empty replacement.
 */
module Text {
  import opened Wrappers

  // ---------------------------------------------------------------------------
  // Lower-casing
  // ---------------------------------------------------------------------------

  /** The upper-case letters whose lower-case form is 32 code points above them:
      A-Z and the Latin-1 capitals À..Þ except the multiplication sign ×. */
  predicate IsUpper(c: char) {
    ('A' <= c <= 'Z') || ('À' <= c <= 'Þ' && c != '×')
  }

  function LowerChar(c: char): (r: char)
    ensures IsUpper(c) ==> r as int == c as int + 32
    ensures !IsUpper(c) ==> r == c
  {
    if IsUpper(c) then (c as int + 32) as char else c
  }

  /** `s.toLowerCase()`, restricted to the letters of IsUpper. */
  function Lower(s: string): (r: string)
    ensures |r| == |s|
    ensures forall i :: 0 <= i < |s| ==> r[i] == LowerChar(s[i])
  {
    seq(|s|, i requires 0 <= i < |s| => LowerChar(s[i]))
  }

  lemma {:induction false} LowerIdempotent(s: string)
    ensures Lower(Lower(s)) == Lower(s)
  {
    forall i | 0 <= i < |s| ensures Lower(Lower(s))[i] == Lower(s)[i] {
      var c := s[i];
      assert !IsUpper(LowerChar(c));
    }
  }

  // ---------------------------------------------------------------------------
  // Substrings
  // ---------------------------------------------------------------------------

  /** The slice of `s` that starts at `m` and is as long as `k` equals `k`. */
  predicate MatchesAt(s: string, k: string, m: int) {
    0 <= m && m + |k| <= |s| && s[m..m + |k|] == k
  }

  /** `s.includes(k)`: some slice of `s` equals `k`. Nothing longer than `s` occurs
      in it, and the empty text occurs in every text. */
  predicate Contains(s: string, k: string)
    ensures Contains(s, k) ==> |k| <= |s|
    ensures k == [] ==> Contains(s, k)
  {
    assert k == [] ==> MatchesAt(s, k, 0);
    exists m :: 0 <= m <= |s| && MatchesAt(s, k, m)
  }

  /** `m` is the leftmost position where `k` occurs in `s`. */
  predicate IsFirstOccurrence(s: string, k: string, m: int) {
    MatchesAt(s, k, m) && forall n :: 0 <= n < m ==> !MatchesAt(s, k, n)
  }

  /** `s.startsWith(k)`: `k` is a prefix of `s`, that is, `k` occurs at position 0. */
  predicate StartsWith(s: string, k: string)
    ensures StartsWith(s, k) <==> |k| <= |s| && s[..|k|] == k
    ensures StartsWith(s, k) <==> MatchesAt(s, k, 0)
  {
    k <= s
  }

  /** Character-by-character comparison of `k[j..]` with `s` at offset `i + j`,
      the way `indexOf` compares. */
  predicate MatchAt(s: string, k: string, i: nat, j: nat)
    decreases |k| - j
  {
    j >= |k| || (i + j < |s| && s[i + j] == k[j] && MatchAt(s, k, i, j + 1))
  }

  lemma {:induction false} MatchAtIsSlice(s: string, k: string, i: nat, j: nat)
    requires j <= |k| && i + |k| <= |s|
    ensures MatchAt(s, k, i, j) <==> s[i + j..i + |k|] == k[j..]
    decreases |k| - j
  {
    if j < |k| {
      MatchAtIsSlice(s, k, i, j + 1);
      var a, b := s[i + j..i + |k|], k[j..];
      assert a[0] == s[i + j] && a[1..] == s[i + j + 1..i + |k|];
      assert b[0] == k[j] && b[1..] == k[j + 1..];
      assert a == b <==> (a[0] == b[0] && a[1..] == b[1..]) by {
        if a[0] == b[0] && a[1..] == b[1..] {
          assert a == [a[0]] + a[1..] && b == [b[0]] + b[1..];
        }
      }
    }
  }

  /** `s.indexOf(k, i)`: the first position at or after `i` where `k` occurs. */
  function IndexFrom(s: string, k: string, i: nat): (r: Option<nat>)
    ensures r.Some? ==> i <= r.value && MatchesAt(s, k, r.value)
    ensures r.Some? ==> forall m :: i <= m < r.value ==> !MatchesAt(s, k, m)
    ensures r.None? ==> forall m :: i <= m ==> !MatchesAt(s, k, m)
    decreases |s| - i
  {
    if i + |k| > |s| then None
    else
      MatchAtIsSlice(s, k, i, 0);
      if MatchAt(s, k, i, 0) then Some(i) else IndexFrom(s, k, i + 1)
  }

  /** `s.indexOf(k)`. */
  function IndexOf(s: string, k: string): (r: Option<nat>)
    ensures r.Some? ==> IsFirstOccurrence(s, k, r.value)
    ensures r.None? ==> !Contains(s, k)
  {
    IndexFrom(s, k, 0)
  }

  /** `includes` and `indexOf` agree: `k` occurs exactly when `indexOf` finds it. */
  lemma ContainsIffIndexOf(s: string, k: string)
    ensures Contains(s, k) <==> IndexOf(s, k).Some?
  {
  }

  /** A keyword with a character that `s` lacks does not occur in `s`. */
  lemma MissingChar(s: string, k: string, c: char)
    requires c in k && c !in s
    ensures !Contains(s, k)
  {
    var n :| 0 <= n < |k| && k[n] == c;
    forall m | 0 <= m <= |s| ensures !MatchesAt(s, k, m) {
      if m + |k| <= |s| {
        assert s[m..m + |k|][n] == s[m + n];
      }
    }
  }

  /** A keyword longer than `s` does not occur in `s`. */
  lemma TooLong(s: string, k: string)
    requires |s| < |k|
    ensures !Contains(s, k)
  {
  }

  /** Occurrence is transitive: what occurs in an occurrence occurs in `s`. */
  lemma ContainsTransitive(s: string, k: string, w: string)
    requires Contains(s, k) && Contains(k, w)
    ensures Contains(s, w)
  {
    var i :| 0 <= i <= |s| && MatchesAt(s, k, i);
    var a :| 0 <= a <= |k| && MatchesAt(k, w, a);
    var u := s[i + a..i + a + |w|];
    forall t | 0 <= t < |w| ensures u[t] == w[t] {
      assert u[t] == s[i..i + |k|][a + t] == k[a + t];
      assert k[a + t] == k[a..a + |w|][t];
    }
    assert MatchesAt(s, w, i + a);
  }

  lemma PrefixContains(s: string, k: string)
    ensures StartsWith(s, k) ==> Contains(s, k)
  {
    if StartsWith(s, k) {
      assert MatchesAt(s, k, 0);
    }
  }

  // ---------------------------------------------------------------------------
  // Trimming
  // ---------------------------------------------------------------------------

  /** The code points that ECMAScript's `trim` removes: WhiteSpace and LineTerminator. */
  predicate IsSpace(c: char) {
    var n := c as int;
    n == 0x09 || n == 0x0A || n == 0x0B || n == 0x0C || n == 0x0D || n == 0x20 ||
    n == 0xA0 || n == 0x1680 || (0x2000 <= n <= 0x200A) || n == 0x2028 || n == 0x2029 ||
    n == 0x202F || n == 0x205F || n == 0x3000 || n == 0xFEFF
  }

  predicate AllSpace(s: string) {
    forall i :: 0 <= i < |s| ==> IsSpace(s[i])
  }

  /** Trimmed: empty, or neither end is white space. */
  predicate IsTrimmed(s: string) {
    s == [] || (!IsSpace(s[0]) && !IsSpace(s[|s| - 1]))
  }

  function TrimStartFrom(s: string, i: nat): (r: nat)
    requires i <= |s|
    ensures i <= r <= |s| && AllSpace(s[i..r]) && (r < |s| ==> !IsSpace(s[r]))
    decreases |s| - i
  {
    if i < |s| && IsSpace(s[i]) then TrimStartFrom(s, i + 1) else i
  }

  function TrimEndFrom(s: string, lo: nat, j: nat): (r: nat)
    requires lo <= j <= |s|
    ensures lo <= r <= j && AllSpace(s[r..j]) && (lo < r ==> !IsSpace(s[r - 1]))
    decreases j
  {
    if lo < j && IsSpace(s[j - 1]) then
      var r := TrimEndFrom(s, lo, j - 1);
      assert s[r..j] == s[r..j - 1] + [s[j - 1]];
      r
    else j
  }

  /** `r` is `s[i..j]` and everything outside that slice is white space. */
  predicate IsTrimOf(r: string, s: string, i: int, j: int) {
    0 <= i <= j <= |s| && r == s[i..j] && AllSpace(s[..i]) && AllSpace(s[j..])
  }

  /** `s.trim()`: the slice of `s` left after removing white space at both ends. */
  function Trim(s: string): (r: string)
    ensures IsTrimmed(r)
    ensures exists i, j :: IsTrimOf(r, s, i, j)
  {
    var i := TrimStartFrom(s, 0);
    var j := TrimEndFrom(s, i, |s|);
    assert s[..i] == s[0..i] && s[j..] == s[j..|s|];
    assert IsTrimOf(s[i..j], s, i, j);
    assert i < j ==> !IsSpace(s[i]) && !IsSpace(s[j - 1]);
    s[i..j]
  }

  /** A string with no white space at its ends is its own trim, so trimming is idempotent. */
  lemma {:induction false} TrimOfTrimmed(s: string)
    requires IsTrimmed(s)
    ensures Trim(s) == s
  {
    var i := TrimStartFrom(s, 0);
    if s != [] {
      assert i == 0;
      assert TrimEndFrom(s, 0, |s|) == |s|;
    }
  }

  lemma TrimIdempotent(s: string)
    ensures Trim(Trim(s)) == Trim(s)
  {
    TrimOfTrimmed(Trim(s));
  }

  // ---------------------------------------------------------------------------
  // Splitting on one character, and joining
  // ---------------------------------------------------------------------------

  /** `s.split(sep)` for a one-character separator: one more part than there are
      separators; empty parts are kept; the empty string gives `[""]`. */
  function Split(s: string, sep: char): (parts: seq<string>)
    ensures |parts| >= 1
    ensures forall p :: p in parts ==> sep !in p
    decreases |s|
  {
    if s == [] then [""]
    else
      var rest := Split(s[1..], sep);
      if s[0] == sep then [""] + rest else [[s[0]] + rest[0]] + rest[1..]
  }

  /** `parts.join(sep)`. */
  function Join(parts: seq<string>, sep: char): string
    requires |parts| >= 1
    decreases |parts|
  {
    if |parts| == 1 then parts[0] else parts[0] + [sep] + Join(parts[1..], sep)
  }

  /** Joining the parts puts back the string that was split. */
  lemma {:induction false} JoinSplit(s: string, sep: char)
    ensures Join(Split(s, sep), sep) == s
    decreases |s|
  {
    if s != [] {
      var rest := Split(s[1..], sep);
      JoinSplit(s[1..], sep);
      if s[0] != sep {
        var parts := Split(s, sep);
        assert parts[1..] == rest[1..];
        if |rest| > 1 {
          assert Join(rest, sep) == rest[0] + [sep] + Join(rest[1..], sep);
        }
      } else {
        assert Split(s, sep)[1..] == rest;
      }
    }
  }

  /** Splitting a join of separator-free parts gives the parts back. */
  lemma {:induction false} SplitJoin(parts: seq<string>, sep: char)
    requires |parts| >= 1
    requires forall p :: p in parts ==> sep !in p
    ensures Split(Join(parts, sep), sep) == parts
    decreases |parts|, |parts[0]|
  {
    var p := parts[0];
    if |parts| == 1 {
      SplitNoSeparator(p, sep);
    } else if p == [] {
      var tail := Join(parts[1..], sep);
      assert Join(parts, sep) == [sep] + tail;
      assert ([sep] + tail)[1..] == tail;
      SplitJoin(parts[1..], sep);
      assert [""] + parts[1..] == parts;
    } else {
      var shorter := [p[1..]] + parts[1..];
      assert shorter[1..] == parts[1..];
      assert forall q :: q in shorter ==> sep !in q by {
        forall q | q in shorter ensures sep !in q {
          if q == p[1..] { assert forall c :: c in p[1..] ==> c in p; }
        }
      }
      SplitJoin(shorter, sep);
      var s := Join(parts, sep);
      assert s[0] == p[0] && s[1..] == Join(shorter, sep) by {
        if |parts| > 1 {
          assert Join(shorter, sep) == p[1..] + [sep] + Join(parts[1..], sep);
          assert s == p + [sep] + Join(parts[1..], sep);
        }
      }
      assert p[0] in p;
      var rest := Split(s[1..], sep);
      assert rest == shorter && rest[0] == p[1..] && rest[1..] == parts[1..];
      assert s != [] && s[0] != sep;
      assert Split(s, sep) == [[s[0]] + rest[0]] + rest[1..];
      assert [p[0]] + p[1..] == p;
      assert [p] + parts[1..] == parts;
    }
  }

  /** With no separator in it, a string splits into itself alone. */
  lemma {:induction false} SplitNoSeparator(s: string, sep: char)
    requires sep !in s
    ensures Split(s, sep) == [s]
    decreases |s|
  {
    if s != [] {
      assert forall c :: c in s[1..] ==> c in s;
      SplitNoSeparator(s[1..], sep);
      assert [s[0]] + s[1..] == s;
    }
  }

  /** Every character of every part comes from the split string, and a string
      without the separator does not split. */
  lemma {:induction false} SplitChars(s: string, sep: char)
    ensures forall p, c :: p in Split(s, sep) && c in p ==> c in s
    ensures |Split(s, sep)| > 1 ==> sep in s
    decreases |s|
  {
    if s != [] {
      SplitChars(s[1..], sep);
      var rest := Split(s[1..], sep);
      assert forall c :: c in s[1..] ==> c in s;
      if s[0] != sep {
        var parts := Split(s, sep);
        forall p, c | p in parts && c in p ensures c in s {
          if p == [s[0]] + rest[0] {
            assert rest[0] in rest;
          } else {
            assert p in rest[1..];
            assert p in rest;
          }
        }
        if |parts| > 1 { assert |rest| > 1; }
      }
    }
  }

  // ---------------------------------------------------------------------------
  // Length as JavaScript counts it
  // ---------------------------------------------------------------------------

  /** `s.length`: UTF-16 code units, two for a code point above U+FFFF. */
  function Utf16Length(s: string): (n: nat)
    ensures |s| <= n <= 2 * |s|
    decreases |s|
  {
    if s == [] then 0 else (if s[0] as int >= 0x10000 then 2 else 1) + Utf16Length(s[1..])
  }

  // ---------------------------------------------------------------------------
  // Replacing the first occurrence
  // ---------------------------------------------------------------------------

  /** `s.replace(k, '')` with a string pattern: only the first occurrence is removed. */
  function RemoveFirst(s: string, k: string): (r: string)
    ensures !Contains(s, k) ==> r == s
    ensures Contains(s, k) ==> exists m :: IsFirstOccurrence(s, k, m) && r == s[..m] + s[m + |k|..]
  {
    match IndexOf(s, k)
    case None => s
    case Some(m) => assert IsFirstOccurrence(s, k, m); s[..m] + s[m + |k|..]
  }
}
