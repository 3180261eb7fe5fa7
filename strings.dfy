/**
 * The pieces of Python's `str` that the camera scripts rely on, with the
 * facts about them that the protocol proofs need: `find`, `in`, `split`
 * with an explicit separator, `replace(old, new, 1)`, `lower` and `%d`.
 */
module Strings {
  import opened Basics

  /** `pat` occurs in `s` starting at index `i`. */
  predicate OccursAt(s: string, pat: string, i: nat) {
    i + |pat| <= |s| && s[i..i + |pat|] == pat
  }

  lemma OccursAtTail(s: string, pat: string, j: nat)
    requires |s| > 0
    ensures OccursAt(s, pat, j + 1) <==> OccursAt(s[1..], pat, j)
  {
    if j + 1 + |pat| <= |s| {
      assert s[j + 1..j + 1 + |pat|] == s[1..][j..j + |pat|];
    }
  }

  /** Index of the leftmost occurrence of `pat` in `s` (`str.find`, with None for -1). */
  function Find(s: string, pat: string): (r: Option<nat>)
    ensures r.Some? ==> OccursAt(s, pat, r.value)
    ensures r.Some? ==> forall j: nat :: j < r.value ==> !OccursAt(s, pat, j)
    ensures r.None? ==> forall j: nat :: !OccursAt(s, pat, j)
    decreases |s|
  {
    if |s| < |pat| then None
    else if s[..|pat|] == pat then Some(0)
    else
      match Find(s[1..], pat)
      case None =>
        assert forall j: nat :: !OccursAt(s, pat, j) by {
          forall j: nat ensures !OccursAt(s, pat, j) {
            if j > 0 { OccursAtTail(s, pat, j - 1); }
          }
        }
        None
      case Some(i) =>
        OccursAtTail(s, pat, i);
        assert forall j: nat :: j < i + 1 ==> !OccursAt(s, pat, j) by {
          forall j: nat | j < i + 1 ensures !OccursAt(s, pat, j) {
            if j > 0 { OccursAtTail(s, pat, j - 1); }
          }
        }
        Some(i + 1)
  }

  /** A first occurrence with nothing earlier is what `Find` reports. */
  lemma FindIsFirst(s: string, pat: string, i: nat)
    requires OccursAt(s, pat, i)
    requires forall j: nat :: j < i ==> !OccursAt(s, pat, j)
    ensures Find(s, pat) == Some(i)
  {
  }

  /** Python's `needle in hay` for strings: substring containment. */
  function Contains(hay: string, needle: string): (r: bool)
    ensures r <==> exists i: nat :: OccursAt(hay, needle, i)
  {
    Find(hay, needle).Some?
  }

  lemma OccursSingle(s: string, c: char, i: nat)
    requires OccursAt(s, [c], i)
    ensures i < |s| && s[i] == c
  {
    assert s[i..i + 1][0] == s[i];
  }

  /** A one-character pattern is contained exactly when that character occurs. */
  lemma ContainsChar(s: string, c: char)
    ensures Contains(s, [c]) <==> c in s
  {
    if c in s {
      var i :| 0 <= i < |s| && s[i] == c;
      assert OccursAt(s, [c], i);
    } else {
      forall i: nat | OccursAt(s, [c], i) ensures false {
        OccursSingle(s, c, i);
      }
    }
  }

  /** An occurrence past a prefix is an occurrence in the rest. */
  lemma OccursShift(p: string, s: string, pat: string, k: nat)
    ensures OccursAt(p + s, pat, k + |p|) <==> OccursAt(s, pat, k)
  {
    if k + |pat| <= |s| {
      assert (p + s)[k + |p|..k + |p| + |pat|] == s[k..k + |pat|];
    }
  }

  /**
   * When no occurrence starts inside `p`, the leftmost occurrence in `p + s`
   * is the leftmost occurrence in `s`, shifted by `|p|`.
   */
  lemma FindShiftNone(p: string, s: string, pat: string)
    requires forall j: nat :: j < |p| ==> !OccursAt(p + s, pat, j)
    requires Find(s, pat).None?
    ensures Find(p + s, pat).None?
  {
    forall j: nat ensures !OccursAt(p + s, pat, j) {
      if j >= |p| { OccursShift(p, s, pat, j - |p|); }
    }
  }

  lemma FindShiftSome(p: string, s: string, pat: string, k: nat)
    requires forall j: nat :: j < |p| ==> !OccursAt(p + s, pat, j)
    requires Find(s, pat) == Some(k)
    ensures Find(p + s, pat) == Some(k + |p|)
  {
    OccursShift(p, s, pat, k);
    NoneBeforeShift(p, s, pat, k);
    FindIsFirst(p + s, pat, k + |p|);
  }

  lemma NoneBeforeShift(p: string, s: string, pat: string, k: nat)
    requires forall j: nat :: j < |p| ==> !OccursAt(p + s, pat, j)
    requires forall j: nat :: j < k ==> !OccursAt(s, pat, j)
    ensures forall j: nat :: j < k + |p| ==> !OccursAt(p + s, pat, j)
  {
    forall j: nat | j < k + |p| ensures !OccursAt(p + s, pat, j) {
      if j >= |p| { OccursShift(p, s, pat, j - |p|); }
    }
  }

  /** The empty string is contained in every string. */
  lemma ContainsEmpty(hay: string)
    ensures Contains(hay, "")
  {
    assert OccursAt(hay, "", 0);
  }

  /** Glue `parts` back together with `sep` between neighbours (`sep.join(parts)`). */
  function Join(parts: seq<string>, sep: string): string
    requires |parts| >= 1
  {
    if |parts| == 1 then parts[0] else parts[0] + sep + Join(parts[1..], sep)
  }

  /** An occurrence inside a prefix is an occurrence in the whole string. */
  lemma OccursInPrefix(s: string, pat: string, i: nat, j: nat)
    requires i <= |s| && OccursAt(s[..i], pat, j)
    ensures OccursAt(s, pat, j) && j + |pat| <= i
  {
    assert s[..i][j..j + |pat|] == s[j..j + |pat|];
  }

  /**
   * `s.split(sep)` with an explicit, non-empty separator: cut at every
   * leftmost, non-overlapping occurrence; empty pieces are kept.
   */
  function Split(s: string, sep: string): (parts: seq<string>)
    requires |sep| > 0
    ensures |parts| >= 1
    ensures Join(parts, sep) == s
    ensures forall k :: 0 <= k < |parts| ==> !Contains(parts[k], sep)
    ensures |parts| >= 2 <==> Contains(s, sep)
    // the cuts are leftmost: no separator straddles the end of a piece and the separator after it
    ensures forall k :: 0 <= k < |parts| - 1 ==> !Contains(parts[k] + sep[..|sep| - 1], sep)
    decreases |s|
  {
    match Find(s, sep)
    case None => [s]
    case Some(i) =>
      var rest := Split(s[i + |sep|..], sep);
      var parts := [s[..i]] + rest;
      assert parts[1..] == rest;
      assert s == s[..i] + sep + s[i + |sep|..];
      assert !Contains(s[..i], sep) by {
        forall j: nat | OccursAt(s[..i], sep, j) ensures false {
          OccursInPrefix(s, sep, i, j);
        }
      }
      FirstCutLeftmost(s, sep, i);
      parts
  }

  /** Before the leftmost occurrence at `i`, no occurrence ends inside it. */
  lemma FirstCutLeftmost(s: string, sep: string, i: nat)
    requires |sep| > 0 && Find(s, sep) == Some(i)
    ensures !Contains(s[..i] + sep[..|sep| - 1], sep)
  {
    var n := i + |sep| - 1;
    assert s[..i] + sep[..|sep| - 1] == s[..n] by {
      assert s[i..i + |sep|] == sep;
    }
    forall j: nat | OccursAt(s[..n], sep, j) ensures false {
      OccursInPrefix(s, sep, n, j);
    }
  }

  /** A character that does not appear in `p` rules out any occurrence of a pattern starting with it inside `p`. */
  lemma NoOccurrenceBefore(p: string, sep: string, rest: string, j: nat)
    requires |sep| > 0 && sep[0] !in p && j < |p|
    ensures !OccursAt(p + rest, sep, j)
  {
  }

  /** `p + sep + rest` is first cut right after `p` when `p` lacks the separator's first character. */
  lemma FindAfterFreePrefix(p: string, sep: string, rest: string)
    requires |sep| > 0 && sep[0] !in p
    ensures Find(p + sep + rest, sep) == Some(|p|)
  {
    var s := p + sep + rest;
    assert s[|p|..|p| + |sep|] == sep;
    forall j: nat | j < |p| ensures !OccursAt(s, sep, j) {
      assert s == p + (sep + rest);
      NoOccurrenceBefore(p, sep, sep + rest, j);
    }
    FindIsFirst(s, sep, |p|);
  }

  /** A string lacking the separator's first character contains no separator. */
  lemma FindInFree(p: string, sep: string)
    requires |sep| > 0 && sep[0] !in p
    ensures Find(p, sep) == None
  {
    forall j: nat ensures !OccursAt(p, sep, j) {
      if j < |p| {
        assert p == p + "";
        NoOccurrenceBefore(p, sep, "", j);
      }
    }
  }

  /**
   * Splitting undoes joining when no piece contains the separator's first
   * character (so no occurrence can straddle a boundary).
   */
  lemma {:induction false} SplitJoin(parts: seq<string>, sep: string)
    requires |sep| > 0 && |parts| >= 1
    requires forall k :: 0 <= k < |parts| ==> sep[0] !in parts[k]
    ensures Split(Join(parts, sep), sep) == parts
  {
    if |parts| == 1 {
      FindInFree(parts[0], sep);
    } else {
      var p0 := parts[0];
      var rest := Join(parts[1..], sep);
      var s := p0 + sep + rest;
      assert Join(parts, sep) == s;
      FindAfterFreePrefix(p0, sep, rest);
      assert s[..|p0|] == p0 && s[|p0| + |sep|..] == rest;
      SplitJoin(parts[1..], sep);
      assert Split(s, sep) == [p0] + Split(rest, sep);
      assert parts == [p0] + parts[1..];
    }
  }

  /** `s.replace(pat, rep, 1)`: replace the leftmost occurrence only. */
  function ReplaceFirst(s: string, pat: string, rep: string): string {
    match Find(s, pat)
    case None => s
    case Some(i) => s[..i] + rep + s[i + |pat|..]
  }

  /** Replacing at the first occurrence `k`. */
  lemma ReplaceAt(t: string, pat: string, rep: string, k: nat)
    requires Find(t, pat) == Some(k)
    ensures ReplaceFirst(t, pat, rep) == t[..k] + rep + t[k + |pat|..]
  {
  }

  /** Splicing `rep` into `p + s` past `p` splices it into `s`. */
  lemma SpliceShift(p: string, s: string, pat: string, rep: string, k: nat)
    requires k + |pat| <= |s|
    ensures (p + s)[..k + |p|] + rep + (p + s)[k + |p| + |pat|..] == p + (s[..k] + rep + s[k + |pat|..])
  {
    var t := p + s;
    assert t[..k + |p|] == p + s[..k];
    assert t[k + |p| + |pat|..] == s[k + |pat|..];
  }

  /** When no occurrence starts inside `p`, replacing in `p + s` replaces in `s` only. */
  lemma ReplaceFirstShift(p: string, s: string, pat: string, rep: string)
    requires forall j: nat :: j < |p| ==> !OccursAt(p + s, pat, j)
    ensures ReplaceFirst(p + s, pat, rep) == p + ReplaceFirst(s, pat, rep)
  {
    match Find(s, pat)
    case None =>
      FindShiftNone(p, s, pat);
    case Some(k) =>
      FindShiftSome(p, s, pat, k);
      ReplaceSpliced(p, s, pat, rep, k);
  }

  /** The splice step of `ReplaceFirstShift`, once both leftmost occurrences are known. */
  lemma ReplaceSpliced(p: string, s: string, pat: string, rep: string, k: nat)
    requires Find(s, pat) == Some(k) && Find(p + s, pat) == Some(k + |p|)
    ensures ReplaceFirst(p + s, pat, rep) == p + ReplaceFirst(s, pat, rep)
  {
    calc {
      ReplaceFirst(p + s, pat, rep);
    == { ReplaceAt(p + s, pat, rep, k + |p|); }
      (p + s)[..k + |p|] + rep + (p + s)[k + |p| + |pat|..];
    == { SpliceShift(p, s, pat, rep, k); }
      p + (s[..k] + rep + s[k + |pat|..]);
    == { ReplaceAt(s, pat, rep, k); }
      p + ReplaceFirst(s, pat, rep);
    }
  }

  function LowerChar(c: char): char {
    if 'A' <= c <= 'Z' then (c as int + 32) as char else c
  }

  /** `str.lower()` restricted to the ASCII letters. */
  function Lower(s: string): (r: string)
    ensures |r| == |s|
    ensures forall i :: 0 <= i < |s| ==> r[i] == LowerChar(s[i])
  {
    seq(|s|, i requires 0 <= i < |s| => LowerChar(s[i]))
  }

  /** Lower-casing twice is lower-casing once. */
  lemma LowerIdempotent(s: string)
    ensures Lower(Lower(s)) == Lower(s)
  {
    forall i | 0 <= i < |s| ensures Lower(Lower(s))[i] == Lower(s)[i] {
      LowerCharIdempotent(s[i]);
    }
  }

  lemma LowerCharIdempotent(c: char)
    ensures LowerChar(LowerChar(c)) == LowerChar(c)
  {
  }

  /** The only names that lower-case to "st" are the four spellings of ST. */
  lemma LowerIsSt(name: string)
    ensures Lower(name) == "st" <==> name in {"st", "sT", "St", "ST"}
  {
    if Lower(name) == "st" {
      assert |name| == 2 && LowerChar(name[0]) == 's' && LowerChar(name[1]) == 't';
      assert name[0] == 's' || name[0] == 'S';
      assert name[1] == 't' || name[1] == 'T';
      assert name == [name[0], name[1]];
    }
    if name in {"st", "sT", "St", "ST"} {
      assert Lower(name) == [LowerChar(name[0]), LowerChar(name[1])];
    }
  }

  function DigitChar(d: nat): char
    requires d < 10
  {
    ('0' as int + d) as char
  }

  /** `'%d' % n` for a non-negative integer. */
  function NatToString(n: nat): (r: string)
    ensures |r| >= 1
    ensures forall i :: 0 <= i < |r| ==> '0' <= r[i] <= '9'
    decreases n
  {
    if n < 10 then [DigitChar(n)] else NatToString(n / 10) + [DigitChar(n % 10)]
  }

  /** The value of a string of decimal digits. */
  function DigitsValue(s: string): nat
    requires forall i :: 0 <= i < |s| ==> '0' <= s[i] <= '9'
  {
    if s == [] then 0 else DigitsValue(s[..|s| - 1]) * 10 + (s[|s| - 1] as int - '0' as int)
  }

  /** The decimal rendering of a number reads back as that number. */
  lemma {:induction false} NatToStringValue(n: nat)
    ensures DigitsValue(NatToString(n)) == n
  {
    var r := NatToString(n);
    if n >= 10 {
      NatToStringValue(n / 10);
      assert r[..|r| - 1] == NatToString(n / 10);
    }
  }
}
