/**
 * The few operations on Python `str` values that the classifier relies on:
 * `str.lower`, the `in` operator, `startswith`/`endswith`, `split(sep, 1)`,
 * the separator-joined list of quoted terms that `describe` builds and `str(int)`.
 */
module Strings {
  import opened Results

  /** The character that `str.lower` maps `c` to, for the ASCII and Latin-1 letters;
      every other character is left unchanged. */
  function LowerChar(c: char): char {
    if 'A' <= c <= 'Z' || ('\U{C0}' <= c <= '\U{DE}' && c != '\U{D7}') then
      (c as int + 32) as char
    else
      c
  }

  /** `s.lower()`, character by character. */
  function Lower(s: string): (r: string)
    ensures |r| == |s|
    ensures forall i :: 0 <= i < |s| ==> r[i] == LowerChar(s[i])
  {
    seq(|s|, i requires 0 <= i < |s| => LowerChar(s[i]))
  }

  /** `pat` occurs in `s` starting at position `j`. */
  predicate OccursAt(pat: string, s: string, j: nat) {
    j + |pat| <= |s| && s[j..j + |pat|] == pat
  }

  /** `pat` occurs somewhere in `s` (the empty string occurs everywhere). */
  ghost predicate IsSubstring(pat: string, s: string) {
    exists j: nat :: OccursAt(pat, s, j)
  }

  /** `s.endswith(pat)` */
  predicate IsSuffix(pat: string, s: string) {
    |pat| <= |s| && s[|s| - |pat|..] == pat
  }

  /** `s.find(pat)`: the first position at which `pat` occurs in `s`, if any. */
  function IndexOf(s: string, pat: string): (r: Option<nat>)
    ensures r.Some? ==> OccursAt(pat, s, r.value)
    ensures r.Some? ==> forall j: nat :: j < r.value ==> !OccursAt(pat, s, j)
    ensures r.None? ==> forall j: nat :: !OccursAt(pat, s, j)
    decreases |s|
  {
    if OccursAt(pat, s, 0) then
      Some(0)
    else if |s| == 0 then
      None
    else
      var rest := IndexOf(s[1..], pat);
      assert forall j: nat :: 1 <= j ==> (OccursAt(pat, s, j) <==> OccursAt(pat, s[1..], j - 1)) by {
        forall j: nat | 1 <= j {
          OccursInTail(pat, s, j);
        }
      }
      match rest
      case Some(i) => Some(i + 1)
      case None => None
  }

  /** Occurrences in `s` past its first character are the occurrences in its tail. */
  lemma OccursInTail(pat: string, s: string, j: nat)
    requires 1 <= j && |s| > 0
    ensures OccursAt(pat, s, j) <==> OccursAt(pat, s[1..], j - 1)
  {
    if j + |pat| <= |s| {
      var here, there := s[j..j + |pat|], s[1..][j - 1..j - 1 + |pat|];
      assert forall k :: 0 <= k < |pat| ==> here[k] == s[j + k] == there[k];
      assert here == there;
    }
  }

  /** Python's `pat in s`. */
  function Contains(s: string, pat: string): (b: bool)
    ensures b <==> IsSubstring(pat, s)
  {
    var r := IndexOf(s, pat);
    assert r.Some? ==> OccursAt(pat, s, r.value);
    r.Some?
  }

  /** `s.split(sep, 1)[1]`: what follows the first occurrence of `sep`; `None` where
      Python raises IndexError because `sep` does not occur. Python rejects an empty
      separator with ValueError, so `sep` must not be empty. */
  function AfterFirst(s: string, sep: string): (r: Option<string>)
    requires |sep| > 0
    ensures r.Some? <==> IsSubstring(sep, s)
  {
    match IndexOf(s, sep)
    case Some(i) => Some(s[i + |sep|..])
    case None => None
  }

  /** Where `pat` first occurs, `find` and `split(pat, 1)` cut. */
  lemma FirstOccurrence(s: string, pat: string, p: nat)
    requires |pat| > 0 && OccursAt(pat, s, p)
    requires forall j: nat :: j < p ==> !OccursAt(pat, s, j)
    ensures IndexOf(s, pat) == Some(p)
    ensures AfterFirst(s, pat) == Some(s[p + |pat|..])
  {
  }

  /** Each of `x`, `y` and `z` occurs in `a + x + b + y + c + z + d`. */
  lemma SubstringOfSeven(a: string, x: string, b: string, y: string, c: string, z: string, d: string)
    ensures var s := a + x + b + y + c + z + d;
            IsSubstring(x, s) && IsSubstring(y, s) && IsSubstring(z, s)
  {
    var s := a + x + b + y + c + z + d;
    var i, j := |a|, |a| + |x| + |b|;
    var m := j + |y| + |c|;
    assert s[i..i + |x|] == x;
    assert OccursAt(x, s, i);
    assert s[j..j + |y|] == y;
    assert OccursAt(y, s, j);
    assert s[m..m + |z|] == z;
    assert OccursAt(z, s, m);
  }

  lemma SubstringOfConcat(a: string, b: string, c: string)
    ensures IsSubstring(b, a + b + c)
  {
    var s := a + b + c;
    assert s[|a|..|a| + |b|] == b;
    assert OccursAt(b, s, |a|);
  }

  lemma SubstringReflexive(s: string)
    ensures IsSubstring(s, s)
  {
    assert OccursAt(s, s, 0);
  }

  lemma SubstringExtendRight(p: string, a: string, b: string)
    requires IsSubstring(p, a)
    ensures IsSubstring(p, a + b)
  {
    var i: nat :| OccursAt(p, a, i);
    assert (a + b)[i..i + |p|] == a[i..i + |p|];
    assert OccursAt(p, a + b, i);
  }

  lemma SubstringExtendLeft(p: string, a: string, b: string)
    requires IsSubstring(p, b)
    ensures IsSubstring(p, a + b)
  {
    var i: nat :| OccursAt(p, b, i);
    assert (a + b)[|a| + i..|a| + i + |p|] == b[i..i + |p|];
    assert OccursAt(p, a + b, |a| + i);
  }

  lemma SubstringTransitive(p: string, q: string, s: string)
    requires IsSubstring(p, q) && IsSubstring(q, s)
    ensures IsSubstring(p, s)
  {
    var i: nat :| OccursAt(p, q, i);
    var j: nat :| OccursAt(q, s, j);
    forall k | 0 <= k < |p| ensures s[j + i + k] == p[k] {
      assert p[k] == q[i..i + |p|][k] == q[i + k];
      assert q[i + k] == s[j..j + |q|][i + k] == s[j + i + k];
    }
    assert s[j + i..j + i + |p|] == p;
    assert OccursAt(p, s, j + i);
  }

  /** Each of the three middle parts of `a + x + b + y + c` occurs in it. */
  lemma SubstringOfParts(a: string, x: string, b: string, y: string, c: string)
    ensures IsSubstring(x, a + x + b + y + c)
    ensures IsSubstring(b, a + x + b + y + c)
    ensures IsSubstring(y, a + x + b + y + c)
  {
    SubstringReflexive(x);
    SubstringExtendLeft(x, a, x);
    SubstringExtendRight(x, a + x, b);
    SubstringExtendRight(x, a + x + b, y);
    SubstringExtendRight(x, a + x + b + y, c);
    SubstringReflexive(b);
    SubstringExtendLeft(b, a + x, b);
    SubstringExtendRight(b, a + x + b, y);
    SubstringExtendRight(b, a + x + b + y, c);
    SubstringReflexive(y);
    SubstringExtendLeft(y, a + x + b, y);
    SubstringExtendRight(y, a + x + b + y, c);
  }

  /** `sep.join(f'"{t}"' for t in terms)` */
  function JoinQuoted(terms: seq<string>, sep: string): string {
    if |terms| == 0 then ""
    else if |terms| == 1 then "\"" + terms[0] + "\""
    else "\"" + terms[0] + "\"" + sep + JoinQuoted(terms[1..], sep)
  }

  /** Every term appears, between its quotes, in the joined text. */
  lemma {:induction false} JoinQuotedMentions(terms: seq<string>, sep: string, i: nat)
    requires i < |terms|
    ensures IsSubstring(terms[i], JoinQuoted(terms, sep))
  {
    if |terms| == 1 {
      SubstringOfConcat("\"", terms[0], "\"");
    } else if i == 0 {
      SubstringOfConcat("\"", terms[0], "\"" + sep + JoinQuoted(terms[1..], sep));
      assert "\"" + terms[0] + "\"" + sep + JoinQuoted(terms[1..], sep)
          == "\"" + terms[0] + ("\"" + sep + JoinQuoted(terms[1..], sep));
    } else {
      JoinQuotedMentions(terms[1..], sep, i - 1);
      SubstringOfConcat("\"" + terms[0] + "\"" + sep, JoinQuoted(terms[1..], sep), "");
      assert "\"" + terms[0] + "\"" + sep + JoinQuoted(terms[1..], sep) + ""
          == "\"" + terms[0] + "\"" + sep + JoinQuoted(terms[1..], sep);
      SubstringTransitive(terms[i], JoinQuoted(terms[1..], sep), JoinQuoted(terms, sep));
    }
  }

  function DigitChar(d: nat): char
    requires d < 10
  {
    "0123456789"[d]
  }

  /** `str(n)` for a non-negative integer: its decimal digits. */
  function NatToString(n: nat): (r: string)
    ensures |r| > 0
    ensures forall i :: 0 <= i < |r| ==> '0' <= r[i] <= '9'
  {
    if n < 10 then [DigitChar(n)] else NatToString(n / 10) + [DigitChar(n % 10)]
  }

  /** `str(i)` for any integer. */
  function IntToString(i: int): (r: string)
    ensures |r| > 0
  {
    if i < 0 then "-" + NatToString(-i) else NatToString(i)
  }
}
