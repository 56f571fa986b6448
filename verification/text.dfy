/** The JavaScript string primitives the contact form relies on: the
    whitespace class shared by `\s` and `String.prototype.trim`, trimming,
    and first-occurrence search. Strings are sequences of code points. */
module Text {

  /** JavaScript's WhiteSpace and LineTerminator code points. The regular
      expression class `\s` and `String.prototype.trim` use this same set. */
  predicate IsWs(c: char) {
    || c == '\t' || c == '\n' || c == '\U{000B}' || c == '\U{000C}' || c == '\r'
    || c == ' ' || c == '\U{00A0}' || c == '\U{1680}'
    || ('\U{2000}' <= c <= '\U{200A}')
    || c == '\U{2028}' || c == '\U{2029}' || c == '\U{202F}' || c == '\U{205F}'
    || c == '\U{3000}' || c == '\U{FEFF}'
  }

  predicate AllWs(s: string) {
    forall k | 0 <= k < |s| :: IsWs(s[k])
  }

  predicate NoWs(s: string) {
    forall k | 0 <= k < |s| :: !IsWs(s[k])
  }

  /** True when `s` neither starts nor ends with whitespace. */
  predicate Tidy(s: string) {
    s == [] || (!IsWs(s[0]) && !IsWs(s[|s| - 1]))
  }

  /** Drops the leading whitespace run. */
  function TrimStart(s: string): (r: string)
    ensures |r| <= |s| && r == s[|s| - |r|..]
    ensures AllWs(s[..|s| - |r|])
    ensures r == [] || !IsWs(r[0])
  {
    if s != [] && IsWs(s[0]) then TrimStart(s[1..]) else s
  }

  /** Drops the trailing whitespace run. */
  function TrimEnd(s: string): (r: string)
    ensures |r| <= |s| && r == s[..|r|]
    ensures AllWs(s[|r|..])
    ensures r == [] || !IsWs(r[|r| - 1])
  {
    if s != [] && IsWs(s[|s| - 1]) then TrimEnd(s[..|s| - 1]) else s
  }

  /** `s` is a whitespace run, then `r` from index `i`, then a whitespace run. */
  predicate PaddedAt(s: string, i: nat, r: string) {
    && i + |r| <= |s|
    && r == s[i..i + |r|]
    && AllWs(s[..i])
    && AllWs(s[i + |r|..])
  }

  /** `String.prototype.trim`: `r` is `s` without its whitespace padding, and
      has no whitespace at either end. */
  function Trim(s: string): (r: string)
    ensures Tidy(r)
    ensures exists i: nat :: PaddedAt(s, i, r)
  {
    TrimStartEnd(s);
    TrimEnd(TrimStart(s))
  }

  lemma TrimStartEnd(s: string)
    ensures PaddedAt(s, |s| - |TrimStart(s)|, TrimEnd(TrimStart(s)))
  {
    PaddedFromEnds(s, TrimStart(s), TrimEnd(TrimStart(s)));
  }

  /** A whitespace run cut from the front, then one cut from the back. */
  lemma PaddedFromEnds(s: string, t: string, r: string)
    requires |t| <= |s| && t == s[|s| - |t|..] && AllWs(s[..|s| - |t|])
    requires |r| <= |t| && r == t[..|r|] && AllWs(t[|r|..])
    ensures PaddedAt(s, |s| - |t|, r)
  {
    SliceOfSuffix(s, |s| - |t|, |r|);
  }

  lemma SliceOfSuffix(s: string, i: nat, n: nat)
    requires i + n <= |s|
    ensures s[i..i + n] == s[i..][..n]
    ensures s[i + n..] == s[i..][n..]
  {
  }

  /** Trimming leaves a string with no whitespace at its ends unchanged. */
  lemma TrimTidy(s: string)
    requires Tidy(s)
    ensures Trim(s) == s
  {
  }

  /** Trimming removes exactly the whitespace padding around a tidy text. */
  lemma TrimPadded(a: string, t: string, b: string)
    requires AllWs(a) && AllWs(b) && Tidy(t)
    ensures Trim(a + t + b) == t
  {
    if t == [] {
      assert a + t + b == a + b;
    } else {
      TrimPaddedText(a, t, b);
    }
  }

  lemma TrimPaddedText(a: string, t: string, b: string)
    requires AllWs(a) && AllWs(b) && t != [] && Tidy(t)
    ensures Trim(a + t + b) == t
  {
    var u := t + b;
    assert a + t + b == a + u && u[0] == t[0];
    TrimStartPadded(a, u);
    TrimEndPadded(t, b);
    assert Trim(a + u) == TrimEnd(TrimStart(a + u));
  }

  /** A string of whitespace only trims to nothing. */
  lemma TrimAllWs(s: string)
    requires AllWs(s)
    ensures Trim(s) == []
  {
    assert TrimStart(s) == [];
  }

  lemma {:induction false} TrimStartPadded(a: string, u: string)
    requires AllWs(a) && u != [] && !IsWs(u[0])
    ensures TrimStart(a + u) == u
  {
    if a == [] {
      assert a + u == u;
    } else {
      assert (a + u)[1..] == a[1..] + u;
      assert AllWs(a[1..]) by {
        forall k | 0 <= k < |a[1..]|
          ensures IsWs(a[1..][k])
        {
          assert a[1..][k] == a[k + 1];
        }
      }
      TrimStartPadded(a[1..], u);
    }
  }

  lemma {:induction false} TrimEndPadded(u: string, b: string)
    requires AllWs(b) && u != [] && !IsWs(u[|u| - 1])
    ensures TrimEnd(u + b) == u
  {
    if b == [] {
      assert u + b == u;
    } else {
      var b' := b[..|b| - 1];
      assert (u + b)[..|u + b| - 1] == u + b';
      assert AllWs(b') by {
        forall k | 0 <= k < |b'|
          ensures IsWs(b'[k])
        {
          assert b'[k] == b[k];
        }
      }
      TrimEndPadded(u, b');
    }
  }

  /** Every code point of `Trim(s)` occurs in `s`. */
  lemma TrimKeepsCodePoints(s: string)
    ensures forall c | c in Trim(s) :: c in s
  {
    var r := Trim(s);
    var i: nat :| PaddedAt(s, i, r);
    forall c | c in r
      ensures c in s
    {
      var k :| 0 <= k < |r| && r[k] == c;
      assert r[k] == s[i + k];
    }
  }

  /** Index of the first occurrence of `c` in `s`, or `|s|` when there is none. */
  function IndexOf(s: string, c: char): (i: nat)
    ensures i <= |s|
    ensures i < |s| <==> c in s
    ensures i < |s| ==> s[i] == c
    ensures forall k | 0 <= k < i :: s[k] != c
  {
    if s == [] then 0
    else if s[0] == c then 0
    else 1 + IndexOf(s[1..], c)
  }

  /** Appending text after an occurrence of `c` does not move the first one. */
  lemma IndexOfAppend(s: string, c: char, t: string)
    requires c in s
    ensures IndexOf(s + t, c) == IndexOf(s, c)
  {
    var i := IndexOf(s, c);
    var j := IndexOf(s + t, c);
    assert (s + t)[i] == c;
    if j < i {
      assert s[j] == (s + t)[j];
    }
  }

  /** Two distinct positions holding `c` make it occur at least twice. */
  lemma TwoOccurrences(s: string, c: char, i: nat, m: nat)
    requires i < m < |s| && s[i] == c && s[m] == c
    ensures multiset(s)[c] >= 2
  {
    assert s == s[..m] + s[m..];
    assert s[..m][i] == c;
    assert s[m..][0] == c;
    assert c in multiset(s[..m]) && c in multiset(s[m..]);
  }

  /** A code point that occurs exactly once occurs at no other index than its first. */
  lemma OnlyOccurrence(s: string, c: char)
    requires multiset(s)[c] == 1
    ensures IndexOf(s, c) < |s|
    ensures forall m | 0 <= m < |s| && m != IndexOf(s, c) :: s[m] != c
  {
    assert c in s;
    var i := IndexOf(s, c);
    forall m | 0 <= m < |s| && m != i
      ensures s[m] != c
    {
      if s[m] == c {
        TwoOccurrences(s, c, i, m);
      }
    }
  }
}
