/** `sanitizeInput` (api/index.js:28-31): a non-string becomes the empty
    string; a string is trimmed and then loses every `<` and `>`. */
module Sanitizer {
  import opened Text

  /** A raw body value as the sanitizer sees it. */
  datatype Input = NotString | Str(s: string)

  predicate IsAngle(c: char) {
    c == '<' || c == '>'
  }

  /** No code point of `s` is matched by the class `[<>]`. */
  predicate NoAngles(s: string) {
    '<' !in s && '>' !in s
  }

  /** `r` can be obtained from `s` by deleting code points, order kept. */
  predicate IsSubsequence(r: string, s: string)
    decreases |s|
  {
    if r == [] then true
    else if s == [] then false
    else if r[0] == s[0] then IsSubsequence(r[1..], s[1..])
    else IsSubsequence(r, s[1..])
  }

  /** `replace(/[<>]/g, "")`; what it keeps is stated by `RemoveAnglesSpec`. */
  function RemoveAngles(s: string): (r: string)
    ensures NoAngles(r)
  {
    if s == [] then []
    else if IsAngle(s[0]) then RemoveAngles(s[1..])
    else [s[0]] + RemoveAngles(s[1..])
  }

  /** No angle bracket remains, the remaining code points keep their order,
      and none of them is lost. */
  lemma {:induction false} RemoveAnglesSpec(s: string)
    ensures IsSubsequence(RemoveAngles(s), s)
    ensures forall c | !IsAngle(c) :: multiset(RemoveAngles(s))[c] == multiset(s)[c]
  {
    if s != [] {
      RemoveAnglesSpec(s[1..]);
      assert s == [s[0]] + s[1..];
    }
  }

  function Sanitize(x: Input): (r: string)
    ensures x.NotString? ==> r == []
    ensures NoAngles(r)
    ensures x.Str? ==> IsSubsequence(r, Trim(x.s))
    ensures x.Str? ==> forall c | !IsAngle(c) :: multiset(r)[c] == multiset(Trim(x.s))[c]
  {
    match x
    case NotString => []
    case Str(s) =>
      RemoveAnglesSpec(Trim(s));
      RemoveAngles(Trim(s))
  }

  /** A subsequence never holds a code point more often than its source. */
  lemma {:induction false} SubsequenceCounts(r: string, s: string)
    requires IsSubsequence(r, s)
    ensures multiset(r) <= multiset(s)
    decreases |s|
  {
    if r != [] {
      assert s == [s[0]] + s[1..];
      if r[0] == s[0] {
        SubsequenceCounts(r[1..], s[1..]);
        assert r == [r[0]] + r[1..];
      } else {
        SubsequenceCounts(r, s[1..]);
      }
    }
  }

  /** The contract of `RemoveAngles` determines its result: any string with
      no angle bracket that is a subsequence of `s` and keeps every other
      code point of `s` is `RemoveAngles(s)`. */
  lemma {:induction false} RemoveAnglesUnique(s: string, r: string)
    requires NoAngles(r) && IsSubsequence(r, s)
    requires forall c | !IsAngle(c) :: multiset(r)[c] == multiset(s)[c]
    ensures r == RemoveAngles(s)
    decreases |s|
  {
    if s == [] {
      assert r == [];
    } else {
      var x := s[0];
      var t := s[1..];
      assert s == [x] + t;
      assert multiset(s) == multiset{x} + multiset(t);
      if IsAngle(x) {
        assert r == [] || r[0] != x;
        assert IsSubsequence(r, t);
        RemoveAnglesUnique(t, r);
      } else {
        FirstKept(s, r);
        var r' := r[1..];
        assert r == [x] + r';
        assert multiset(r) == multiset{x} + multiset(r');
        RemoveAnglesUnique(t, r');
      }
    }
  }

  /** A code point that is kept must be matched by the first one of `r`. */
  lemma FirstKept(s: string, r: string)
    requires s != [] && !IsAngle(s[0]) && IsSubsequence(r, s)
    requires multiset(r)[s[0]] == multiset(s)[s[0]]
    ensures r != [] && r[0] == s[0] && IsSubsequence(r[1..], s[1..])
  {
    var x := s[0];
    var t := s[1..];
    assert s == [x] + t;
    assert multiset(s)[x] == multiset(t)[x] + 1;
    if r == [] || r[0] != x {
      if r != [] {
        assert IsSubsequence(r, t);
        SubsequenceCounts(r, t);
      }
      assert false;
    }
  }

  /** Removing brackets introduces no code point. */
  lemma RemoveAnglesAddsNothing(s: string, c: char)
    requires c !in s
    ensures c !in RemoveAngles(s)
  {
    RemoveAnglesSpec(s);
    SubsequenceCounts(RemoveAngles(s), s);
    assert multiset(s)[c] == 0;
  }

  /** A string with no angle bracket loses none. */
  lemma {:induction false} RemoveAnglesNoop(s: string)
    requires NoAngles(s)
    ensures RemoveAngles(s) == s
  {
    if s != [] {
      assert s == [s[0]] + s[1..];
      RemoveAnglesNoop(s[1..]);
    }
  }

  /** Sanitizing twice equals sanitizing once exactly when the first result
      has no whitespace at either end: the second pass can only trim. */
  lemma SanitizeTwiceIff(x: Input)
    ensures Sanitize(Str(Sanitize(x))) == Sanitize(x) <==> Tidy(Sanitize(x))
  {
    var r := Sanitize(x);
    var t := Trim(r);
    TrimKeepsCodePoints(r);
    RemoveAnglesNoop(t);
    assert Sanitize(Str(r)) == t;
    if Tidy(r) {
      TrimTidy(r);
    }
  }

  /** Sanitizing is stable once the trimmed input has no angle bracket at
      either end: removing inner brackets cannot expose whitespace. */
  lemma SanitizeStable(s: string)
    requires var t := Trim(s); t == [] || (!IsAngle(t[0]) && !IsAngle(t[|t| - 1]))
    ensures Sanitize(Str(Sanitize(Str(s)))) == Sanitize(Str(s))
  {
    var t := Trim(s);
    if t != [] {
      RemoveAnglesEnds(t);
    }
    SanitizeTwiceIff(Str(s));
  }

  /** Removing brackets keeps a first and last code point that are not brackets. */
  lemma RemoveAnglesEnds(t: string)
    requires t != [] && !IsAngle(t[0]) && !IsAngle(t[|t| - 1])
    ensures RemoveAngles(t) != []
    ensures RemoveAngles(t)[0] == t[0]
    ensures RemoveAngles(t)[|RemoveAngles(t)| - 1] == t[|t| - 1]
  {
    assert RemoveAngles(t) == [t[0]] + RemoveAngles(t[1..]);
    RemoveAnglesLast(t);
  }

  lemma {:induction false} RemoveAnglesLast(t: string)
    requires t != [] && !IsAngle(t[|t| - 1])
    ensures RemoveAngles(t) != [] && RemoveAngles(t)[|RemoveAngles(t)| - 1] == t[|t| - 1]
  {
    if |t| == 1 {
      assert RemoveAngles(t) == [t[0]] + RemoveAngles([]);
    } else {
      var u := t[1..];
      assert u[|u| - 1] == t[|t| - 1];
      RemoveAnglesLast(u);
      var ru := RemoveAngles(u);
      if IsAngle(t[0]) {
        assert RemoveAngles(t) == ru;
      } else {
        assert RemoveAngles(t) == [t[0]] + ru;
      }
    }
  }

  /** Sanitizing is not idempotent: trimming runs before brackets go, so a
      bracket can shield whitespace from the first trim. `"< a"` sanitizes
      to `" a"`, which sanitizes to `"a"`. */
  lemma SanitizeNotIdempotent()
    ensures exists s :: Sanitize(Str(Sanitize(Str(s)))) != Sanitize(Str(s))
  {
    SanitizeShieldedSpace();
    SanitizeLeadingSpace();
    assert Sanitize(Str(Sanitize(Str("< a")))) != Sanitize(Str("< a"));
  }

  lemma SanitizeShieldedSpace()
    ensures Sanitize(Str("< a")) == " a"
  {
    ShieldedTrim();
    ShieldedRemove();
  }

  lemma ShieldedTrim()
    ensures Trim("< a") == "< a"
  {
    TrimTidy("< a");
  }

  lemma ShieldedRemove()
    ensures RemoveAngles("< a") == " a"
  {
    assert "< a" == [] + "<" + " a";
    RemoveAnglesSpliced([], " a");
  }

  lemma SanitizeLeadingSpace()
    ensures Sanitize(Str(" a")) == "a"
  {
    assert " " + "a" + "" == " a";
    TrimPadded(" ", "a", "");
    RemoveAnglesNoop("a");
  }

  /** Sample inputs: surrounding whitespace goes, then every bracket. */
  lemma SanitizeExamples()
    ensures Sanitize(Str("  <b>hi</b>  ")) == "bhi/b"
    ensures Sanitize(NotString) == ""
  {
    TrimBoldPadded();
    RemoveAnglesBold();
  }

  lemma TrimBoldPadded()
    ensures Trim("  <b>hi</b>  ") == "<b>hi</b>"
  {
    assert "  <b>hi</b>  " == "  " + "<b>hi</b>" + "  ";
    TrimPadded("  ", "<b>hi</b>", "  ");
  }

  lemma RemoveAnglesBold()
    ensures RemoveAngles("<b>hi</b>") == "bhi/b"
  {
    assert "<b>hi</b>" == ("<" + "b" + ">") + ("hi" + ("<" + "/b" + ">"));
    RemoveAnglesElement("b", "hi", "/b");
  }

  /** An element `<t1>m<t2>` of bracket-free parts keeps just the parts. */
  lemma RemoveAnglesElement(t1: string, m: string, t2: string)
    requires NoAngles(t1) && NoAngles(m) && NoAngles(t2)
    ensures RemoveAngles(("<" + t1 + ">") + (m + ("<" + t2 + ">"))) == t1 + (m + t2)
  {
    var open := "<" + t1 + ">";
    var close := "<" + t2 + ">";
    RemoveAnglesBracketed(t1);
    RemoveAnglesBracketed(t2);
    RemoveAnglesNoop(m);
    RemoveAnglesAppend(m, close);
    RemoveAnglesAppend(open, m + close);
  }

  /** A bracket pair around bracket-free text leaves just the text. */
  lemma RemoveAnglesBracketed(t: string)
    requires NoAngles(t)
    ensures RemoveAngles("<" + t + ">") == t
  {
    RemoveAnglesChar('<');
    RemoveAnglesChar('>');
    RemoveAnglesNoop(t);
    RemoveAnglesAppend("<", t);
    RemoveAnglesAppend("<" + t, ">");
  }

  /** A bracket between two bracket-free texts is all that goes. */
  lemma RemoveAnglesSpliced(a: string, b: string)
    requires NoAngles(a) && NoAngles(b)
    ensures RemoveAngles(a + "<" + b) == a + b
  {
    var l := a + ['<'];
    RemoveAnglesAppend(a, ['<']);
    RemoveAnglesChar('<');
    RemoveAnglesNoop(a);
    assert RemoveAngles(l) == a;
    RemoveAnglesAppend(l, b);
    RemoveAnglesNoop(b);
  }

  /** `RemoveAngles` on a single code point. */
  lemma RemoveAnglesChar(c: char)
    ensures RemoveAngles([c]) == if IsAngle(c) then [] else [c]
  {
    assert [c][1..] == [];
  }

  /** `RemoveAngles` works code point by code point. */
  lemma {:induction false} RemoveAnglesAppend(a: string, b: string)
    ensures RemoveAngles(a + b) == RemoveAngles(a) + RemoveAngles(b)
  {
    if a != [] {
      assert (a + b)[1..] == a[1..] + b;
      RemoveAnglesAppend(a[1..], b);
    } else {
      assert a + b == b;
    }
  }
}
