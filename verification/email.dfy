/** `isValidEmail` (api/index.js:22-25): the test of `email` against the
    regular expression `^[^\s@]+@[^\s@]+\.[^\s@]+$`.

    Three views of the same language, proved equal:
    - `RegexMatches`: the expression's meaning, a split of the address into
      the five pieces the expression concatenates;
    - `IsValidEmail`: a single left-to-right scan deciding it, which is what
      the form handler calls;
    - `EmailShape`: a direct description (no whitespace, exactly one `@`, a
      non-empty local part, a domain with a dot strictly inside it). */
module EmailCheck {
  import opened Text

  /** A code point the class `[^\s@]` accepts. */
  predicate Plain(c: char) {
    !IsWs(c) && c != '@'
  }

  predicate AllPlain(s: string) {
    forall k | 0 <= k < |s| :: Plain(s[k])
  }

  /** `e` is `e[..i]`, `@`, `e[i+1..j]`, `.`, `e[j+1..]`, each outer piece a
      non-empty run of `[^\s@]`. */
  predicate SplitsAt(e: string, i: nat, j: nat) {
    && 0 < i && i + 1 < j && j + 1 < |e|
    && e[i] == '@' && e[j] == '.'
    && AllPlain(e[..i]) && AllPlain(e[i + 1..j]) && AllPlain(e[j + 1..])
  }

  /** The language of `^[^\s@]+@[^\s@]+\.[^\s@]+$`. */
  ghost predicate RegexMatches(e: string) {
    exists i: nat, j: nat :: SplitsAt(e, i, j)
  }

  /** The text before the first `@`. */
  function LocalPart(e: string): string {
    e[..IndexOf(e, '@')]
  }

  /** The text after the first `@` (empty when there is none). */
  function Domain(e: string): string {
    if '@' in e then e[IndexOf(e, '@') + 1..] else []
  }

  /** A `.` that is neither the first nor the last code point of `d`. */
  predicate HasInnerDot(d: string) {
    exists k | 0 < k < |d| - 1 :: d[k] == '.'
  }

  predicate EmailShape(e: string) {
    && NoWs(e)
    && multiset(e)['@'] == 1
    && LocalPart(e) != []
    && HasInnerDot(Domain(e))
  }

  /** Where the scan stands after a prefix of the address. */
  datatype ScanState =
    | Start      // nothing read
    | InLocal    // a non-empty local part
    | AfterAt    // local part and `@`
    | InDomain   // a domain with no usable dot yet
    | AfterDot   // a domain ending in a dot that is not its first code point
    | Matched    // a domain with a dot strictly inside it
    | Dead       // no extension can match

  function Step(q: ScanState, c: char): ScanState {
    if IsWs(c) then Dead
    else match q
      case Start => if c == '@' then Dead else InLocal
      case InLocal => if c == '@' then AfterAt else InLocal
      case AfterAt => if c == '@' then Dead else InDomain
      case InDomain => if c == '@' then Dead else if c == '.' then AfterDot else InDomain
      case AfterDot => if c == '@' then Dead else Matched
      case Matched => if c == '@' then Dead else Matched
      case Dead => Dead
  }

  function Scan(s: string): ScanState {
    if s == [] then Start else Step(Scan(s[..|s| - 1]), s[|s| - 1])
  }

  /** `emailRegex.test(email)`. */
  predicate IsValidEmail(e: string) {
    Scan(e) == Matched
  }

  /** What a prefix `p` of an address says about the rest, described by its
      contents rather than by the scan. */
  ghost function Classify(p: string): ScanState {
    if !NoWs(p) then Dead
    else if multiset(p)['@'] == 0 then (if p == [] then Start else InLocal)
    else if multiset(p)['@'] >= 2 then Dead
    else if LocalPart(p) == [] then Dead
    else DomainState(Domain(p))
  }

  /** Extending a domain by one code point adds at most the dot just before it. */
  lemma InnerDotAppend(d: string, c: char)
    ensures HasInnerDot(d + [c]) <==> HasInnerDot(d) || (|d| >= 2 && d[|d| - 1] == '.')
  {
    var d' := d + [c];
    if HasInnerDot(d') {
      var k :| 0 < k < |d'| - 1 && d'[k] == '.';
      if k < |d| - 1 {
        assert d[k] == '.';
      }
    }
    if HasInnerDot(d) {
      var k :| 0 < k < |d| - 1 && d[k] == '.';
      assert d'[k] == '.';
    }
    if |d| >= 2 && d[|d| - 1] == '.' {
      assert d'[|d| - 1] == '.';
    }
  }

  /** One scan step agrees with the content description. */
  lemma StepClassifies(p: string, c: char)
    ensures Classify(p + [c]) == Step(Classify(p), c)
  {
    var p' := p + [c];
    assert p'[..|p|] == p;
    if !NoWs(p) {
      var k :| 0 <= k < |p| && IsWs(p[k]);
      assert IsWs(p'[k]);
    } else if IsWs(c) {
      assert IsWs(p'[|p|]);
    } else {
      assert NoWs(p');
      assert multiset(p')['@'] == multiset(p)['@'] + (if c == '@' then 1 else 0);
      if multiset(p)['@'] == 0 && c == '@' {
        StepFirstAt(p);
      } else if multiset(p)['@'] == 1 && c != '@' {
        StepDomain(p, c);
      }
    }
  }

  lemma StepClassifiesLast(s: string)
    requires s != []
    ensures Classify(s) == Step(Classify(s[..|s| - 1]), s[|s| - 1])
  {
    var p, c := s[..|s| - 1], s[|s| - 1];
    assert s == p + [c];
    StepClassifies(p, c);
  }

  /** Reading the first `@`. */
  lemma StepFirstAt(p: string)
    requires NoWs(p) && NoWs(p + ['@']) && multiset(p)['@'] == 0
    ensures Classify(p + ['@']) == Step(Classify(p), '@')
  {
    var p' := p + ['@'];
    assert '@' !in p;
    assert IndexOf(p', '@') == |p|;
    assert multiset(p')['@'] == 1;
    assert LocalPart(p') == p;
    assert Domain(p') == [];
  }

  /** Reading a code point of the domain. */
  lemma StepDomain(p: string, c: char)
    requires NoWs(p) && NoWs(p + [c]) && multiset(p)['@'] == 1 && c != '@'
    ensures Classify(p + [c]) == Step(Classify(p), c)
  {
    var p' := p + [c];
    assert multiset(p')['@'] == 1;
    assert '@' in p;
    IndexOfAppend(p, '@', [c]);
    assert LocalPart(p') == LocalPart(p);
    var d := Domain(p);
    assert Domain(p') == d + [c];
    assert !IsWs(c) by { assert p'[|p|] == c; }
    if LocalPart(p) != [] {
      DomainStep(d, c);
    }
  }

  /** The domain cases of `Classify`, on the domain alone. */
  function DomainState(d: string): ScanState {
    if d == [] then AfterAt
    else if HasInnerDot(d) then Matched
    else if |d| >= 2 && d[|d| - 1] == '.' then AfterDot
    else InDomain
  }

  lemma DomainStep(d: string, c: char)
    requires !IsWs(c) && c != '@'
    ensures DomainState(d + [c]) == Step(DomainState(d), c)
  {
    var d' := d + [c];
    InnerDotAppend(d, c);
    assert d'[|d'| - 1] == c;
    if d == [] {
      assert !HasInnerDot(d');
    }
  }

  lemma {:induction false} ScanClassifies(s: string)
    ensures Scan(s) == Classify(s)
  {
    if s != [] {
      ScanClassifies(s[..|s| - 1]);
      StepClassifiesLast(s);
    }
  }

  /** The scan accepts exactly the addresses of the described shape. */
  lemma IsValidEmailShape(e: string)
    ensures IsValidEmail(e) <==> EmailShape(e)
  {
    ScanClassifies(e);
    if EmailShape(e) {
      assert '@' in e;
    }
  }

  /** The expression's meaning and the described shape are the same language. */
  lemma RegexShape(e: string)
    ensures RegexMatches(e) <==> EmailShape(e)
  {
    if RegexMatches(e) {
      var i: nat, j: nat :| SplitsAt(e, i, j);
      RegexSplitHasShape(e, i, j);
    }
    if EmailShape(e) {
      OnlyOccurrence(e, '@');
      var i := IndexOf(e, '@');
      var d := Domain(e);
      var k :| 0 < k < |d| - 1 && d[k] == '.';
      var j := i + 1 + k;
      assert e[j] == '.';
      assert SplitsAt(e, i, j);
    }
  }

  lemma RegexSplitHasShape(e: string, i: nat, j: nat)
    requires SplitsAt(e, i, j)
    ensures EmailShape(e)
  {
    forall k | 0 <= k < |e|
      ensures !IsWs(e[k]) && (k != i ==> e[k] != '@')
    {
      if k < i {
        assert e[..i][k] == e[k];
      } else if i < k < j {
        assert e[i + 1..j][k - i - 1] == e[k];
      } else if j < k {
        assert e[j + 1..][k - j - 1] == e[k];
      }
    }
    assert '@' in e;
    var first := IndexOf(e, '@');
    assert first == i;
    assert e == e[..i] + e[i..];
    assert '@' !in e[..i];
    var tail := e[i + 1..];
    assert '@' !in tail by {
      forall m | 0 <= m < |tail|
        ensures tail[m] != '@'
      {
        assert tail[m] == e[i + 1 + m];
      }
    }
    assert e[i..] == [e[i]] + e[i + 1..];
    var d := Domain(e);
    assert d[j - i - 1] == '.';
  }

  /** A string without `@` is rejected. */
  lemma RejectsNotAnEmail()
    ensures !IsValidEmail("not-an-email")
  {
    NoAtRejected("not-an-email");
  }

  /** Without an `@` there is nothing to split at. */
  lemma NoAtRejected(e: string)
    requires '@' !in e
    ensures !IsValidEmail(e)
  {
    IsValidEmailShape(e);
    assert '@' !in multiset(e);
  }

  /** A plain address is accepted. */
  lemma AcceptsPlainAddress()
    ensures IsValidEmail("a@b.com")
  {
    var good := "a@b.com";
    assert good[..1] == "a" && good[2..3] == "b" && good[4..] == "com";
    assert SplitsAt(good, 1, 3);
    RegexShape(good);
    IsValidEmailShape(good);
  }
}
