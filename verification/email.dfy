/** `is_valid_email` (coding.py): `re.match` of
    local-part, '@', domain, '.', top-level domain, with `$` matching at the
    very end or before one final line feed. The character classes are ASCII
    ranges. */
module Email {
  import opened Seqs
  import opened Text

  predicate IsAsciiLetter(c: char) { 'a' <= c <= 'z' || 'A' <= c <= 'Z' }

  predicate IsAsciiAlnum(c: char) { IsAsciiLetter(c) || IsDigit(c) }

  /** `[a-zA-Z0-9._%+-]`. */
  predicate LocalChar(c: char) {
    IsAsciiAlnum(c) || c == '.' || c == '_' || c == '%' || c == '+' || c == '-'
  }

  /** `[a-zA-Z0-9.-]`. */
  predicate DomainChar(c: char) { IsAsciiAlnum(c) || c == '.' || c == '-' }

  predicate AllLocal(s: string) { forall i :: 0 <= i < |s| ==> LocalChar(s[i]) }

  predicate AllDomain(s: string) { forall i :: 0 <= i < |s| ==> DomainChar(s[i]) }

  predicate AllLetters(s: string) { forall i :: 0 <= i < |s| ==> IsAsciiLetter(s[i]) }

  /** The pattern without its end anchor, as a shape: some split into a
      non-empty local part, '@', a non-empty domain, '.', and at least two
      letters. */
  ghost predicate Shape(s: string) {
    exists l: string, d: string, t: string ::
      && s == l + "@" + d + "." + t
      && |l| > 0 && AllLocal(l)
      && |d| > 0 && AllDomain(d)
      && |t| >= 2 && AllLetters(t)
  }

  /** The text after '@': domain characters only, with a last dot that has
      domain text before it and at least two letters after it. */
  predicate DomainPart(rest: string) {
    var tld := AfterLast(rest, '.');
    && AllDomain(rest)
    && '.' in rest && |rest| - |tld| - 1 >= 1
    && |tld| >= 2 && AllLetters(tld)
  }

  predicate LocalPart(l: string) {
    |l| > 0 && AllLocal(l)
  }

  /** A decision procedure for `Shape`: the first '@' ends the local part;
      the top-level domain is what follows the last dot. */
  predicate Core(s: string) {
    '@' in s && LocalPart(s[..FirstIndex(s, '@')]) && DomainPart(s[FirstIndex(s, '@') + 1..])
  }

  /** `is_valid_email`: `$` also matches before a single trailing "\n". */
  predicate IsValidEmail(s: string) {
    Core(s) || (|s| > 0 && s[|s| - 1] == '\n' && Core(s[..|s| - 1]))
  }

  lemma CoreIsShape(s: string)
    ensures Core(s) <==> Shape(s)
  {
    if Core(s) {
      CoreHasShape(s);
    }
    if Shape(s) {
      var l: string, d: string, t: string :|
        && s == l + "@" + d + "." + t
        && |l| > 0 && AllLocal(l)
        && |d| > 0 && AllDomain(d)
        && |t| >= 2 && AllLetters(t);
      ShapeDecided(s, l, d, t);
    }
  }

  lemma CoreHasShape(s: string)
    requires Core(s)
    ensures Shape(s)
  {
    var l, d, t := CorePieces(s);
  }

  /** The split that `Core` finds: up to the first '@', and around the last dot after it. */
  lemma CorePieces(s: string) returns (l: string, d: string, t: string)
    requires Core(s)
    ensures s == l + "@" + d + "." + t
    ensures |l| > 0 && AllLocal(l)
    ensures |d| > 0 && AllDomain(d)
    ensures |t| >= 2 && AllLetters(t)
  {
    var at := FirstIndex(s, '@');
    l := s[..at];
    var rest := s[at + 1..];
    t := AfterLast(rest, '.');
    d := rest[..|rest| - |t| - 1];
    SplitAtLastDot(rest, d, t);
    SplitAt(s, at);
    assert s == l + "@" + rest;
    Regroup(l, "@", d, ".", t);
  }

  lemma SplitAtLastDot(rest: string, d: string, t: string)
    requires AllDomain(rest) && '.' in rest
    requires t == AfterLast(rest, '.') && |rest| - |t| - 1 >= 1 && d == rest[..|rest| - |t| - 1]
    ensures rest == d + "." + t
    ensures |d| > 0 && AllDomain(d)
  {
    var k := |rest| - |t| - 1;
    LastDotAt(rest, t);
    SplitPlain(rest, k, d, t);
  }

  lemma LastDotAt(rest: string, t: string)
    requires '.' in rest && t == AfterLast(rest, '.')
    ensures |t| < |rest| && rest[|rest| - |t| - 1] == '.' && t == rest[|rest| - |t|..]
  {
    AfterLastFacts(rest, '.');
  }


  lemma SplitPlain(rest: string, k: nat, d: string, t: string)
    requires k < |rest| && rest[k] == '.' && d == rest[..k] && t == rest[k + 1..]
    requires AllDomain(rest)
    ensures rest == d + "." + t
    ensures AllDomain(d)
  {
    assert [rest[k]] == ".";
    SplitAt(rest, k);
    forall i | 0 <= i < |d| ensures DomainChar(d[i]) {
      assert d[i] == rest[i];
    }
  }

  lemma ShapeDecided(s: string, l: string, d: string, t: string)
    requires s == l + "@" + d + "." + t
    requires |l| > 0 && AllLocal(l)
    requires |d| > 0 && AllDomain(d)
    requires |t| >= 2 && AllLetters(t)
    ensures Core(s)
  {
    var rest := d + "." + t;
    assert s == l + ("@" + rest);
    FirstAt(l, rest);
    DomainOf(d, t);
  }

  /** In `l` + "@" + `rest` with no '@' in `l`, the first '@' is at |l|. */
  lemma FirstAt(l: string, rest: string)
    requires AllLocal(l)
    ensures var s := l + ("@" + rest);
      '@' in s && FirstIndex(s, '@') == |l| && s[..|l|] == l && s[|l| + 1..] == rest
  {
    var s := l + ("@" + rest);
    assert s[|l|] == '@';
    assert forall i :: 0 <= i < |l| ==> s[i] == l[i] && s[i] != '@';
  }

  lemma DomainOf(d: string, t: string)
    requires |d| > 0 && AllDomain(d)
    requires |t| >= 2 && AllLetters(t)
    ensures DomainPart(d + "." + t)
  {
    var rest := d + "." + t;
    assert '.' !in t;
    assert rest == d + ['.'] + t;
    AfterLastSplit(d, '.', t);
    assert rest[|d|] == '.';
    LettersAreDomain(t);
    assert AllDomain(".");
    AllDomainConcat(d, ".");
    AllDomainConcat(d + ".", t);
  }

  lemma LettersAreDomain(t: string)
    requires AllLetters(t)
    ensures AllDomain(t)
  {
    forall i | 0 <= i < |t| ensures DomainChar(t[i]) {
      assert IsAsciiLetter(t[i]);
    }
  }

  lemma AllDomainConcat(a: string, b: string)
    requires AllDomain(a) && AllDomain(b)
    ensures AllDomain(a + b)
  {
    forall i | 0 <= i < |a + b| ensures DomainChar((a + b)[i]) {
      if i < |a| { assert (a + b)[i] == a[i]; }
      else { assert (a + b)[i] == b[i - |a|]; }
    }
  }

  /** Acceptance in terms of the shape, both ways, with the trailing line
      feed the end anchor tolerates. */
  lemma ValidEmailIff(s: string)
    ensures IsValidEmail(s) <==>
      Shape(s) || (|s| > 0 && s[|s| - 1] == '\n' && Shape(s[..|s| - 1]))
  {
    CoreIsShape(s);
    if |s| > 0 {
      CoreIsShape(s[..|s| - 1]);
    }
  }

  /** Neither character class contains '@', so an accepted address has
      exactly one. */
  lemma SingleAt(s: string)
    requires IsValidEmail(s)
    ensures '@' in s
    ensures forall i, j :: 0 <= i < |s| && 0 <= j < |s| && s[i] == '@' && s[j] == '@' ==> i == j
  {
    if Core(s) {
      CoreSingleAt(s);
    } else {
      var c := s[..|s| - 1];
      CoreSingleAt(c);
      LineFeedAddsNoAt(s, c);
    }
  }

  lemma LineFeedAddsNoAt(s: string, c: string)
    requires |s| > 0 && s[|s| - 1] == '\n' && c == s[..|s| - 1]
    requires '@' in c && forall i :: 0 <= i < |c| && c[i] == '@' ==> i == FirstIndex(c, '@')
    ensures '@' in s
    ensures forall i, j :: 0 <= i < |s| && 0 <= j < |s| && s[i] == '@' && s[j] == '@' ==> i == j
  {
    assert forall i :: 0 <= i < |c| ==> s[i] == c[i];
    var k := FirstIndex(c, '@');
    assert s[k] == '@';
  }

  lemma CoreSingleAt(s: string)
    requires Core(s)
    ensures '@' in s
    ensures forall i :: 0 <= i < |s| && s[i] == '@' ==> i == FirstIndex(s, '@')
  {
    var at := FirstIndex(s, '@');
    var rest := s[at + 1..];
    NoAtInDomain(rest);
    forall i | at < i < |s|
      ensures s[i] != '@'
    {
      assert s[i] == rest[i - at - 1];
    }
  }

  lemma NoAtInDomain(rest: string)
    requires AllDomain(rest)
    ensures forall k :: 0 <= k < |rest| ==> rest[k] != '@'
  {
  }

  /** The end anchor's tolerance: a line feed after an address. */
  lemma TrailingLineFeed(c: string)
    requires Core(c)
    ensures IsValidEmail(c + "\n")
  {
    assert (c + "\n")[..|c|] == c;
  }

  lemma AcceptsTypicalAddress()
    ensures IsValidEmail("jo.doe+hr@mail.example.com")
  {
    ShapeDecided("jo.doe+hr@mail.example.com", "jo.doe+hr", "mail.example", "com");
  }
}
