/** Strings as the two runtimes see them: whitespace trimming (JavaScript's
    `trim` and Python's `strip` remove different character sets), ASCII case
    folding, decimal rendering of integers (`toString`, f-strings) and
    Python's `int(str)` parser. */
module Text {
  import opened Seqs

  /** WhiteSpace and LineTerminator of ECMAScript: what `String.prototype.trim` removes. */
  predicate IsJsSpace(c: char) {
    || c == '\t' || c == '\n' || c == '\U{000B}' || c == '\U{000C}' || c == '\r' || c == ' '
    || c == '\U{00A0}' || c == '\U{1680}' || ('\U{2000}' <= c <= '\U{200A}')
    || c == '\U{2028}' || c == '\U{2029}' || c == '\U{202F}' || c == '\U{205F}'
    || c == '\U{3000}' || c == '\U{FEFF}'
  }

  /** Python's `str.isspace`: what `str.strip()` with no argument removes. */
  predicate IsPySpace(c: char) {
    || ('\t' <= c <= '\r') || ('\U{001C}' <= c <= '\U{001F}') || c == ' '
    || c == '\U{0085}' || c == '\U{00A0}' || c == '\U{1680}' || ('\U{2000}' <= c <= '\U{200A}')
    || c == '\U{2028}' || c == '\U{2029}' || c == '\U{202F}' || c == '\U{205F}'
    || c == '\U{3000}'
  }

  /** Neither end of `s` satisfies `sp`. */
  predicate Trimmed(s: string, sp: char -> bool) {
    s == [] || (!sp(s[0]) && !sp(s[|s| - 1]))
  }

  /** Drop the leading characters satisfying `sp`. */
  function TrimStart(s: string, sp: char -> bool): (r: string)
    ensures |r| <= |s| && r == s[|s| - |r|..]
    ensures forall i :: 0 <= i < |s| - |r| ==> sp(s[i])
    ensures r == [] || !sp(r[0])
  {
    if s != [] && sp(s[0]) then
      var r := TrimStart(s[1..], sp);
      assert s[1..][|s| - 1 - |r|..] == s[|s| - |r|..];
      assert forall i :: 1 <= i < |s| - |r| ==> s[i] == s[1..][i - 1];
      r
    else s
  }

  /** Drop the trailing characters satisfying `sp`. */
  function TrimEnd(s: string, sp: char -> bool): (r: string)
    ensures |r| <= |s| && r == s[..|r|]
    ensures forall i :: |r| <= i < |s| ==> sp(s[i])
    ensures r == [] || !sp(r[|r| - 1])
  {
    if s != [] && sp(s[|s| - 1]) then
      var r := TrimEnd(s[..|s| - 1], sp);
      assert s[..|s| - 1][..|r|] == s[..|r|];
      r
    else s
  }

  /** Both ends trimmed. */
  function Trim(s: string, sp: char -> bool): (r: string)
    ensures |r| <= |s|
    ensures Trimmed(r, sp)
  {
    var t := TrimStart(s, sp);
    var r := TrimEnd(t, sp);
    assert r != [] ==> r[0] == t[0];
    r
  }

  /** Every string is its trimmed form with some `sp` characters on either
      side; together with the ends of the result not satisfying `sp`, this
      pins the result down. */
  lemma TrimDecomposes(s: string, sp: char -> bool) returns (a: string, b: string)
    ensures s == a + Trim(s, sp) + b
    ensures forall i :: 0 <= i < |a| ==> sp(a[i])
    ensures forall i :: 0 <= i < |b| ==> sp(b[i])
  {
    var t := TrimStart(s, sp);
    var r := TrimEnd(t, sp);
    assert r == Trim(s, sp);
    a := s[..|s| - |t|];
    b := t[|r|..];
    SplitAround(s, t, r);
    SpacesOfPrefix(s, t, a, sp);
    SpacesOfSuffix(t, r, b, sp);
  }

  lemma SplitAround(s: string, t: string, r: string)
    requires |t| <= |s| && t == s[|s| - |t|..]
    requires |r| <= |t| && r == t[..|r|]
    ensures s == s[..|s| - |t|] + r + t[|r|..]
  {
    var a := s[..|s| - |t|];
    var b := t[|r|..];
    assert t == r + b;
    assert s == a + t;
    assert a + r + b == a + (r + b);
  }

  lemma SpacesOfPrefix(s: string, t: string, a: string, sp: char -> bool)
    requires |t| <= |s| && a == s[..|s| - |t|]
    requires forall i :: 0 <= i < |s| - |t| ==> sp(s[i])
    ensures forall i :: 0 <= i < |a| ==> sp(a[i])
  {
  }

  lemma SpacesOfSuffix(t: string, r: string, b: string, sp: char -> bool)
    requires |r| <= |t| && b == t[|r|..]
    requires forall i :: |r| <= i < |t| ==> sp(t[i])
    ensures forall i :: 0 <= i < |b| ==> sp(b[i])
  {
    forall i | 0 <= i < |b| ensures sp(b[i]) {
      assert b[i] == t[|r| + i];
    }
  }

  /** A string with no `sp` character at either end is left alone. */
  lemma TrimUnchanged(s: string, sp: char -> bool)
    requires Trimmed(s, sp)
    ensures Trim(s, sp) == s
  {
  }

  /** Trimming twice is trimming once. */
  lemma TrimIdempotent(s: string, sp: char -> bool)
    ensures Trim(Trim(s, sp), sp) == Trim(s, sp)
  {
    TrimUnchanged(Trim(s, sp), sp);
  }

  predicate IsUpper(c: char) { 'A' <= c <= 'Z' }

  function LowerChar(c: char): (d: char)
    ensures IsUpper(c) ==> d as int == c as int + 32
    ensures !IsUpper(c) ==> d == c
  {
    if IsUpper(c) then (c as int + 32) as char else c
  }

  /** ASCII `toLowerCase`/`lower`: letters A-Z fold, everything else stays. */
  function ToLower(s: string): (r: string)
    ensures |r| == |s|
    ensures forall i :: 0 <= i < |s| ==> r[i] == LowerChar(s[i])
  {
    seq(|s|, i requires 0 <= i < |s| => LowerChar(s[i]))
  }

  predicate IsDigit(c: char) { '0' <= c <= '9' }

  function DigitChar(d: nat): (c: char)
    requires d < 10
    ensures IsDigit(c) && c as int - '0' as int == d
  {
    ('0' as int + d) as char
  }

  function DigitValue(c: char): (d: nat)
    requires IsDigit(c)
    ensures d < 10
  {
    c as int - '0' as int
  }

  /** Decimal digits of a natural number, most significant first, no leading zero. */
  function NatToString(n: nat): (s: string)
    ensures |s| > 0 && forall i :: 0 <= i < |s| ==> IsDigit(s[i])
    ensures |s| > 1 ==> s[0] != '0'
  {
    if n < 10 then [DigitChar(n)] else NatToString(n / 10) + [DigitChar(n % 10)]
  }

  /** An integer as JavaScript's `Number.prototype.toString` and Python's
      `str` render it (no exponent notation: the values here are small). */
  function IntToString(n: int): (s: string)
    ensures |s| > 0
    ensures n < 0 <==> s[0] == '-'
  {
    if n < 0 then "-" + NatToString(-n) else NatToString(n)
  }

  /** The value of a string of decimal digits. */
  function DigitsValue(s: string): nat
    requires forall i :: 0 <= i < |s| ==> IsDigit(s[i])
  {
    if s == [] then 0
    else DigitsValue(s[..|s| - 1]) * 10 + DigitValue(s[|s| - 1])
  }

  lemma {:induction false} DigitsOfNat(n: nat)
    ensures DigitsValue(NatToString(n)) == n
  {
    if n >= 10 {
      var s := NatToString(n);
      assert s[..|s| - 1] == NatToString(n / 10);
      DigitsOfNat(n / 10);
    }
  }

  /** Rendering is injective: equal renderings mean equal integers. */
  lemma IntToStringInjective(a: int, b: int)
    requires IntToString(a) == IntToString(b)
    ensures a == b
  {
    assert PyInt(IntToString(a)) == Some(a) by { PyIntOfRendering(a); }
    assert PyInt(IntToString(b)) == Some(b) by { PyIntOfRendering(b); }
  }

  /** Digits with single underscores between them, as Python's `int` accepts. */
  predicate IsDigitGroups(s: string) {
    && |s| > 0 && IsDigit(s[0]) && IsDigit(s[|s| - 1])
    && (forall i :: 0 <= i < |s| ==> IsDigit(s[i]) || s[i] == '_')
    && (forall i :: 0 <= i < |s| - 1 ==> s[i] == '_' ==> s[i + 1] != '_')
  }

  function DropUnderscores(s: string): (r: string)
    ensures forall i :: 0 <= i < |r| ==> r[i] != '_' && r[i] in s
    ensures (forall i :: 0 <= i < |s| ==> s[i] != '_') ==> r == s
  {
    if s == [] then []
    else (if s[0] == '_' then [] else [s[0]]) + DropUnderscores(s[1..])
  }

  /** Python's `int(s)` on a string: surrounding whitespace, an optional sign,
      then base-10 digit groups; `None` where Python raises `ValueError`. */
  function PyInt(s: string): (r: Option<int>)
  {
    ParseSigned(Trim(s, IsPySpace))
  }

  /** `int` on text already stripped of surrounding whitespace. */
  function ParseSigned(t: string): (r: Option<int>)
  {
    var neg := |t| > 0 && t[0] == '-';
    var body := if |t| > 0 && (t[0] == '-' || t[0] == '+') then t[1..] else t;
    if !IsDigitGroups(body) then None
    else
      var digits := DropUnderscores(body);
      assert forall i :: 0 <= i < |digits| ==> IsDigit(digits[i]);
      var v: int := if neg then -(DigitsValue(digits) as int) else DigitsValue(digits);
      Some(v)
  }

  /** Python's `int` reads back what `IntToString` writes. */
  lemma PyIntOfRendering(n: int)
    ensures PyInt(IntToString(n)) == Some(n)
  {
    var s := IntToString(n);
    RenderingTrimmed(n);
    TrimUnchanged(s, IsPySpace);
    ParseRendering(n);
  }

  lemma RenderingTrimmed(n: int)
    ensures Trimmed(IntToString(n), IsPySpace)
  {
    var s := IntToString(n);
    var digits := NatToString(if n < 0 then -n else n);
    assert IsDigit(s[|s| - 1]) by {
      if n < 0 { assert s[|s| - 1] == digits[|digits| - 1]; }
    }
    assert s[0] == '-' || IsDigit(s[0]);
  }

  lemma ParseRendering(n: int)
    ensures ParseSigned(IntToString(n)) == Some(n)
  {
    var s := IntToString(n);
    var m := if n < 0 then -n else n;
    var digits := NatToString(m);
    var body := if n < 0 then s[1..] else s;
    assert body == digits;
    DigitsAreGroups(digits);
    DigitsOfNat(m);
  }

  lemma DigitsAreGroups(d: string)
    requires |d| > 0 && forall i :: 0 <= i < |d| ==> IsDigit(d[i])
    ensures IsDigitGroups(d) && DropUnderscores(d) == d
  {
    assert forall i :: 0 <= i < |d| ==> d[i] != '_';
  }

  /** `s.rsplit(c, 1)[1]` when `c` occurs in `s`: the text after the last
      `c`; the whole of `s` when there is none. */
  function AfterLast(s: string, c: char): (r: string)
    ensures c !in r && |r| <= |s| && r == s[|s| - |r|..]
    ensures c in s ==> |r| < |s| && s[|s| - |r| - 1] == c
    ensures c !in s ==> r == s
    decreases |s|
  {
    if s == [] then []
    else if s[|s| - 1] == c then []
    else
      var r := AfterLast(s[..|s| - 1], c);
      AfterLastStep(s, c, r);
      r + [s[|s| - 1]]
  }

  /** Where the text after the last `c` sits, when `c` occurs. */
  lemma AfterLastFacts(s: string, c: char)
    ensures var r := AfterLast(s, c);
      c in s ==> |r| < |s| && s[|s| - |r| - 1] == c && r == s[|s| - |r|..]
  {
  }

  /** The last character, not `c`, extends what follows the last `c`. */
  lemma AfterLastStep(s: string, c: char, r: string)
    requires |s| > 0 && s[|s| - 1] != c
    requires var init := s[..|s| - 1];
      && c !in r && |r| <= |init| && r == init[|init| - |r|..]
      && (c in init ==> |r| < |init| && init[|init| - |r| - 1] == c)
      && (c !in init ==> r == init)
    ensures var r' := r + [s[|s| - 1]];
      && c !in r' && |r'| <= |s| && r' == s[|s| - |r'|..]
      && (c in s ==> |r'| < |s| && s[|s| - |r'| - 1] == c)
      && (c !in s ==> r' == s)
  {
    var init := s[..|s| - 1];
    assert s == init + [s[|s| - 1]];
    assert s[|s| - |r| - 1..] == init[|init| - |r|..] + [s[|s| - 1]];
    assert c in init <==> c in s;
  }

  /** Splitting at a `c` followed by text free of `c` recovers that text. */
  lemma {:induction false} AfterLastSplit(stem: string, c: char, tail: string)
    requires c !in tail
    ensures AfterLast(stem + [c] + tail, c) == tail
    decreases |tail|
  {
    var s := stem + [c] + tail;
    if tail == [] {
      assert s[|s| - 1] == c;
    } else {
      var init := tail[..|tail| - 1];
      assert s[..|s| - 1] == stem + [c] + init;
      assert tail == init + [tail[|tail| - 1]];
      AfterLastSplit(stem, c, init);
    }
  }

  /** `parts.join(sep)`. */
  function Join(parts: seq<string>, sep: string): (r: string)
    ensures |parts| == 1 ==> r == parts[0]
  {
    if parts == [] then ""
    else if |parts| == 1 then parts[0]
    else parts[0] + sep + Join(parts[1..], sep)
  }
}
