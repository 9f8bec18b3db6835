/** Character and string operations the routes and the client page perform on
    names, paths and descriptions: JavaScript's `\s` class, `trim()`, the
    `replace(/\s+/g, '-')` and `replace(/\\/g, '/')` rewrites, decimal rendering
    of a timestamp, and `split('.').pop().toLowerCase()`. */
module Text {

  /** The characters JavaScript's `\s` matches and `String.prototype.trim` removes. */
  predicate IsSpace(c: char) {
    c == ' ' || c == '\t' || c == '\n' || c == '\r' || c == '\U{000B}' || c == '\U{000C}'
    || c == '\U{00A0}' || c == '\U{1680}' || ('\U{2000}' <= c <= '\U{200A}')
    || c == '\U{2028}' || c == '\U{2029}' || c == '\U{202F}' || c == '\U{205F}'
    || c == '\U{3000}' || c == '\U{FEFF}'
  }

  predicate NoSpace(s: string) {
    forall i :: 0 <= i < |s| ==> !IsSpace(s[i])
  }

  predicate IsBlank(s: string) {
    forall i :: 0 <= i < |s| ==> IsSpace(s[i])
  }

  /** Removes the leading run of whitespace. */
  function DropSpaces(s: string): (r: string)
    ensures |r| <= |s| && r == s[|s| - |r|..]
    ensures r == [] || !IsSpace(r[0])
    ensures forall i :: 0 <= i < |s| - |r| ==> IsSpace(s[i])
  {
    if s != [] && IsSpace(s[0]) then DropSpaces(s[1..]) else s
  }

  /** Removes the trailing run of whitespace. */
  function DropTrailingSpaces(s: string): (r: string)
    ensures |r| <= |s| && r == s[..|r|]
    ensures r == [] || !IsSpace(r[|r| - 1])
    ensures forall i :: |r| <= i < |s| ==> IsSpace(s[i])
  {
    if s != [] && IsSpace(s[|s| - 1]) then DropTrailingSpaces(s[..|s| - 1]) else s
  }

  /** `s.trim()` */
  function Trim(s: string): string {
    DropTrailingSpaces(DropSpaces(s))
  }

  /** A string trims to nothing exactly when every character of it is whitespace. */
  lemma {:induction false} TrimEmptyIffBlank(s: string)
    ensures Trim(s) == [] <==> IsBlank(s)
  {
    var d := DropSpaces(s);
    if Trim(s) == [] {
      // Nothing survives the trailing trim, so the leading trim left nothing either.
      assert IsBlank(d);
      assert d == [];
    } else {
      var t := Trim(s);
      assert !IsSpace(t[0]);
      assert t[0] == d[0] == s[|s| - |d|];
    }
  }

  /** `s.replace(/\s+/g, '-')`: every maximal run of whitespace becomes one '-'. */
  function DashSpaceRuns(s: string): (r: string)
    ensures NoSpace(r)
    ensures |r| <= |s|
    decreases |s|
  {
    if s == [] then []
    else if IsSpace(s[0]) then "-" + DashSpaceRuns(DropSpaces(s))
    else [s[0]] + DashSpaceRuns(s[1..])
  }

  /** A name without whitespace is left as it is. */
  lemma {:induction false} DashSpaceRunsKeepsPlainNames(s: string)
    requires NoSpace(s)
    ensures DashSpaceRuns(s) == s
    decreases |s|
  {
    if s != [] {
      assert !IsSpace(s[0]);
      DashSpaceRunsKeepsPlainNames(s[1..]);
    }
  }

  /** Rewriting twice is rewriting once. */
  lemma DashSpaceRunsIdempotent(s: string)
    ensures DashSpaceRuns(DashSpaceRuns(s)) == DashSpaceRuns(s)
  {
    DashSpaceRunsKeepsPlainNames(DashSpaceRuns(s));
  }

  /** The characters of `s` other than whitespace and '-', in order. */
  function Letters(s: string): (r: string)
    ensures |r| <= |s|
  {
    if s == [] then []
    else if IsSpace(s[0]) || s[0] == '-' then Letters(s[1..])
    else [s[0]] + Letters(s[1..])
  }

  lemma {:induction false} LettersSkipSpaces(s: string)
    ensures Letters(DropSpaces(s)) == Letters(s)
    decreases |s|
  {
    if s != [] && IsSpace(s[0]) {
      LettersSkipSpaces(s[1..]);
    }
  }

  /** The rewrite only turns whitespace into dashes: every other character
      survives, in its original order. */
  lemma {:induction false} DashSpaceRunsKeepsLetters(s: string)
    ensures Letters(DashSpaceRuns(s)) == Letters(s)
    decreases |s|
  {
    if s == [] {
    } else if IsSpace(s[0]) {
      var d := DropSpaces(s);
      DashSpaceRunsKeepsLetters(d);
      LettersSkipSpaces(s);
      assert ("-" + DashSpaceRuns(d))[1..] == DashSpaceRuns(d);
    } else {
      DashSpaceRunsKeepsLetters(s[1..]);
      assert ([s[0]] + DashSpaceRuns(s[1..]))[1..] == DashSpaceRuns(s[1..]);
    }
  }

  /** A blank prefix is dropped whole, and nothing after it. */
  lemma {:induction false} DropSpacesOfBlankPrefix(w: string, b: string)
    requires IsBlank(w)
    requires b == [] || !IsSpace(b[0])
    ensures DropSpaces(w + b) == b
    decreases |w|
  {
    if w == [] {
      assert w + b == b;
    } else {
      assert (w + b)[1..] == w[1..] + b;
      DropSpacesOfBlankPrefix(w[1..], b);
    }
  }

  /** A string ending in a non-space keeps whatever follows it when its
      leading whitespace is dropped. */
  lemma {:induction false} DropSpacesKeepsTail(a: string, t: string)
    requires a != [] && !IsSpace(a[|a| - 1])
    ensures DropSpaces(a + t) == DropSpaces(a) + t
    decreases |a|
  {
    assert (a + t)[0] == a[0];
    if IsSpace(a[0]) {
      assert (a + t)[1..] == a[1..] + t;
      DropSpacesKeepsTail(a[1..], t);
    }
  }

  lemma ConcatAssoc(h: string, x: string, tail: string)
    ensures h + (x + tail) == (h + x) + tail
  {
  }

  /** A whitespace run at the very front becomes one '-' before the rest. */
  lemma RunAtFront(w: string, b: string)
    requires w != [] && IsBlank(w)
    requires b == [] || !IsSpace(b[0])
    ensures DashSpaceRuns(w + b) == "-" + DashSpaceRuns(b)
  {
    assert (w + b)[0] == w[0];
    DropSpacesOfBlankPrefix(w, b);
  }

  /** One step of the rewrite when `a` starts with whitespace and ends with
      something else: the leading run lies inside `a`, whatever follows. */
  lemma UnfoldLeadingRun(a: string, t: string)
    requires a != [] && IsSpace(a[0]) && !IsSpace(a[|a| - 1])
    ensures DashSpaceRuns(a + t) == "-" + DashSpaceRuns(DropSpaces(a) + t)
    ensures DashSpaceRuns(a) == "-" + DashSpaceRuns(DropSpaces(a))
  {
    assert (a + t)[0] == a[0];
    DropSpacesKeepsTail(a, t);
  }

  /** One step of the rewrite when `a` starts with a non-space. */
  lemma UnfoldLeadingChar(a: string, t: string)
    requires a != [] && !IsSpace(a[0])
    ensures DashSpaceRuns(a + t) == [a[0]] + DashSpaceRuns(a[1..] + t)
    ensures DashSpaceRuns(a) == [a[0]] + DashSpaceRuns(a[1..])
  {
    assert (a + t)[0] == a[0] && (a + t)[1..] == a[1..] + t;
  }

  /** Each maximal whitespace run becomes exactly one '-': a run `w` between a
      part not ending in whitespace and a part not starting with it is replaced
      by a single dash, and the two parts are rewritten on their own. */
  lemma {:induction false} DashSpaceRunsJoin(a: string, w: string, b: string)
    requires a == [] || !IsSpace(a[|a| - 1])
    requires w != [] && IsBlank(w)
    requires b == [] || !IsSpace(b[0])
    ensures DashSpaceRuns(a + w + b) == DashSpaceRuns(a) + "-" + DashSpaceRuns(b)
    decreases |a|
  {
    var t := w + b;
    var tail := "-" + DashSpaceRuns(b);
    ConcatAssoc(a, w, b);
    ConcatAssoc(DashSpaceRuns(a), "-", DashSpaceRuns(b));
    if a == [] {
      assert a + t == t;
      RunAtFront(w, b);
    } else if IsSpace(a[0]) {
      var d := DropSpaces(a);
      assert d != [] && d[|d| - 1] == a[|a| - 1];
      DashSpaceRunsJoin(d, w, b);
      ConcatAssoc(d, w, b);
      ConcatAssoc(DashSpaceRuns(d), "-", DashSpaceRuns(b));
      UnfoldLeadingRun(a, t);
      ConcatAssoc("-", DashSpaceRuns(d), tail);
    } else {
      var r := a[1..];
      assert r == [] || !IsSpace(r[|r| - 1]);
      DashSpaceRunsJoin(r, w, b);
      ConcatAssoc(r, w, b);
      ConcatAssoc(DashSpaceRuns(r), "-", DashSpaceRuns(b));
      UnfoldLeadingChar(a, t);
      ConcatAssoc([a[0]], DashSpaceRuns(r), tail);
    }
  }

  /** `p.replace(/\\/g, '/')` */
  function SlashNormalize(p: string): (r: string)
    ensures |r| == |p|
    ensures forall i :: 0 <= i < |p| ==> r[i] == (if p[i] == '\\' then '/' else p[i])
  {
    if p == [] then [] else [if p[0] == '\\' then '/' else p[0]] + SlashNormalize(p[1..])
  }

  lemma SlashNormalizeRemovesBackslashes(p: string)
    ensures '\\' !in SlashNormalize(p)
    ensures SlashNormalize(SlashNormalize(p)) == SlashNormalize(p)
  {
    var r := SlashNormalize(p);
    forall i | 0 <= i < |r|
      ensures r[i] != '\\'
    {
    }
  }

  predicate IsDigit(c: char) {
    '0' <= c <= '9'
  }

  function DigitChar(d: nat): (c: char)
    requires d < 10
    ensures IsDigit(c)
  {
    ('0' as int + d) as char
  }

  function DigitValue(c: char): (d: nat)
    requires IsDigit(c)
    ensures d < 10 && DigitChar(d) == c
  {
    c as int - '0' as int
  }

  /** The decimal rendering of a natural number, as `${n}` gives it. */
  function Decimal(n: nat): (r: string)
    ensures r != [] && forall i :: 0 <= i < |r| ==> IsDigit(r[i])
    ensures r[0] == '0' <==> n == 0
    ensures n == 0 ==> r == "0"
  {
    if n < 10 then [DigitChar(n)] else Decimal(n / 10) + [DigitChar(n % 10)]
  }

  function ParseDecimal(s: string): nat
    requires forall i :: 0 <= i < |s| ==> IsDigit(s[i])
  {
    if s == [] then 0 else 10 * ParseDecimal(s[..|s| - 1]) + DigitValue(s[|s| - 1])
  }

  lemma {:induction false} DecimalRoundTrip(n: nat)
    ensures ParseDecimal(Decimal(n)) == n
  {
    var r := Decimal(n);
    if n >= 10 {
      DecimalRoundTrip(n / 10);
      assert r[..|r| - 1] == Decimal(n / 10);
      assert DigitValue(DigitChar(n % 10)) == n % 10;
    } else {
      assert DigitValue(DigitChar(n)) == n;
    }
  }

  lemma DecimalInjective(m: nat, n: nat)
    ensures Decimal(m) == Decimal(n) ==> m == n
  {
    DecimalRoundTrip(m);
    DecimalRoundTrip(n);
  }

  lemma DecimalHasNoDash(n: nat)
    ensures '-' !in Decimal(n)
  {
    var r := Decimal(n);
    forall i | 0 <= i < |r|
      ensures r[i] != '-'
    {
      assert IsDigit(r[i]);
    }
  }

  /** The position of the first '-' in `s`, or `|s|` when there is none. */
  function FirstDash(s: string): (k: nat)
    ensures k <= |s|
  {
    if s == [] then 0 else if s[0] == '-' then 0 else 1 + FirstDash(s[1..])
  }

  lemma {:induction false} FirstDashOfJoin(a: string, b: string)
    requires '-' !in a
    ensures FirstDash(a + "-" + b) == |a|
  {
    if a != [] {
      assert a[0] in a;
      FirstDashOfJoin(a[1..], b);
      assert (a + "-" + b)[1..] == a[1..] + "-" + b;
    }
  }

  /** Joining two parts with '-' loses nothing when the first part has no '-':
      the first dash of the result is the separator. */
  lemma DashJoinInjective(a1: string, b1: string, a2: string, b2: string)
    requires '-' !in a1 && '-' !in a2
    requires a1 + "-" + b1 == a2 + "-" + b2
    ensures a1 == a2 && b1 == b2
  {
    var s := a1 + "-" + b1;
    FirstDashOfJoin(a1, b1);
    FirstDashOfJoin(a2, b2);
    assert a1 == s[..|a1|] == a2;
    assert b1 == s[|a1| + 1..] == b2;
  }

  /** The last piece of `split('.')`: the text after the last '.', or all of it. */
  function AfterLastDot(s: string): (r: string)
    ensures |r| <= |s| && r == s[|s| - |r|..]
    ensures '.' !in r
    ensures |r| < |s| ==> s[|s| - |r| - 1] == '.'
  {
    if s == [] then []
    else if s[|s| - 1] == '.' then []
    else AfterLastDot(s[..|s| - 1]) + [s[|s| - 1]]
  }

  /** A dot-free tail that follows a dot (or is the whole string) is the last piece. */
  lemma {:induction false} AfterLastDotIsDotFreeTail(s: string, k: nat)
    requires k <= |s| && '.' !in s[k..]
    requires k == 0 || s[k - 1] == '.'
    ensures AfterLastDot(s) == s[k..]
    decreases |s|
  {
    if k < |s| {
      assert s[|s| - 1] in s[k..];
      AfterLastDotIsDotFreeTail(s[..|s| - 1], k);
      assert s[..|s| - 1][k..] + [s[|s| - 1]] == s[k..];
    }
  }

  /** ASCII `toLowerCase()`; no other character lowers to 'p', 'd' or 'f'. */
  function LowerChar(c: char): char {
    if 'A' <= c <= 'Z' then (c as int + 32) as char else c
  }

  function Lower(s: string): (r: string)
    ensures |r| == |s| && forall i :: 0 <= i < |s| ==> r[i] == LowerChar(s[i])
  {
    if s == [] then [] else [LowerChar(s[0])] + Lower(s[1..])
  }
}
