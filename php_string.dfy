/**
 * The PHP string built-ins the plugin's core relies on, over `string` (a
 * sequence of characters): `trim` with its default character list, the
 * truthiness test `empty`, `explode("\n", …)`, `strpos(…) === 0` and the
 * conversion of an integer to its decimal text.
 */
module PhpString {

  // ---------------------------------------------------------------------------
  // empty() and prefix tests
  // ---------------------------------------------------------------------------

  /** PHP `empty($s)` on a string: true for "" and for "0". */
  predicate PhpEmpty(s: string) {
    s == "" || s == "0"
  }

  /** PHP `strpos($s, $p) === 0`: `s` begins with `p`. */
  predicate StartsWith(s: string, p: string) {
    |p| <= |s| && s[..|p|] == p
  }

  // ---------------------------------------------------------------------------
  // trim()
  // ---------------------------------------------------------------------------

  /** The characters PHP `trim` strips by default: " \t\n\r\0\x0B". */
  predicate IsTrimChar(c: char) {
    c == ' ' || c == '\t' || c == '\n' || c == '\r' || c == '\0' || c == '\U{000B}'
  }

  predicate AllTrimChars(s: string) {
    forall i :: 0 <= i < |s| ==> IsTrimChar(s[i])
  }

  /** Neither end of `s` is a character `trim` would strip. */
  predicate IsTrimmed(s: string) {
    s == [] || (!IsTrimChar(s[0]) && !IsTrimChar(s[|s| - 1]))
  }

  /** PHP `ltrim`: the suffix of `s` after its leading run of trim characters. */
  function TrimLeft(s: string): (r: string)
    ensures |r| <= |s|
    decreases |s|
  {
    if |s| > 0 && IsTrimChar(s[0]) then TrimLeft(s[1..]) else s
  }

  /** `ltrim` keeps a suffix that does not start with a trim character, and drops trim characters only. */
  lemma {:induction false} TrimLeftShape(s: string)
    ensures TrimLeft(s) == s[|s| - |TrimLeft(s)|..]
    ensures TrimLeft(s) == [] || !IsTrimChar(TrimLeft(s)[0])
    ensures AllTrimChars(s[..|s| - |TrimLeft(s)|])
    decreases |s|
  {
    if |s| > 0 && IsTrimChar(s[0]) {
      TrimLeftShape(s[1..]);
      assert s[1..][|s| - 1 - |TrimLeft(s)|..] == s[|s| - |TrimLeft(s)|..];
      var k := |s| - |TrimLeft(s)|;
      forall i | 0 <= i < k ensures IsTrimChar(s[..k][i]) {
        if i > 0 { assert s[..k][i] == s[1..][..k - 1][i - 1]; }
      }
    }
  }

  /** PHP `rtrim`: the prefix of `s` before its trailing run of trim characters. */
  function TrimRight(s: string): (r: string)
    ensures |r| <= |s|
    decreases |s|
  {
    if |s| > 0 && IsTrimChar(s[|s| - 1]) then TrimRight(s[..|s| - 1]) else s
  }

  /** `rtrim` keeps a prefix that does not end with a trim character, and drops trim characters only. */
  lemma {:induction false} TrimRightShape(s: string)
    ensures TrimRight(s) == s[..|TrimRight(s)|]
    ensures TrimRight(s) == [] || !IsTrimChar(TrimRight(s)[|TrimRight(s)| - 1])
    ensures AllTrimChars(s[|TrimRight(s)|..])
    decreases |s|
  {
    if |s| > 0 && IsTrimChar(s[|s| - 1]) {
      var p := s[..|s| - 1];
      TrimRightShape(p);
      assert p[..|TrimRight(s)|] == s[..|TrimRight(s)|];
      var k := |TrimRight(s)|;
      forall j | 0 <= j < |s| - k ensures IsTrimChar(s[k..][j]) {
        if j < |s| - 1 - k { assert s[k..][j] == p[k..][j]; }
      }
    }
  }

  /** PHP `trim`: `s` without its leading and trailing trim characters. */
  function Trim(s: string): (r: string)
    ensures IsTrimmed(r)
    ensures |r| <= |s|
  {
    var t := TrimLeft(s);
    var r := TrimRight(t);
    TrimLeftShape(s);
    TrimRightShape(t);
    assert r != [] ==> r[0] == t[0];
    r
  }

  /** `trim` yields the empty string exactly when every character is a trim character. */
  lemma TrimEmptyIff(s: string)
    ensures Trim(s) == [] <==> AllTrimChars(s)
  {
    var lead, tail := TrimParts(s);
    if Trim(s) == [] {
      assert s == lead + tail;
      AllTrimCharsAppend(lead, tail);
    } else {
      assert s[|lead|] == Trim(s)[0];
    }
  }

  /** `ltrim` removes exactly a leading run of trim characters. */
  lemma {:induction false} TrimLeftSkips(l: string, x: string)
    requires AllTrimChars(l) && (x == [] || !IsTrimChar(x[0]))
    ensures TrimLeft(l + x) == x
    decreases |l|
  {
    if l == [] {
      assert l + x == x;
    } else {
      var s := l + x;
      assert s[0] == l[0] && s[1..] == l[1..] + x;
      assert AllTrimChars(l[1..]) by {
        forall i | 0 <= i < |l[1..]| ensures IsTrimChar(l[1..][i]) { assert l[1..][i] == l[i + 1]; }
      }
      TrimLeftSkips(l[1..], x);
    }
  }

  /** `rtrim` removes exactly a trailing run of trim characters. */
  lemma {:induction false} TrimRightSkips(y: string, t: string)
    requires AllTrimChars(t) && (y == [] || !IsTrimChar(y[|y| - 1]))
    ensures TrimRight(y + t) == y
    decreases |t|
  {
    if t == [] {
      assert y + t == y;
    } else {
      var s := y + t;
      var t' := t[..|t| - 1];
      assert s[|s| - 1] == t[|t| - 1];
      assert s[..|s| - 1] == y + t';
      assert AllTrimChars(t') by {
        forall i | 0 <= i < |t'| ensures IsTrimChar(t'[i]) { assert t'[i] == t[i]; }
      }
      TrimRightSkips(y, t');
    }
  }

  /**
   * `trim` is determined by its meaning: whatever trim characters surround a
   * trimmed middle, `trim` returns exactly that middle.
   */
  lemma TrimUnique(l: string, m: string, t: string)
    requires AllTrimChars(l) && AllTrimChars(t) && IsTrimmed(m)
    ensures Trim(l + m + t) == m
  {
    if m == [] {
      AllTrimCharsAppend(l, t);
      assert l + m + t == l + t;
      TrimEmptyIff(l + t);
    } else {
      ConcatAssoc(l, m, t);
      assert (m + t)[0] == m[0];
      TrimLeftSkips(l, m + t);
      TrimRightSkips(m, t);
    }
  }

  lemma TrimOfTrimmed(s: string)
    requires IsTrimmed(s)
    ensures Trim(s) == s
  {
    TrimUnique([], s, []);
    assert [] + s + [] == s;
  }

  lemma TrimIdempotent(s: string)
    ensures Trim(Trim(s)) == Trim(s)
  {
    TrimOfTrimmed(Trim(s));
  }

  lemma AllTrimCharsAppend(x: string, y: string)
    requires AllTrimChars(x) && AllTrimChars(y)
    ensures AllTrimChars(x + y)
  {
    forall i | 0 <= i < |x + y| ensures IsTrimChar((x + y)[i]) {
      if i < |x| { assert (x + y)[i] == x[i]; } else { assert (x + y)[i] == y[i - |x|]; }
    }
  }

  /** `s` as `trim` sees it: leading trim characters, the result, trailing trim characters. */
  lemma TrimParts(s: string) returns (lead: string, tail: string)
    ensures s == lead + Trim(s) + tail
    ensures AllTrimChars(lead) && AllTrimChars(tail)
  {
    var t := TrimLeft(s);
    var r := TrimRight(t);
    assert Trim(s) == r;
    lead := LeadOf(s);
    tail := TailOf(t);
    ConcatAssoc(lead, r, tail);
  }

  /** The characters `ltrim` drops: `s` is they followed by the result. */
  lemma LeadOf(s: string) returns (lead: string)
    ensures s == lead + TrimLeft(s) && AllTrimChars(lead)
  {
    TrimLeftShape(s);
    lead := s[..|s| - |TrimLeft(s)|];
  }

  /** The characters `rtrim` drops: `t` is the result followed by them. */
  lemma TailOf(t: string) returns (tail: string)
    ensures t == TrimRight(t) + tail && AllTrimChars(tail)
  {
    TrimRightShape(t);
    tail := t[|TrimRight(t)|..];
  }

  /** A leading trim character never changes the result of `trim`. */
  lemma TrimDropLeading(c: char, s: string)
    requires IsTrimChar(c)
    ensures Trim([c] + s) == Trim(s)
  {
    var lead, tail := TrimParts(s);
    var m := Trim(s);
    AllTrimCharsAppend([c], lead);
    ConcatAssoc3([c], lead, m, tail);
    TrimUnique([c] + lead, m, tail);
  }

  /** A trailing trim character never changes the result of `trim`. */
  lemma TrimDropTrailing(s: string, c: char)
    requires IsTrimChar(c)
    ensures Trim(s + [c]) == Trim(s)
  {
    var lead, tail := TrimParts(s);
    var m := Trim(s);
    AllTrimCharsAppend(tail, [c]);
    ConcatAssoc(lead + m, tail, [c]);
    TrimUnique(lead, m, tail + [c]);
  }

  lemma ConcatAssoc<T>(x: seq<T>, y: seq<T>, z: seq<T>)
    ensures x + y + z == x + (y + z)
  {
  }

  lemma ConcatAssoc3<T>(a: seq<T>, b: seq<T>, c: seq<T>, d: seq<T>)
    ensures a + (b + c + d) == (a + b) + c + d
  {
  }

  // ---------------------------------------------------------------------------
  // explode("\n", …)
  // ---------------------------------------------------------------------------

  /** PHP `explode("\n", $s)`: the pieces between newlines; never an empty list. */
  function Split(s: string): (lines: seq<string>)
    ensures |lines| >= 1
    ensures forall i :: 0 <= i < |lines| ==> '\n' !in lines[i]
    decreases |s|
  {
    if s == [] then [""]
    else if s[0] == '\n' then [""] + Split(s[1..])
    else
      var rest := Split(s[1..]);
      [[s[0]] + rest[0]] + rest[1..]
  }

  /** PHP `implode("\n", $lines)`. */
  function Join(lines: seq<string>): string
    requires |lines| >= 1
  {
    if |lines| == 1 then lines[0] else lines[0] + "\n" + Join(lines[1..])
  }

  /** How one more character at the front changes the pieces. */
  lemma SplitCons(c: char, s: string)
    ensures c == '\n' ==> Split([c] + s) == [""] + Split(s)
    ensures c != '\n' ==> Split([c] + s) == [[c] + Split(s)[0]] + Split(s)[1..]
  {
    assert ([c] + s)[0] == c && ([c] + s)[1..] == s;
  }

  /** Splitting loses nothing: joining the pieces gives back the text. */
  lemma {:induction false} JoinSplit(s: string)
    ensures Join(Split(s)) == s
    decreases |s|
  {
    if s == [] {
    } else if s[0] == '\n' {
      JoinSplit(s[1..]);
      assert s == "\n" + s[1..];
    } else {
      var rest := Split(s[1..]);
      JoinSplit(s[1..]);
      if |rest| == 1 {
        assert s == [s[0]] + s[1..];
      } else {
        assert Join(rest) == rest[0] + "\n" + Join(rest[1..]);
        var lines := Split(s);
        assert lines[1..] == rest[1..];
        assert s == [s[0]] + s[1..];
      }
    }
  }

  /** A newline-free text is a single line. */
  lemma {:induction false} SplitNoNewline(x: string)
    requires '\n' !in x
    ensures Split(x) == [x]
    decreases |x|
  {
    if x != [] {
      assert '\n' !in x[1..] by {
        forall i | 0 <= i < |x[1..]| ensures x[1..][i] != '\n' { assert x[1..][i] == x[i + 1]; }
      }
      SplitNoNewline(x[1..]);
      assert x == [x[0]] + x[1..];
    }
  }

  /** A newline-free line followed by a newline splits off as the first piece. */
  lemma {:induction false} SplitLine(x: string, y: string)
    requires '\n' !in x
    ensures Split(x + "\n" + y) == [x] + Split(y)
    decreases |x|
  {
    var s := x + "\n" + y;
    if x == [] {
      assert s == "\n" + y;
      assert s[1..] == y;
    } else {
      assert '\n' !in x[1..] by {
        forall i | 0 <= i < |x[1..]| ensures x[1..][i] != '\n' { assert x[1..][i] == x[i + 1]; }
      }
      SplitLine(x[1..], y);
      assert s[1..] == x[1..] + "\n" + y;
      assert x == [x[0]] + x[1..];
    }
  }

  /** Lines without newlines survive joining and splitting again. */
  lemma {:induction false} SplitJoin(lines: seq<string>)
    requires |lines| >= 1
    requires forall i :: 0 <= i < |lines| ==> '\n' !in lines[i]
    ensures Split(Join(lines)) == lines
    decreases |lines|
  {
    if |lines| == 1 {
      SplitNoNewline(lines[0]);
    } else {
      SplitJoin(lines[1..]);
      SplitLine(lines[0], Join(lines[1..]));
      assert lines == [lines[0]] + lines[1..];
    }
  }

  /** Appending a newline opens a new, empty last line. */
  lemma {:induction false} SplitSnocNewline(s: string)
    ensures Split(s + "\n") == Split(s) + [""]
    decreases |s|
  {
    var s' := s + "\n";
    if s == [] {
      assert s'[1..] == [];
    } else {
      assert s'[0] == s[0];
      assert s'[1..] == s[1..] + "\n";
      SplitSnocNewline(s[1..]);
    }
  }

  /** The last piece, extended by `c`. */
  function ExtendLast(lines: seq<string>, c: char): seq<string>
    requires |lines| >= 1
  {
    lines[..|lines| - 1] + [lines[|lines| - 1] + [c]]
  }

  lemma ExtendLastAfterNewline(R: seq<string>, c: char)
    requires |R| >= 1
    ensures [""] + ExtendLast(R, c) == ExtendLast([""] + R, c)
  {
    var L := [""] + R;
    assert L[..|L| - 1] == [""] + R[..|R| - 1];
    assert L[|L| - 1] == R[|R| - 1];
  }

  lemma ExtendLastAfterChar(h: char, R: seq<string>, c: char)
    requires |R| >= 1
    ensures var R' := ExtendLast(R, c);
      [[h] + R'[0]] + R'[1..] == ExtendLast([[h] + R[0]] + R[1..], c)
  {
    var R' := ExtendLast(R, c);
    var L := [[h] + R[0]] + R[1..];
    if |R| == 1 {
      assert R' == [R[0] + [c]];
      assert [h] + (R[0] + [c]) == ([h] + R[0]) + [c];
    } else {
      assert R'[0] == R[0];
      assert R'[1..] == R[1..|R| - 1] + [R[|R| - 1] + [c]];
      assert L[..|L| - 1] == [[h] + R[0]] + R[1..|R| - 1];
    }
  }

  /** Appending any other character extends the last line. */
  lemma {:induction false} SplitSnocChar(s: string, c: char)
    requires c != '\n'
    ensures Split(s + [c]) == ExtendLast(Split(s), c)
    decreases |s|
  {
    if s == [] {
      SplitCons(c, []);
      assert s + [c] == [c] + [];
      assert [c] + "" == [c];
    } else {
      var h, r := s[0], s[1..];
      assert s == [h] + r;
      assert s + [c] == [h] + (r + [c]);
      SplitSnocChar(r, c);
      SplitCons(h, r);
      SplitCons(h, r + [c]);
      if h == '\n' {
        ExtendLastAfterNewline(Split(r), c);
      } else {
        ExtendLastAfterChar(h, Split(r), c);
      }
    }
  }

  // ---------------------------------------------------------------------------
  // Integers as text
  // ---------------------------------------------------------------------------

  predicate IsDigit(c: char) {
    '0' <= c <= '9'
  }

  function DigitChar(d: nat): (c: char)
    requires d < 10
    ensures IsDigit(c) && c as int - '0' as int == d
  {
    ('0' as int + d) as char
  }

  /** PHP's string form of a non-negative integer, as used in `.` concatenation. */
  function Decimal(n: nat): (r: string)
    ensures |r| >= 1
    ensures forall i :: 0 <= i < |r| ==> IsDigit(r[i])
  {
    if n < 10 then [DigitChar(n)] else Decimal(n / 10) + [DigitChar(n % 10)]
  }

  /** The number a string of decimal digits denotes. */
  function DigitsValue(s: string): nat
    requires forall i :: 0 <= i < |s| ==> IsDigit(s[i])
  {
    if s == [] then 0
    else
      assert IsDigit(s[|s| - 1]);
      DigitsValue(s[..|s| - 1]) * 10 + (s[|s| - 1] as int - '0' as int)
  }

  /** Reading the decimal text of `n` back gives `n`. */
  lemma {:induction false} DecimalRoundTrip(n: nat)
    ensures DigitsValue(Decimal(n)) == n
  {
    if n >= 10 {
      DecimalRoundTrip(n / 10);
      var r := Decimal(n);
      assert r[..|r| - 1] == Decimal(n / 10);
    }
  }

  /** Distinct numbers have distinct decimal texts. */
  lemma DecimalInjective(a: nat, b: nat)
    requires Decimal(a) == Decimal(b)
    ensures a == b
  {
    DecimalRoundTrip(a);
    DecimalRoundTrip(b);
  }
}
