/**
 * The page text sent to the model: the tag-stripped page with every run of
 * whitespace replaced by one space (`preg_replace('/\s+/', ' ', …)`), then
 * cut to its first 5000 characters (`mb_substr(…, 0, 5000)`).
 */
module TextExtract {
  import opened PhpString

  const MaxChars: nat := 5000

  /** PCRE `\s` without the u flag: tab, line feed, vertical tab, form feed, carriage return, space. */
  predicate IsSpace(c: char) {
    c == ' ' || ('\t' <= c <= '\r')
  }

  /** `s` without its leading run of whitespace. */
  function DropSpaces(s: string): (r: string)
    ensures |r| <= |s|
    ensures r == [] || !IsSpace(r[0])
    decreases |s|
  {
    if s != [] && IsSpace(s[0]) then DropSpaces(s[1..]) else s
  }

  /** `preg_replace('/\s+/', ' ', s)`: each maximal run of whitespace becomes one space. */
  function Collapse(s: string): (r: string)
    ensures |r| <= |s|
    decreases |s|
  {
    if s == [] then []
    else if IsSpace(s[0]) then [' '] + Collapse(DropSpaces(s[1..]))
    else [s[0]] + Collapse(s[1..])
  }

  /** No two neighbouring characters are both whitespace. */
  predicate NoDoubleSpace(r: string) {
    forall i :: 0 <= i < |r| - 1 ==> !(IsSpace(r[i]) && IsSpace(r[i + 1]))
  }

  /** The only whitespace character is the plain space. */
  predicate OnlyPlainSpaces(r: string) {
    forall i :: 0 <= i < |r| ==> IsSpace(r[i]) ==> r[i] == ' '
  }

  /** The characters of `s` that are not whitespace, in order. */
  function NonSpace(s: string): string
    decreases |s|
  {
    if s == [] then [] else (if IsSpace(s[0]) then [] else [s[0]]) + NonSpace(s[1..])
  }

  lemma CollapseHead(s: string)
    requires s != []
    ensures Collapse(s) != [] && (IsSpace(s[0]) <==> IsSpace(Collapse(s)[0]))
  {
  }

  /** The collapsed text has no two whitespace characters in a row and no whitespace but ' '. */
  lemma {:induction false} CollapseShape(s: string)
    ensures NoDoubleSpace(Collapse(s)) && OnlyPlainSpaces(Collapse(s))
    decreases |s|
  {
    if s != [] {
      var r := Collapse(s);
      if IsSpace(s[0]) {
        var t := DropSpaces(s[1..]);
        CollapseShape(t);
        var ct := Collapse(t);
        assert r == [' '] + ct;
        if t != [] { CollapseHead(t); }
        forall i | 0 <= i < |r| - 1 ensures !(IsSpace(r[i]) && IsSpace(r[i + 1])) {
          if i > 0 { assert r[i] == ct[i - 1] && r[i + 1] == ct[i]; }
        }
        forall i | 0 <= i < |r| && IsSpace(r[i]) ensures r[i] == ' ' {
          if i > 0 { assert r[i] == ct[i - 1]; }
        }
      } else {
        var ct := Collapse(s[1..]);
        CollapseShape(s[1..]);
        assert r == [s[0]] + ct;
        forall i | 0 <= i < |r| - 1 ensures !(IsSpace(r[i]) && IsSpace(r[i + 1])) {
          if i > 0 { assert r[i] == ct[i - 1] && r[i + 1] == ct[i]; }
        }
        forall i | 0 <= i < |r| && IsSpace(r[i]) ensures r[i] == ' ' {
          if i > 0 { assert r[i] == ct[i - 1]; }
        }
      }
    }
  }

  lemma {:induction false} NonSpaceDropSpaces(s: string)
    ensures NonSpace(DropSpaces(s)) == NonSpace(s)
    decreases |s|
  {
    if s != [] && IsSpace(s[0]) {
      NonSpaceDropSpaces(s[1..]);
    }
  }

  /** Collapsing loses no visible character and adds none. */
  lemma {:induction false} CollapseKeepsText(s: string)
    ensures NonSpace(Collapse(s)) == NonSpace(s)
    decreases |s|
  {
    if s != [] {
      if IsSpace(s[0]) {
        var t := DropSpaces(s[1..]);
        CollapseKeepsText(t);
        NonSpaceDropSpaces(s[1..]);
        assert ([' '] + Collapse(t))[1..] == Collapse(t);
      } else {
        CollapseKeepsText(s[1..]);
        assert ([s[0]] + Collapse(s[1..]))[1..] == Collapse(s[1..]);
      }
    }
  }

  // ---------------------------------------------------------------------------
  // Each whitespace run becomes exactly one space
  // ---------------------------------------------------------------------------

  predicate AllSpaces(w: string) {
    forall i :: 0 <= i < |w| ==> IsSpace(w[i])
  }

  /** Text ending in a visible character keeps that character, and so is not emptied. */
  lemma {:induction false} DropSpacesKeepsLast(a: string)
    requires a != [] && !IsSpace(a[|a| - 1])
    ensures DropSpaces(a) != [] && DropSpaces(a)[|DropSpaces(a)| - 1] == a[|a| - 1]
    decreases |a|
  {
    if IsSpace(a[0]) {
      DropSpacesKeepsLast(a[1..]);
    }
  }

  /** A run of whitespace in front of text that does not start with whitespace is dropped whole. */
  lemma {:induction false} DropSpacesRun(w: string, y: string)
    requires AllSpaces(w) && (y == [] || !IsSpace(y[0]))
    ensures DropSpaces(w + y) == y
    decreases |w|
  {
    if w == [] {
      assert w + y == y;
    } else {
      assert (w + y)[0] == w[0] && (w + y)[1..] == w[1..] + y;
      assert AllSpaces(w[1..]) by {
        forall i | 0 <= i < |w[1..]| ensures IsSpace(w[1..][i]) { assert w[1..][i] == w[i + 1]; }
      }
      DropSpacesRun(w[1..], y);
    }
  }

  /** Leading whitespace of text that ends in a visible character is dropped without looking past it. */
  lemma {:induction false} DropSpacesAppend(a: string, b: string)
    requires a != [] && !IsSpace(a[|a| - 1])
    ensures DropSpaces(a + b) == DropSpaces(a) + b
    decreases |a|
  {
    assert (a + b)[0] == a[0];
    if IsSpace(a[0]) {
      assert (a + b)[1..] == a[1..] + b;
      DropSpacesAppend(a[1..], b);
    }
  }

  /** A leading whitespace run becomes one ' '. */
  lemma RunAtStart(w: string, y: string)
    requires w != [] && AllSpaces(w)
    requires y == [] || !IsSpace(y[0])
    ensures Collapse(w + y) == " " + Collapse(y)
  {
    assert (w + y)[0] == w[0] && (w + y)[1..] == w[1..] + y;
    assert AllSpaces(w[1..]) by {
      forall i | 0 <= i < |w[1..]| ensures IsSpace(w[1..][i]) { assert w[1..][i] == w[i + 1]; }
    }
    DropSpacesRun(w[1..], y);
  }

  /** Text that ends in a visible character collapses independently of what follows it. */
  lemma {:induction false} CollapseAppend(x: string, rest: string)
    requires x == [] || !IsSpace(x[|x| - 1])
    ensures Collapse(x + rest) == Collapse(x) + Collapse(rest)
    decreases |x|
  {
    if x == [] {
      assert x + rest == rest;
    } else {
      var x' := x[1..];
      assert (x + rest)[0] == x[0] && (x + rest)[1..] == x' + rest;
      if !IsSpace(x[0]) {
        CollapseAppend(x', rest);
      } else {
        assert x' != [] && x'[|x'| - 1] == x[|x| - 1];
        DropSpacesAppend(x', rest);
        DropSpacesKeepsLast(x');
        CollapseAppend(DropSpaces(x'), rest);
      }
    }
  }

  /**
   * A non-empty whitespace run between text that does not end with whitespace
   * and text that does not start with it becomes exactly one ' '.
   */
  lemma CollapseRun(x: string, w: string, y: string)
    requires w != [] && AllSpaces(w)
    requires x == [] || !IsSpace(x[|x| - 1])
    requires y == [] || !IsSpace(y[0])
    ensures Collapse(x + w + y) == Collapse(x) + " " + Collapse(y)
  {
    assert x + w + y == x + (w + y);
    CollapseAppend(x, w + y);
    RunAtStart(w, y);
  }

  /** `mb_substr(s, 0, 5000)`. */
  function Truncate(s: string): (r: string)
    ensures |r| == (if |s| <= MaxChars then |s| else MaxChars)
    ensures r == s[..|r|]
  {
    if |s| <= MaxChars then s else s[..MaxChars]
  }

  /** The extracted page text; `stripped` is the result of `strip_tags`, left abstract. */
  function ExtractText(stripped: string): string {
    Truncate(Collapse(stripped))
  }

  /**
   * Extracted text is the first 5000 characters of the collapsed text (all of
   * it when shorter), and has no whitespace runs.
   */
  lemma ExtractBounds(stripped: string)
    ensures var r := ExtractText(stripped);
      && |r| == (if |Collapse(stripped)| <= MaxChars then |Collapse(stripped)| else MaxChars)
      && r == Collapse(stripped)[..|r|]
      && NoDoubleSpace(r) && OnlyPlainSpaces(r)
  {
    var c := Collapse(stripped);
    var r := ExtractText(stripped);
    CollapseShape(stripped);
    forall i | 0 <= i < |r| - 1 ensures !(IsSpace(r[i]) && IsSpace(r[i + 1])) {
      assert r[i] == c[i] && r[i + 1] == c[i + 1];
    }
    forall i | 0 <= i < |r| && IsSpace(r[i]) ensures r[i] == ' ' {
      assert r[i] == c[i];
    }
  }

  /** The extracted text is `empty()` exactly when the stripped page is: "" stays "", "0" stays "0". */
  lemma ExtractEmptyIff(stripped: string)
    ensures PhpEmpty(ExtractText(stripped)) <==> PhpEmpty(stripped)
  {
    var c := Collapse(stripped);
    var r := ExtractText(stripped);
    if stripped != [] {
      CollapseHead(stripped);
      assert r[0] == c[0];
      if r == "0" {
        assert c[0] == '0' && !IsSpace(stripped[0]);
        assert stripped[0] == '0';
        assert |c| == 1 || |r| == MaxChars;
        assert Collapse(stripped[1..]) == [];
        assert stripped[1..] == [] by {
          if stripped[1..] != [] { CollapseHead(stripped[1..]); }
        }
        assert stripped == [stripped[0]] + stripped[1..];
      }
    }
  }
}
