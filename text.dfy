/** The pieces of Kotlin's string library the tokenizer and the encoder search
    rely on: prefix/suffix/substring tests, `String.replace` of a literal,
    `replace(Regex(" +"), " ")` and `trim()`. A string is a sequence of `char`. */
module Text {

  predicate StartsWith(s: string, prefix: string)
  {
    |prefix| <= |s| && s[..|prefix|] == prefix
  }

  predicate EndsWith(s: string, suffix: string)
  {
    |suffix| <= |s| && s[|s| - |suffix|..] == suffix
  }

  /** `s.contains(sub)`: `sub` occurs at some position of `s`. */
  predicate Contains(s: string, sub: string)
    decreases |s|
  {
    StartsWith(s, sub) || (s != [] && Contains(s[1..], sub))
  }

  /** An occurrence of `sub` at any position `i` of `s` is found by `Contains`. */
  lemma {:induction false} ContainsAt(s: string, sub: string, i: nat)
    requires i + |sub| <= |s| && s[i..i + |sub|] == sub
    ensures Contains(s, sub)
    decreases i
  {
    if i > 0 {
      assert s[1..][i - 1..i - 1 + |sub|] == s[i..i + |sub|];
      ContainsAt(s[1..], sub, i - 1);
    }
  }

  /** `s.replace(pattern, replacement)`: every occurrence of `pattern`, found left
      to right without overlap, replaced. */
  function ReplaceAll(s: string, pattern: string, replacement: string): string
    requires |pattern| > 0
    decreases |s|
  {
    if |s| < |pattern| then s
    else if s[..|pattern|] == pattern then replacement + ReplaceAll(s[|pattern|..], pattern, replacement)
    else [s[0]] + ReplaceAll(s[1..], pattern, replacement)
  }

  /** Every character of the result of `replace` comes from `s` or from the
      replacement: a character in neither does not appear. */
  lemma {:induction false} ReplaceAllAvoids(s: string, pattern: string, replacement: string, c: char)
    requires |pattern| > 0 && c !in s && c !in replacement
    ensures c !in ReplaceAll(s, pattern, replacement)
    decreases |s|
  {
    if |s| >= |pattern| {
      if s[..|pattern|] == pattern {
        assert forall k :: |pattern| <= k < |s| ==> s[|pattern|..][k - |pattern|] == s[k];
        ReplaceAllAvoids(s[|pattern|..], pattern, replacement, c);
      } else {
        assert forall k :: 1 <= k < |s| ==> s[1..][k - 1] == s[k];
        ReplaceAllAvoids(s[1..], pattern, replacement, c);
      }
    }
  }

  /** `s` with every `a` changed into `b`. */
  function Substitute(s: string, a: char, b: char): (r: string)
  {
    seq(|s|, i requires 0 <= i < |s| => if s[i] == a then b else s[i])
  }

  /** Replacing a one-character pattern by a one-character string changes
      exactly the occurrences of that character, one for one. */
  lemma {:induction false} ReplaceCharIsSubstitute(s: string, a: char, b: char)
    ensures ReplaceAll(s, [a], [b]) == Substitute(s, a, b)
    decreases |s|
  {
    if |s| > 0 {
      ReplaceCharIsSubstitute(s[1..], a, b);
      var head := if s[0] == a then [b] else [s[0]];
      assert s[..1] == [s[0]];
      assert ReplaceAll(s, [a], [b]) == head + ReplaceAll(s[1..], [a], [b]);
      var sub, rest := Substitute(s, a, b), Substitute(s[1..], a, b);
      assert |sub| == |head + rest|;
      forall i | 0 <= i < |sub|
        ensures sub[i] == (head + rest)[i]
      {
        if i > 0 {
          assert rest[i - 1] == (if s[1..][i - 1] == a then b else s[1..][i - 1]);
        }
      }
    }
  }

  /** `replace` leaves a string alone when the first character of the
      pattern does not occur in it. */
  lemma {:induction false} ReplaceAllAbsent(s: string, pattern: string, replacement: string)
    requires |pattern| > 0 && pattern[0] !in s
    ensures ReplaceAll(s, pattern, replacement) == s
    decreases |s|
  {
    if |s| >= |pattern| {
      assert s[..|pattern|] != pattern by { assert s[0] != pattern[0]; }
      assert pattern[0] !in s[1..] by {
        forall k | 0 <= k < |s| - 1 ensures s[1..][k] != pattern[0] { assert s[1..][k] == s[k + 1]; }
      }
      ReplaceAllAbsent(s[1..], pattern, replacement);
      assert [s[0]] + s[1..] == s;
    }
  }

  /** One pass of `replace` may leave an occurrence of its pattern behind:
      "ÃÃĤ" becomes "ÃĤ". */
  lemma ReplaceIsOnePass()
    ensures ReplaceAll("\U{00C3}\U{00C3}\U{0124}", "\U{00C3}\U{0124}", "\U{0124}") == "\U{00C3}\U{0124}"
  {
    var s := "\U{00C3}\U{00C3}\U{0124}";
    var pat := "\U{00C3}\U{0124}";
    assert s[..2] != pat by { assert s[1] != pat[1]; }
    assert s[1..][..2] == pat;
    assert s[1..][2..] == [];
  }

  // ---------------------------------------------------------------------------
  // replace(Regex(" +"), " ")

  /** No two consecutive spaces. */
  predicate NoDoubleSpace(s: string)
  {
    forall i :: 0 <= i < |s| - 1 ==> !(s[i] == ' ' && s[i + 1] == ' ')
  }

  /** `s` without its leading spaces. */
  function DropSpaces(s: string): (r: string)
    ensures |r| <= |s| && r == s[|s| - |r|..]
    ensures r == [] || r[0] != ' '
    ensures forall i :: 0 <= i < |s| - |r| ==> s[i] == ' '
    decreases |s|
  {
    if s != [] && s[0] == ' ' then DropSpaces(s[1..]) else s
  }

  /** `s.replace(Regex(" +"), " ")`: each maximal run of spaces becomes one
      space. The result is empty exactly when `s` is, starts with the same
      character, and has no two consecutive spaces. */
  function Collapse(s: string): (r: string)
    ensures (r == []) == (s == [])
    ensures r != [] ==> r[0] == s[0]
    ensures NoDoubleSpace(r)
    decreases |s|
  {
    if s == [] then []
    else if s[0] == ' ' then [' '] + Collapse(DropSpaces(s[1..]))
    else [s[0]] + Collapse(s[1..])
  }

  /** `s` without any spaces. */
  function NonSpaces(s: string): (r: string)
    ensures ' ' !in r
  {
    if s == [] then [] else (if s[0] == ' ' then [] else [s[0]]) + NonSpaces(s[1..])
  }

  /** Leading spaces contribute nothing to `NonSpaces`. */
  lemma {:induction false} NonSpacesDrop(s: string)
    ensures NonSpaces(DropSpaces(s)) == NonSpaces(s)
    decreases |s|
  {
    if s != [] && s[0] == ' ' {
      NonSpacesDrop(s[1..]);
    }
  }

  /** Collapsing only touches spaces: every other character stays, in order. */
  lemma {:induction false} CollapseKeepsNonSpaces(s: string)
    ensures NonSpaces(Collapse(s)) == NonSpaces(s)
    decreases |s|
  {
    if s != [] {
      if s[0] == ' ' {
        CollapseKeepsNonSpaces(DropSpaces(s[1..]));
        NonSpacesDrop(s[1..]);
        assert NonSpaces(Collapse(s)) == NonSpaces([' '] + Collapse(DropSpaces(s[1..])));
        assert ([' '] + Collapse(DropSpaces(s[1..])))[1..] == Collapse(DropSpaces(s[1..]));
      } else {
        CollapseKeepsNonSpaces(s[1..]);
        assert ([s[0]] + Collapse(s[1..]))[1..] == Collapse(s[1..]);
      }
    }
  }

  /** A string without double spaces is left as it is, so collapsing twice is
      collapsing once. */
  lemma {:induction false} CollapseFixed(s: string)
    requires NoDoubleSpace(s)
    ensures Collapse(s) == s
    decreases |s|
  {
    if s != [] {
      assert NoDoubleSpace(s[1..]) by {
        forall i | 0 <= i < |s[1..]| - 1
          ensures !(s[1..][i] == ' ' && s[1..][i + 1] == ' ')
        {
          assert s[1..][i] == s[i + 1] && s[1..][i + 1] == s[i + 2];
        }
      }
      if s[0] == ' ' {
        assert s[1..] == [] || s[1] != ' ';
        assert DropSpaces(s[1..]) == s[1..];
      }
      CollapseFixed(s[1..]);
      assert s == [s[0]] + s[1..];
    }
  }

  /** Leading spaces of `a + x` are those of `a`, and also those of `x` when
      `a` is all spaces. */
  lemma {:induction false} DropSpacesAppend(a: string, x: string)
    ensures DropSpaces(a) != [] ==> DropSpaces(a + x) == DropSpaces(a) + x
    ensures DropSpaces(a) == [] ==> DropSpaces(a + x) == DropSpaces(x)
    decreases |a|
  {
    if a != [] {
      assert (a + x)[0] == a[0] && (a + x)[1..] == a[1..] + x;
      if a[0] == ' ' {
        DropSpacesAppend(a[1..], x);
      }
    } else {
      assert a + x == x;
    }
  }

  /** A space put in front of a run of spaces does not change the collapse. */
  lemma {:induction false} CollapseExtraSpace(a: string, w: string)
    requires w != [] && w[0] == ' '
    ensures Collapse(a + ([' '] + w)) == Collapse(a + w)
    decreases |a|
  {
    var x := [' '] + w;
    assert x[0] == ' ' && x[1..] == w;
    if a == [] {
      assert a + x == x && a + w == w;
    } else {
      assert (a + x)[0] == a[0] && (a + x)[1..] == a[1..] + x;
      assert (a + w)[0] == a[0] && (a + w)[1..] == a[1..] + w;
      if a[0] == ' ' {
        var d := DropSpaces(a[1..]);
        DropSpacesAppend(a[1..], x);
        DropSpacesAppend(a[1..], w);
        if d != [] {
          CollapseExtraSpace(d, w);
        }
      } else {
        CollapseExtraSpace(a[1..], w);
      }
    }
  }

  /** A run of two spaces collapses to what a single space does: each run of
      spaces becomes exactly one. With `CollapseFixed` this determines
      `Collapse`. */
  lemma CollapseMerge(a: string, b: string)
    ensures Collapse(a + "  " + b) == Collapse(a + " " + b)
  {
    var w := " " + b;
    assert w[0] == ' ';
    assert a + "  " + b == a + ([' '] + w);
    assert a + " " + b == a + w;
    CollapseExtraSpace(a, w);
  }

  // ---------------------------------------------------------------------------
  // trim()

  /** Kotlin's `Char.isWhitespace()`: the Java whitespace characters and every
      space, line and paragraph separator. */
  predicate IsWhitespace(c: char)
  {
    ('\t' <= c <= '\r') || ('\U{001C}' <= c <= '\U{001F}') || c == ' ' || c == '\U{00A0}' || c == '\U{1680}'
    || ('\U{2000}' <= c <= '\U{200A}') || c == '\U{2028}' || c == '\U{2029}' || c == '\U{202F}'
    || c == '\U{205F}' || c == '\U{3000}'
  }

  /** `s` without its leading whitespace: a suffix of `s` whose first character
      is not whitespace, everything cut off being whitespace. */
  function TrimStart(s: string): (r: string)
    ensures |r| <= |s| && r == s[|s| - |r|..]
    ensures r == [] || !IsWhitespace(r[0])
    ensures forall i :: 0 <= i < |s| - |r| ==> IsWhitespace(s[i])
    decreases |s|
  {
    if s != [] && IsWhitespace(s[0]) then TrimStart(s[1..]) else s
  }

  /** `s` without its trailing whitespace: a prefix of `s` whose last character
      is not whitespace, everything cut off being whitespace. */
  function TrimEnd(s: string): (r: string)
    ensures |r| <= |s| && r == s[..|r|]
    ensures r == [] || !IsWhitespace(r[|r| - 1])
    ensures forall i :: |r| <= i < |s| ==> IsWhitespace(s[i])
    decreases |s|
  {
    if s != [] && IsWhitespace(s[|s| - 1]) then TrimEnd(s[..|s| - 1]) else s
  }

  /** `s.trim()`: a slice of `s` that neither starts nor ends with whitespace,
      with only whitespace cut off on either side. */
  function Trim(s: string): (r: string)
    ensures r == [] || (!IsWhitespace(r[0]) && !IsWhitespace(r[|r| - 1]))
  {
    TrimEnd(TrimStart(s))
  }

  /** A slice of a string without double spaces has none either. */
  lemma NoDoubleSpaceSlice(s: string, i: nat, j: nat)
    requires i <= j <= |s| && NoDoubleSpace(s)
    ensures NoDoubleSpace(s[i..j])
  {
    forall k | 0 <= k < |s[i..j]| - 1
      ensures !(s[i..j][k] == ' ' && s[i..j][k + 1] == ' ')
    {
      assert s[i..j][k] == s[i + k] && s[i..j][k + 1] == s[i + k + 1];
    }
  }

  /** Trimming keeps the absence of double spaces. */
  lemma TrimKeepsNoDoubleSpace(s: string)
    requires NoDoubleSpace(s)
    ensures NoDoubleSpace(Trim(s))
  {
    var t := TrimStart(s);
    NoDoubleSpaceSlice(s, |s| - |t|, |s|);
    NoDoubleSpaceSlice(t, 0, |TrimEnd(t)|);
  }
}
