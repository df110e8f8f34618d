/**
 * The `slugify` helper of models.py: drop every character that is not a word
 * character, whitespace or a hyphen, strip surrounding whitespace, lower-case,
 * then replace each run of hyphens and whitespace by a single hyphen.
 *
 * Character classes are the ASCII ones: `\w` is letters, digits and `_`, and
 * one whitespace predicate serves both `\s` and `str.strip`.
 */
module Slugs {

  /** `\w` on ASCII: letters, digits and the underscore. */
  predicate IsWordChar(c: char) {
    'a' <= c <= 'z' || 'A' <= c <= 'Z' || '0' <= c <= '9' || c == '_'
  }

  /** The ASCII characters Python counts as whitespace (tab to carriage return, the four separators, space). */
  predicate IsSpace(c: char) {
    9 <= c as int <= 13 || 28 <= c as int <= 32
  }

  /** A member of the class `[-\s]` that the second substitution collapses. */
  predicate IsSeparator(c: char) {
    c == '-' || IsSpace(c)
  }

  predicate IsUpper(c: char) {
    'A' <= c <= 'Z'
  }

  /** The characters a slug is made of: lower-case word characters and the hyphen. */
  predicate IsSlugChar(c: char) {
    'a' <= c <= 'z' || '0' <= c <= '9' || c == '_' || c == '-'
  }

  /** No two hyphens side by side. */
  predicate NoDoubleHyphen(s: string) {
    forall i, j :: 0 <= i < |s| && 0 <= j < |s| && j == i + 1 ==> !(s[i] == '-' && s[j] == '-')
  }

  /** What `slugify` can produce: slug characters only, never two hyphens in a row. */
  predicate IsSlug(s: string) {
    && (forall i :: 0 <= i < |s| ==> IsSlugChar(s[i]))
    && NoDoubleHyphen(s)
  }

  /** Only characters `\w`, `\s` or `-` match. */
  predicate WordsAndSeparators(s: string) {
    forall i :: 0 <= i < |s| ==> IsWordChar(s[i]) || IsSeparator(s[i])
  }

  function ToLower(c: char): (d: char)
    ensures !IsUpper(d)
    ensures IsUpper(c) ==> IsWordChar(d) && d as int == c as int + 32
    ensures !IsUpper(c) ==> d == c
  {
    if IsUpper(c) then (c as int + 32) as char else c
  }

  /** `re.sub(r"[^\w\s-]", "", s)`: keep word characters, whitespace and hyphens, in order. */
  function RemoveDisallowed(s: string): (r: string)
    ensures |r| <= |s|
    ensures WordsAndSeparators(r)
    ensures WordsAndSeparators(s) ==> r == s
  {
    if s == [] then []
    else if IsWordChar(s[0]) || IsSeparator(s[0]) then [s[0]] + RemoveDisallowed(s[1..])
    else RemoveDisallowed(s[1..])
  }

  /** The substitution works character by character: it distributes over concatenation. */
  lemma {:induction false} RemoveDisallowedAppend(a: string, b: string)
    ensures RemoveDisallowed(a + b) == RemoveDisallowed(a) + RemoveDisallowed(b)
    decreases |a|
  {
    if a != [] {
      assert (a + b)[0] == a[0] && (a + b)[1..] == a[1..] + b;
      RemoveDisallowedAppend(a[1..], b);
    } else {
      assert a + b == b;
    }
  }

  /** On one character: kept exactly when it is a word character, whitespace or a hyphen. */
  lemma RemoveDisallowedOne(c: char)
    ensures RemoveDisallowed([c]) == (if IsWordChar(c) || IsSeparator(c) then [c] else [])
  {
    assert [c][1..] == [];
  }

  /** How many whitespace characters open `s`. */
  function LeadingSpaces(s: string): (n: nat)
    ensures n <= |s|
    ensures forall i :: 0 <= i < n ==> IsSpace(s[i])
    ensures n == |s| || !IsSpace(s[n])
  {
    if s != [] && IsSpace(s[0]) then 1 + LeadingSpaces(s[1..]) else 0
  }

  /** How many whitespace characters close `s`. */
  function TrailingSpaces(s: string): (n: nat)
    ensures n <= |s|
    ensures forall i :: |s| - n <= i < |s| ==> IsSpace(s[i])
    ensures n == |s| || !IsSpace(s[|s| - n - 1])
  {
    if s != [] && IsSpace(s[|s| - 1]) then 1 + TrailingSpaces(s[..|s| - 1]) else 0
  }

  /**
   * `str.strip()`: the slice of `s` that starts after its leading whitespace
   * and ends before its trailing whitespace.
   */
  function Strip(s: string): (r: string)
    ensures var lo := LeadingSpaces(s); lo + |r| <= |s| && r == s[lo..lo + |r|]
    ensures forall i :: LeadingSpaces(s) + |r| <= i < |s| ==> IsSpace(s[i])
    ensures r == [] || (!IsSpace(r[0]) && !IsSpace(r[|r| - 1]))
    ensures (forall i :: 0 <= i < |s| ==> !IsSpace(s[i])) ==> r == s
    ensures WordsAndSeparators(s) ==> WordsAndSeparators(r)
  {
    var lo := LeadingSpaces(s);
    var hi := if lo == |s| then lo else |s| - TrailingSpaces(s);
    s[lo..hi]
  }

  /** `str.lower()` on ASCII. */
  function Lower(s: string): (r: string)
    ensures |r| == |s|
    ensures forall i :: 0 <= i < |s| ==> r[i] == ToLower(s[i])
  {
    if s == [] then [] else [ToLower(s[0])] + Lower(s[1..])
  }

  function DropSeparators(s: string): (r: string)
    ensures |r| <= |s| && r == s[|s| - |r|..]
    ensures r == [] || !IsSeparator(r[0])
    ensures (s == [] || !IsSeparator(s[0])) ==> r == s
  {
    if s != [] && IsSeparator(s[0]) then DropSeparators(s[1..]) else s
  }

  /**
   * `re.sub(r"[-\s]+", "-", s)`: every maximal run of separators becomes one
   * hyphen in its place (`RunThenRest`), every other character is kept
   * (`CollapseNonSeparator`), and the pieces are collapsed independently
   * (`CollapseAppend`).
   */
  function CollapseSeparators(s: string): (r: string)
    ensures r == [] <==> s == []
    ensures (r != [] && r[0] == '-') <==> (s != [] && IsSeparator(s[0]))
    ensures NoDoubleHyphen(r)
    decreases |s|
  {
    if s == [] then []
    else if IsSeparator(s[0]) then
      var rest := CollapseSeparators(DropSeparators(s[1..]));
      ConsNoDoubleHyphen('-', rest);
      "-" + rest
    else
      var rest := CollapseSeparators(s[1..]);
      ConsNoDoubleHyphen(s[0], rest);
      [s[0]] + rest
  }

  /** A character put in front of a string without double hyphens adds none unless both are hyphens. */
  lemma ConsNoDoubleHyphen(c: char, rest: string)
    requires NoDoubleHyphen(rest)
    requires c == '-' ==> rest == [] || rest[0] != '-'
    ensures NoDoubleHyphen([c] + rest)
  {
    var r := [c] + rest;
    assert forall i :: 1 <= i < |r| ==> r[i] == rest[i - 1];
  }

  /** Collapsing writes hyphens and otherwise only non-separator characters of its input. */
  lemma {:induction false} CollapseKeepsChars(s: string)
    ensures forall c :: c in CollapseSeparators(s) ==> c == '-' || (c in s && !IsSeparator(c))
    decreases |s|
  {
    if s != [] {
      if IsSeparator(s[0]) {
        var tail := DropSeparators(s[1..]);
        CollapseKeepsChars(tail);
        assert forall c :: c in tail ==> c in s;
      } else {
        CollapseKeepsChars(s[1..]);
        assert forall c :: c in s[1..] ==> c in s;
      }
    }
  }

  /** The characters of `s` that are not separators, in order. */
  function NonSeparators(s: string): (r: string)
    ensures forall i :: 0 <= i < |r| ==> !IsSeparator(r[i])
  {
    if s == [] then []
    else if IsSeparator(s[0]) then NonSeparators(s[1..])
    else [s[0]] + NonSeparators(s[1..])
  }

  function Hyphens(s: string): nat {
    if s == [] then 0 else (if s[0] == '-' then 1 else 0) + Hyphens(s[1..])
  }

  /**
   * How many positions of `s` start a run of separators, reading left to
   * right; `afterSeparator` says whether the character before `s` was one.
   */
  function RunStarts(afterSeparator: bool, s: string): nat
    decreases |s|
  {
    if s == [] then 0
    else (if IsSeparator(s[0]) && !afterSeparator then 1 else 0) + RunStarts(IsSeparator(s[0]), s[1..])
  }

  /** The number of maximal runs of separators in `s`. */
  function SeparatorRuns(s: string): nat {
    RunStarts(false, s)
  }

  lemma {:induction false} NonSeparatorsDrop(s: string)
    ensures NonSeparators(DropSeparators(s)) == NonSeparators(s)
    decreases |s|
  {
    if s != [] && IsSeparator(s[0]) {
      NonSeparatorsDrop(s[1..]);
    }
  }

  /** Separators skipped after a separator start no run. */
  lemma {:induction false} RunStartsDrop(s: string)
    ensures RunStarts(true, DropSeparators(s)) == RunStarts(true, s)
    decreases |s|
  {
    if s != [] && IsSeparator(s[0]) {
      RunStartsDrop(s[1..]);
    }
  }

  /** Collapsing keeps every non-separator character, in order, and adds none. */
  lemma {:induction false} CollapseKeepsNonSeparators(s: string)
    ensures NonSeparators(CollapseSeparators(s)) == NonSeparators(s)
    decreases |s|
  {
    if s != [] {
      var r := CollapseSeparators(s);
      if IsSeparator(s[0]) {
        var tail := DropSeparators(s[1..]);
        CollapseKeepsNonSeparators(tail);
        NonSeparatorsDrop(s[1..]);
        assert r[1..] == CollapseSeparators(tail);
      } else {
        CollapseKeepsNonSeparators(s[1..]);
        assert r[1..] == CollapseSeparators(s[1..]);
      }
    }
  }

  /** Collapsing writes exactly one hyphen per maximal run of separators. */
  lemma {:induction false} CollapseHyphenPerRun(s: string)
    ensures Hyphens(CollapseSeparators(s)) == SeparatorRuns(s)
    decreases |s|
  {
    if s != [] {
      var r := CollapseSeparators(s);
      if IsSeparator(s[0]) {
        var tail := DropSeparators(s[1..]);
        CollapseHyphenPerRun(tail);
        RunStartsDrop(s[1..]);
        assert r[1..] == CollapseSeparators(tail);
        assert RunStarts(true, tail) == RunStarts(false, tail) by {
          if tail != [] {
            assert !IsSeparator(tail[0]);
          }
        }
      } else {
        CollapseHyphenPerRun(s[1..]);
        assert r[1..] == CollapseSeparators(s[1..]);
      }
    }
  }

  /** Skipping separators stops before a string's last character when that one is not a separator. */
  lemma {:induction false} DropSeparatorsAppend(a: string, b: string)
    requires a != [] && !IsSeparator(a[|a| - 1])
    ensures DropSeparators(a + b) == DropSeparators(a) + b
    ensures DropSeparators(a) != [] && DropSeparators(a)[|DropSeparators(a)| - 1] == a[|a| - 1]
    decreases |a|
  {
    TailOfAppend(a, b);
    if IsSeparator(a[0]) {
      DropSeparatorsAppend(a[1..], b);
    }
  }

  /** Skipping separators over a run of them lands at the next non-separator. */
  lemma {:induction false} DropSeparatorsRun(run: string, b: string)
    requires forall i :: 0 <= i < |run| ==> IsSeparator(run[i])
    requires b == [] || !IsSeparator(b[0])
    ensures DropSeparators(run + b) == b
    decreases |run|
  {
    if run == [] {
      assert run + b == b;
    } else {
      TailOfAppend(run, b);
      DropSeparatorsRun(run[1..], b);
    }
  }

  /** A non-separator is kept as it is. */
  lemma CollapseNonSeparator(c: char)
    requires !IsSeparator(c)
    ensures CollapseSeparators([c]) == [c]
  {
  }

  /**
   * Collapsing works piecewise at a boundary that follows a non-separator, so
   * with `RunThenRest` and `CollapseNonSeparator` it fixes the output of every input.
   */
  lemma {:induction false} CollapseAppend(a: string, b: string)
    requires a == [] || !IsSeparator(a[|a| - 1])
    ensures CollapseSeparators(a + b) == CollapseSeparators(a) + CollapseSeparators(b)
    decreases |a|
  {
    if a == [] {
      assert a + b == b;
    } else if IsSeparator(a[0]) {
      var rest := a[1..];
      assert rest != [] && rest[|rest| - 1] == a[|a| - 1];
      DropSeparatorsAppend(rest, b);
      CollapseAppend(DropSeparators(rest), b);
      CollapseAppendSeparator(a, b);
    } else {
      CollapseAppend(a[1..], b);
      CollapseAppendOther(a, b);
    }
  }

  /** One step of collapsing a string that starts with a separator. */
  lemma CollapseHeadSeparator(s: string)
    requires s != [] && IsSeparator(s[0])
    ensures CollapseSeparators(s) == "-" + CollapseSeparators(DropSeparators(s[1..]))
  {
  }

  /** One step of collapsing a string that starts with a non-separator. */
  lemma CollapseHeadOther(s: string)
    requires s != [] && !IsSeparator(s[0])
    ensures CollapseSeparators(s) == [s[0]] + CollapseSeparators(s[1..])
  {
  }

  /** The step of `CollapseAppend` for a leading separator. */
  lemma CollapseAppendSeparator(a: string, b: string)
    requires a != [] && IsSeparator(a[0])
    requires DropSeparators(a[1..] + b) == DropSeparators(a[1..]) + b
    requires var tail := DropSeparators(a[1..]);
      CollapseSeparators(tail + b) == CollapseSeparators(tail) + CollapseSeparators(b)
    ensures CollapseSeparators(a + b) == CollapseSeparators(a) + CollapseSeparators(b)
  {
    var ab := a + b;
    TailOfAppend(a, b);
    CollapseHeadSeparator(ab);
    CollapseHeadSeparator(a);
    AppendAssociative("-", CollapseSeparators(DropSeparators(a[1..])), CollapseSeparators(b));
  }

  /** The step of `CollapseAppend` for a leading non-separator. */
  lemma CollapseAppendOther(a: string, b: string)
    requires a != [] && !IsSeparator(a[0])
    requires CollapseSeparators(a[1..] + b) == CollapseSeparators(a[1..]) + CollapseSeparators(b)
    ensures CollapseSeparators(a + b) == CollapseSeparators(a) + CollapseSeparators(b)
  {
    var ab := a + b;
    TailOfAppend(a, b);
    CollapseHeadOther(ab);
    CollapseHeadOther(a);
    AppendAssociative([a[0]], CollapseSeparators(a[1..]), CollapseSeparators(b));
  }

  lemma TailOfAppend(a: string, b: string)
    requires a != []
    ensures (a + b)[0] == a[0] && (a + b)[1..] == a[1..] + b
  {
  }

  lemma AppendAssociative(x: string, y: string, z: string)
    ensures x + (y + z) == (x + y) + z
  {
  }

  /** A maximal run of separators becomes exactly one hyphen, in its place. */
  lemma RunThenRest(run: string, b: string)
    requires run != [] && forall i :: 0 <= i < |run| ==> IsSeparator(run[i])
    requires b == [] || !IsSeparator(b[0])
    ensures CollapseSeparators(run + b) == "-" + CollapseSeparators(b)
  {
    TailOfAppend(run, b);
    CollapseHeadSeparator(run + b);
    DropSeparatorsRun(run[1..], b);
  }

  /** Collapsing a string of slug characters and separators leaves slug characters only. */
  lemma CollapseSlugChars(s: string)
    requires forall i :: 0 <= i < |s| ==> IsSlugChar(s[i]) || IsSeparator(s[i])
    ensures forall i :: 0 <= i < |CollapseSeparators(s)| ==> IsSlugChar(CollapseSeparators(s)[i])
  {
    var r := CollapseSeparators(s);
    CollapseKeepsChars(s);
    forall i | 0 <= i < |r|
      ensures IsSlugChar(r[i])
    {
      assert r[i] in r;
      if r[i] != '-' {
        var j :| 0 <= j < |s| && s[j] == r[i];
      }
    }
  }

  /** `slugify` from models.py. */
  function Slugify(value: string): (slug: string)
    ensures IsSlug(slug)
  {
    var kept := RemoveDisallowed(value);
    var stripped := Strip(kept);
    var lowered := Lower(stripped);
    LowerGivesSlugChars(stripped);
    CollapseSlugChars(lowered);
    CollapseSeparators(lowered)
  }

  /** Lower-casing word characters and separators gives slug characters and separators. */
  lemma LowerGivesSlugChars(s: string)
    requires WordsAndSeparators(s)
    ensures forall i :: 0 <= i < |Lower(s)| ==> IsSlugChar(Lower(s)[i]) || IsSeparator(Lower(s)[i])
  {
  }

  /** A slug passes through `slugify` unchanged. */
  lemma {:induction false} SlugIsFixpoint(s: string)
    requires IsSlug(s)
    ensures Slugify(s) == s
  {
    assert forall i :: 0 <= i < |s| ==> IsSlugChar(s[i]);
    assert RemoveDisallowed(s) == s;
    assert Strip(s) == s;
    LowerFixesSlug(s);
    CollapseFixesSlug(s);
  }

  /** Lower-casing leaves a slug unchanged. */
  lemma LowerFixesSlug(s: string)
    requires IsSlug(s)
    ensures Lower(s) == s
  {
    assert forall i :: 0 <= i < |s| ==> Lower(s)[i] == s[i];
  }

  /** The tail of a slug is a slug. */
  lemma SlugTail(s: string)
    requires IsSlug(s) && s != []
    ensures IsSlug(s[1..])
  {
    var t := s[1..];
    assert forall i :: 0 <= i < |t| ==> t[i] == s[i + 1];
  }

  /** In a slug a hyphen is followed by a slug character that is not a separator. */
  lemma SlugAfterHyphen(s: string)
    requires IsSlug(s) && |s| >= 2 && s[0] == '-'
    ensures !IsSeparator(s[1..][0])
  {
    assert IsSlugChar(s[1]) && s[1] != '-';
  }

  lemma {:induction false} CollapseFixesSlug(s: string)
    requires IsSlug(s)
    ensures CollapseSeparators(s) == s
    decreases |s|
  {
    if s != [] {
      var c, t := s[0], s[1..];
      assert IsSlug(t) by {
        SlugTail(s);
      }
      assert CollapseSeparators(t) == t by {
        CollapseFixesSlug(t);
      }
      assert c == '-' || !IsSeparator(c) by {
        assert IsSlugChar(s[0]);
      }
      assert c == '-' ==> DropSeparators(t) == t by {
        if c == '-' && t != [] {
          SlugAfterHyphen(s);
        }
      }
      assert s == [c] + t;
      CollapseCons(c, t);
    }
  }

  /** A hyphen not followed by a separator, or a non-separator, in front of a collapsed string is kept as is. */
  lemma CollapseCons(c: char, t: string)
    requires CollapseSeparators(t) == t
    requires c == '-' || !IsSeparator(c)
    requires c == '-' ==> DropSeparators(t) == t
    ensures CollapseSeparators([c] + t) == [c] + t
  {
    assert ([c] + t)[0] == c && ([c] + t)[1..] == t;
  }

  /** `slugify` is idempotent. */
  lemma SlugifyIdempotent(value: string)
    ensures Slugify(Slugify(value)) == Slugify(value)
  {
    SlugIsFixpoint(Slugify(value));
  }

}
