/** The string primitives the engine relies on: `strings.Contains`, and
    `regexp.ReplaceAll` restricted to patterns that are plain literals. */
module Strings {

  /** `sub` occurs in `s` starting at index `i`. */
  predicate OccursAt(s: string, sub: string, i: nat) {
    i + |sub| <= |s| && s[i..i + |sub|] == sub
  }

  /** `strings.Contains(s, sub)`: `sub` occurs in `s` at some position. */
  predicate Contains(s: string, sub: string) {
    exists i: nat | i <= |s| :: OccursAt(s, sub, i)
  }

  /** Characters with a meaning in RE2 syntax. */
  const RegexMeta: string := "\\.+*?()|[]{}^$"

  /** A pattern made only of characters RE2 reads literally: it compiles,
      and every match of it is an occurrence of the pattern itself. */
  predicate LiteralPattern(p: string) {
    forall i :: 0 <= i < |p| ==> p[i] !in RegexMeta
  }

  /** A replacement without `$`, which `Regexp.ReplaceAll` would expand as
      a reference to a submatch. */
  predicate LiteralReplacement(r: string) {
    '$' !in r
  }

  /** What an empty pattern does: it matches the empty string before every
      character and at the end, so `repl` lands in each of those places. */
  function InsertEverywhere(repl: string, s: string): (r: string)
    decreases |s|
  {
    if s == [] then repl else repl + [s[0]] + InsertEverywhere(repl, s[1..])
  }

  /** `regexp.MustCompile(pat).ReplaceAll(s, repl)` for a literal `pat`:
      scan left to right, replace each leftmost occurrence and continue
      after it, so occurrences never overlap and the replacement text is
      not scanned again. */
  function ReplaceAll(pat: string, repl: string, s: string): (r: string)
    decreases |s|
  {
    if pat == [] then InsertEverywhere(repl, s)
    else if |s| < |pat| then s
    else if s[..|pat|] == pat then repl + ReplaceAll(pat, repl, s[|pat|..])
    else [s[0]] + ReplaceAll(pat, repl, s[1..])
  }

  /** The empty string is contained in every string, so the empty name
      filter selects every interpolation. */
  lemma EmptyIsContained(s: string)
    ensures Contains(s, "")
  {
    assert OccursAt(s, "", 0);
  }

  /** Replacing the empty pattern by the empty text changes nothing: this is
      why the padding group of the modification pipeline is a no-op. */
  lemma {:induction false} ReplaceEmptyByEmpty(s: string)
    ensures ReplaceAll("", "", s) == s
  {
    if s != [] {
      ReplaceEmptyByEmpty(s[1..]);
    }
  }

  /** A pattern that does not occur leaves the text unchanged. */
  lemma {:induction false} ReplaceAbsent(pat: string, repl: string, s: string)
    requires pat != [] && !Contains(s, pat)
    ensures ReplaceAll(pat, repl, s) == s
    decreases |s|
  {
    if |s| >= |pat| {
      assert !OccursAt(s, pat, 0);
      if Contains(s[1..], pat) {
        var i: nat :| i <= |s[1..]| && OccursAt(s[1..], pat, i);
        assert s[i + 1..i + 1 + |pat|] == s[1..][i..i + |pat|];
        assert OccursAt(s, pat, i + 1);
      }
      ReplaceAbsent(pat, repl, s[1..]);
    }
  }

  /** Replacing a pattern by itself changes nothing. */
  lemma {:induction false} ReplaceBySelf(pat: string, s: string)
    ensures ReplaceAll(pat, pat, s) == s
    decreases |s|
  {
    if pat == [] {
      ReplaceEmptyByEmpty(s);
    } else if |s| >= |pat| {
      if s[..|pat|] == pat {
        ReplaceBySelf(pat, s[|pat|..]);
        assert s == s[..|pat|] + s[|pat|..];
      } else {
        ReplaceBySelf(pat, s[1..]);
        assert s == [s[0]] + s[1..];
      }
    }
  }
}
