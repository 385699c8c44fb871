/** `runModifications`: the instruction list is read in groups of four
    strings (prepend, append, select pattern, replacement), padded with
    empty strings, and the groups are applied from left to right, each to
    the output of the one before. */
module Modifications {
  import opened Strings

  /** Every select pattern is a literal RE2 pattern and every replacement is
      free of `$`: the instructions for which `ReplaceAll` is exactly
      `regexp.ReplaceAll`. Index `4k + 2` is a select pattern, `4k + 3` its
      replacement. */
  predicate PlainGroups(mods: seq<string>) {
    forall i :: 0 <= i < |mods| ==>
      && (i % 4 == 2 ==> LiteralPattern(mods[i]))
      && (i % 4 == 3 ==> LiteralReplacement(mods[i]))
  }

  /** `make([]string, 4 - len(mods) % 4)`: always between one and four empty
      strings, and enough to make the list a multiple of four long. */
  function Padding(mods: seq<string>): (pad: seq<string>)
    ensures 1 <= |pad| <= 4
    ensures (|mods| + |pad|) % 4 == 0
    ensures forall i :: 0 <= i < |pad| ==> pad[i] == ""
  {
    seq(4 - |mods| % 4, _ => "")
  }

  /** The groups of an already padded list, applied in order. */
  function ApplyGroups(s: string, padded: seq<string>): string
    decreases |padded|
  {
    if |padded| < 4 then s
    else ApplyGroups(ReplaceAll(padded[2], padded[3], padded[0] + s + padded[1]), padded[4..])
  }

  /** The value `runModifications(original, mods)` returns. */
  function Modified(original: string, mods: seq<string>): string
    requires PlainGroups(mods)
  {
    ApplyGroups(original, mods + Padding(mods))
  }

  /** `runModifications`: pads the list, then rewrites the running value
      group by group. */
  method RunModifications(original: string, mods: seq<string>) returns (modified: string)
    requires PlainGroups(mods)
    ensures modified == Modified(original, mods)
  {
    modified := original;
    var padded := mods + Padding(mods);
    ghost var result := Modified(original, mods);
    assert padded[0..] == padded;
    var i := 0;
    while i < |padded|
      invariant 0 <= i <= |padded| && i % 4 == 0
      invariant ApplyGroups(modified, padded[i..]) == result
    {
      ghost var before := modified;
      modified := padded[i] + modified;
      modified := modified + padded[i + 1];
      modified := ReplaceAll(padded[i + 2], padded[i + 3], modified);
      ApplyGroupsStep(before, modified, padded, i, result);
      i := i + 4;
    }
  }

  /** Applying the group at position `i` keeps what is left to do the
      same: the groups after it, applied to its output, give the same
      result. */
  lemma ApplyGroupsStep(before: string, after: string, padded: seq<string>, i: nat, result: string)
    requires |padded| % 4 == 0 && i % 4 == 0 && i < |padded|
    requires ApplyGroups(before, padded[i..]) == result
    requires after == ReplaceAll(padded[i + 2], padded[i + 3], padded[i] + before + padded[i + 1])
    ensures i + 4 <= |padded| && (i + 4) % 4 == 0
    ensures ApplyGroups(after, padded[i + 4..]) == result
  {
    assert padded[i..][4..] == padded[i + 4..];
  }

  /** Running the first `k` groups and then the rest is running them all. */
  lemma {:induction false} ApplyGroupsAppend(s: string, first: seq<string>, rest: seq<string>)
    requires |first| % 4 == 0
    ensures ApplyGroups(s, first + rest) == ApplyGroups(ApplyGroups(s, first), rest)
    decreases |first|
  {
    if first != [] {
      assert |first| >= 4;
      var t := ReplaceAll(first[2], first[3], first[0] + s + first[1]);
      var all := first + rest;
      assert all[0] == first[0] && all[1] == first[1] && all[2] == first[2] && all[3] == first[3];
      assert all[4..] == first[4..] + rest;
      assert ApplyGroups(s, all) == ApplyGroups(t, all[4..]);
      assert ApplyGroups(s, first) == ApplyGroups(t, first[4..]);
      ApplyGroupsAppend(t, first[4..], rest);
    } else {
      assert first + rest == rest;
    }
  }

  /** A group of four empty strings is a no-op. */
  lemma EmptyGroupIsNoOp(s: string)
    ensures ApplyGroups(s, ["", "", "", ""]) == s
  {
    ReplaceEmptyByEmpty(s);
    assert "" + s + "" == s;
  }

  /** With no instructions the value comes back unchanged: the only group is
      the all-empty padding group. */
  lemma EmptyListIsIdentity(s: string)
    ensures Modified(s, []) == s
  {
    assert [] + Padding([]) == ["", "", "", ""];
    EmptyGroupIsNoOp(s);
  }

  /** The pipeline composes: a list of whole groups followed by another
      list does what the two do one after the other. */
  lemma ModifiedConcat(s: string, first: seq<string>, rest: seq<string>)
    requires |first| % 4 == 0 && PlainGroups(first + rest)
    ensures PlainGroups(first) && PlainGroups(rest)
    ensures Modified(s, first + rest) == Modified(Modified(s, first), rest)
  {
    PlainGroupsSplit(first, rest);
    WholePadding(first, rest);
    assert first + rest + Padding(rest) == first + (rest + Padding(rest));
    ApplyGroupsAppend(s, first, rest + Padding(rest));
    ApplyGroupsAppend(s, first, ["", "", "", ""]);
    EmptyGroupIsNoOp(ApplyGroups(s, first));
  }

  lemma PlainGroupsSplit(first: seq<string>, rest: seq<string>)
    requires |first| % 4 == 0 && PlainGroups(first + rest)
    ensures PlainGroups(first) && PlainGroups(rest)
  {
    assert forall i :: 0 <= i < |first| ==> first[i] == (first + rest)[i];
    forall i | 0 <= i < |rest|
      ensures i % 4 == 2 ==> LiteralPattern(rest[i])
      ensures i % 4 == 3 ==> LiteralReplacement(rest[i])
    {
      var j := |first| + i;
      assert (first + rest)[j] == rest[i];
      assert j % 4 == i % 4;
    }
  }

  lemma WholePadding(first: seq<string>, rest: seq<string>)
    requires |first| % 4 == 0
    ensures Padding(first) == ["", "", "", ""]
    ensures Padding(first + rest) == Padding(rest)
  {
    assert (|first| + |rest|) % 4 == |rest| % 4;
  }

  /** One complete group: prepend, append, then replace every occurrence of
      the select pattern in the wrapped value. */
  lemma SingleGroup(s: string, prepend: string, append: string, select: string, replacement: string)
    requires LiteralPattern(select) && LiteralReplacement(replacement)
    ensures PlainGroups([prepend, append, select, replacement])
    ensures Modified(s, [prepend, append, select, replacement])
         == ReplaceAll(select, replacement, prepend + s + append)
  {
    var g := [prepend, append, select, replacement];
    assert g + Padding(g) == g + ["", "", "", ""];
    ApplyGroupsAppend(s, g, ["", "", "", ""]);
    EmptyGroupIsNoOp(ReplaceAll(select, replacement, prepend + s + append));
  }

  /** A group that only prepends puts its text in front of the value. */
  lemma PrependGroup(s: string, x: string)
    ensures PlainGroups([x, "", "", ""])
    ensures Modified(s, [x, "", "", ""]) == x + s
  {
    SingleGroup(s, x, "", "", "");
    assert x + s + "" == x + s;
    ReplaceEmptyByEmpty(x + s);
  }

  /** Two prepend groups run in list order: the second one's text ends up
      in front of the first one's. */
  lemma TwoPrepends(s: string, x: string, y: string)
    ensures PlainGroups([x, "", "", "", y, "", "", ""])
    ensures Modified(s, [x, "", "", "", y, "", "", ""]) == y + x + s
  {
    var first: seq<string> := [x, "", "", ""];
    var second: seq<string> := [y, "", "", ""];
    assert first + second == [x, "", "", "", y, "", "", ""];
    PrependGroup(s, x);
    PrependGroup(x + s, y);
    ModifiedConcat(s, first, second);
    assert y + (x + s) == y + x + s;
  }

  /** Order matters: two prepend groups give different results when
      swapped, so the groups do not commute. */
  lemma GroupsDoNotCommute(s: string)
    ensures PlainGroups(["a", "", "", "", "b", "", "", ""])
    ensures PlainGroups(["b", "", "", "", "a", "", "", ""])
    ensures Modified(s, ["a", "", "", "", "b", "", "", ""])
         != Modified(s, ["b", "", "", "", "a", "", "", ""])
  {
    TwoPrepends(s, "a", "b");
    TwoPrepends(s, "b", "a");
    assert ("b" + "a" + s)[0] == 'b';
    assert ("a" + "b" + s)[0] == 'a';
  }
}
