/**
 * The slug normaliser that the rooms and packages admin pages both define:
 * `name.toLowerCase().replace(/[^a-z0-9]+/g, "-").replace(/(^-|-$)/g, "")`.
 */
module Slug {
  import Text
  import Seqs

  /** A character the first regular expression keeps: `[a-z0-9]`. */
  predicate IsSlugChar(c: char) {
    'a' <= c <= 'z' || '0' <= c <= '9'
  }

  /** A finished slug: letters, digits and single dashes, no dash at either end. */
  predicate IsSlug(s: string) {
    && (forall i :: 0 <= i < |s| ==> IsSlugChar(s[i]) || s[i] == '-')
    && (forall i :: 0 <= i < |s| - 1 ==> !(s[i] == '-' && s[i + 1] == '-'))
    && (|s| > 0 ==> s[0] != '-' && s[|s| - 1] != '-')
  }

  /** The first character of the string, if any, that the regular expression keeps, and everything after it. */
  function DropNonSlug(s: string): (r: string)
    ensures |r| <= |s| && r == s[|s| - |r|..]
    ensures |r| == 0 || IsSlugChar(r[0])
    ensures forall i :: 0 <= i < |s| - |r| ==> !IsSlugChar(s[i])
  {
    if |s| > 0 && !IsSlugChar(s[0]) then
      var r := DropNonSlug(s[1..]);
      assert forall i :: 1 <= i < |s| - |r| ==> s[i] == s[1..][i - 1];
      r
    else s
  }

  /** `.replace(/[^a-z0-9]+/g, "-")`: every maximal run of other characters becomes one dash. */
  function Collapse(s: string): (r: string)
    ensures forall i :: 0 <= i < |r| ==> IsSlugChar(r[i]) || r[i] == '-'
    ensures forall i :: 0 <= i < |r| - 1 ==> !(r[i] == '-' && r[i + 1] == '-')
    ensures |r| > 0 <==> |s| > 0
    ensures |r| > 0 ==> (r[0] == '-' <==> !IsSlugChar(s[0]))
    decreases |s|
  {
    if |s| == 0 then ""
    else if IsSlugChar(s[0]) then [s[0]] + Collapse(s[1..])
    else "-" + Collapse(DropNonSlug(s))
  }

  /** `.replace(/(^-|-$)/g, "")`: one leading and one trailing dash are removed. */
  function TrimDashes(s: string): (r: string)
    ensures |s| > 0 && s[0] == '-' ==> r == TrimTrailingDash(s[1..])
    ensures (|s| == 0 || s[0] != '-') ==> r == TrimTrailingDash(s)
  {
    if |s| > 0 && s[0] == '-' then TrimTrailingDash(s[1..]) else TrimTrailingDash(s)
  }

  function TrimTrailingDash(s: string): (r: string)
    ensures |s| > 0 && s[|s| - 1] == '-' ==> r == s[..|s| - 1]
    ensures (|s| == 0 || s[|s| - 1] != '-') ==> r == s
  {
    if |s| > 0 && s[|s| - 1] == '-' then s[..|s| - 1] else s
  }

  /** `generateSlug(name)`. */
  function GenerateSlug(name: string): (r: string)
    ensures IsSlug(r)
  {
    var c := Collapse(Text.ToLower(name));
    TrimDashesMakesSlug(c);
    TrimDashes(c)
  }

  /** A run of characters the expression does not keep is skipped up to the next kept character. */
  lemma {:induction false} DropNonSlugSeparator(sep: string, y: string)
    requires forall i :: 0 <= i < |sep| ==> !IsSlugChar(sep[i])
    requires |y| == 0 || IsSlugChar(y[0])
    ensures DropNonSlug(sep + y) == y
    decreases |sep|
  {
    if |sep| > 0 {
      assert (sep + y)[1..] == sep[1..] + y;
      DropNonSlugSeparator(sep[1..], y);
    }
  }

  /** Skipping leading separators only looks at the prefix while a kept character lies ahead in it. */
  lemma {:induction false} DropNonSlugAppend(x: string, z: string)
    requires |x| > 0 && IsSlugChar(x[|x| - 1])
    ensures DropNonSlug(x + z) == DropNonSlug(x) + z
    decreases |x|
  {
    if !IsSlugChar(x[0]) {
      assert (x + z)[1..] == x[1..] + z;
      DropNonSlugAppend(x[1..], z);
    }
  }

  /** A kept first character is copied. */
  lemma CollapseKept(s: string)
    requires |s| > 0 && IsSlugChar(s[0])
    ensures Collapse(s) == [s[0]] + Collapse(s[1..])
  {}

  /** A leading run of other characters becomes one dash. */
  lemma CollapseSkipped(s: string)
    requires |s| > 0 && !IsSlugChar(s[0])
    ensures Collapse(s) == "-" + Collapse(DropNonSlug(s))
  {}

  /**
   * Collapsing works piece by piece across a boundary where a kept character
   * meets one that is not: the run starting there is wholly in the second piece.
   */
  lemma {:induction false} CollapseAppend(x: string, rest: string)
    requires |x| > 0 && IsSlugChar(x[|x| - 1])
    requires |rest| > 0 && !IsSlugChar(rest[0])
    ensures Collapse(x + rest) == Collapse(x) + Collapse(rest)
    decreases |x|
  {
    var w, cr := x + rest, Collapse(rest);
    assert w[0] == x[0];
    if IsSlugChar(x[0]) {
      assert w[1..] == x[1..] + rest;
      if |x| == 1 {
        assert x[1..] == "" && w[1..] == rest;
        assert Collapse(w[1..]) == Collapse(x[1..]) + cr;
      } else {
        CollapseAppend(x[1..], rest);
      }
      KeptStep(w, x, cr);
    } else {
      var d := DropNonSlug(x);
      assert |d| > 0 && IsSlugChar(d[|d| - 1]) by { assert d == x[|x| - |d|..]; }
      DropNonSlugAppend(x, rest);
      CollapseAppend(d, rest);
      SkippedStep(w, x, cr);
    }
  }

  /** Concatenation regroups freely (stated apart so that proofs about `Collapse` need not rediscover it). */
  lemma ConcatAssoc(a: string, b: string, c: string)
    ensures a + (b + c) == a + b + c
  {}

  /** Two strings that start with the same kept character collapse alike once their tails do. */
  lemma KeptStep(w: string, x: string, c: string)
    requires |w| > 0 && |x| > 0 && w[0] == x[0] && IsSlugChar(x[0])
    requires Collapse(w[1..]) == Collapse(x[1..]) + c
    ensures Collapse(w) == Collapse(x) + c
  {
    CollapseKept(w);
    CollapseKept(x);
    ConcatAssoc([x[0]], Collapse(x[1..]), c);
  }

  /** Two strings that start with a separator collapse alike once what follows their leading runs does. */
  lemma SkippedStep(w: string, x: string, c: string)
    requires |w| > 0 && |x| > 0 && !IsSlugChar(w[0]) && !IsSlugChar(x[0])
    requires Collapse(DropNonSlug(w)) == Collapse(DropNonSlug(x)) + c
    ensures Collapse(w) == Collapse(x) + c
  {
    CollapseSkipped(w);
    CollapseSkipped(x);
    ConcatAssoc("-", Collapse(DropNonSlug(x)), c);
  }

  /**
   * The dash goes between the words: a run of separators between a part that
   * ends in a kept character and a part that starts with one (or is empty)
   * becomes exactly one dash, and each side is collapsed on its own.
   */
  lemma CollapseSeparator(x: string, sep: string, y: string)
    requires |x| > 0 && IsSlugChar(x[|x| - 1])
    requires |sep| > 0 && forall i :: 0 <= i < |sep| ==> !IsSlugChar(sep[i])
    requires |y| == 0 || IsSlugChar(y[0])
    ensures Collapse(x + sep + y) == Collapse(x) + "-" + Collapse(y)
  {
    var rest := sep + y;
    assert rest[0] == sep[0];
    DropNonSlugSeparator(sep, y);
    CollapseSkipped(rest);
    CollapseAppend(x, rest);
    ConcatAssoc(x, sep, y);
    ConcatAssoc(Collapse(x), "-", Collapse(y));
  }

  /**
   * Two names that already spell slugs (in any letter case), joined by any
   * run of separators, slug to the two lower-cased parts joined by a single
   * dash: "Forest Villa" gives "forest-villa".
   */
  lemma SlugJoinsWords(x: string, sep: string, y: string)
    requires |x| > 0 && IsSlug(Text.ToLower(x))
    requires |y| > 0 && IsSlug(Text.ToLower(y))
    requires |sep| > 0 && forall i :: 0 <= i < |sep| ==> !IsSlugChar(Text.LowerChar(sep[i]))
    ensures GenerateSlug(x + sep + y) == Text.ToLower(x) + "-" + Text.ToLower(y)
  {
    var lx, ls, ly := Text.ToLower(x), Text.ToLower(sep), Text.ToLower(y);
    Text.ToLowerConcat(x, sep, y);
    CollapseKeepsSlugs(lx);
    CollapseKeepsSlugs(ly);
    assert IsSlugChar(lx[|lx| - 1]) && IsSlugChar(ly[0]);
    forall i | 0 <= i < |ls|
      ensures !IsSlugChar(ls[i])
    {
      assert ls[i] == Text.LowerChar(sep[i]);
    }
    CollapseSeparator(lx, ls, ly);
    TrimDashesJoined(lx, ly);
  }

  /** Joining two non-empty slugs with a dash leaves no edge dash to trim. */
  lemma TrimDashesJoined(a: string, b: string)
    requires |a| > 0 && IsSlug(a) && |b| > 0 && IsSlug(b)
    ensures TrimDashes(a + "-" + b) == a + "-" + b
  {
    var c := a + "-" + b;
    assert c[0] == a[0] && c[|c| - 1] == b[|b| - 1];
  }

  /** For example, a room category named "Forest Villa" gets the slug "forest-villa", not "forestvilla". */
  lemma ForestVillaSlug()
    ensures GenerateSlug("Forest Villa") == "forest-villa"
  {
    ForestVillaWords();
    assert Text.LowerChar(' ') == ' ';
    SlugJoinsWords("Forest", " ", "Villa");
    ForestVillaJoins();
  }

  /** The two words of the example, lower-cased, are slugs. */
  lemma ForestVillaWords()
    ensures Text.ToLower("Forest") == "forest" && IsSlug("forest")
    ensures Text.ToLower("Villa") == "villa" && IsSlug("villa")
  {
    assert Text.ToLower("Forest")[0] == Text.LowerChar('F');
    assert Text.ToLower("Villa")[0] == Text.LowerChar('V');
  }

  /** The example's name and slug, split at the separator. */
  lemma ForestVillaJoins()
    ensures "Forest" + " " + "Villa" == "Forest Villa"
    ensures "forest" + "-" + "villa" == "forest-villa"
  {}

  /** Trimming the edge dashes of a run-collapsed string leaves a slug. */
  lemma TrimDashesMakesSlug(c: string)
    requires forall i :: 0 <= i < |c| ==> IsSlugChar(c[i]) || c[i] == '-'
    requires forall i :: 0 <= i < |c| - 1 ==> !(c[i] == '-' && c[i + 1] == '-')
    ensures IsSlug(TrimDashes(c))
  {
    var c1 := if |c| > 0 && c[0] == '-' then c[1..] else c;
    assert |c1| > 0 ==> c1[0] != '-';
    assert forall i :: 0 <= i < |c1| ==> IsSlugChar(c1[i]) || c1[i] == '-';
    assert forall i :: 0 <= i < |c1| - 1 ==> !(c1[i] == '-' && c1[i + 1] == '-');
    var r := TrimTrailingDash(c1);
    assert r == c1[..|r|];
    assert |r| > 0 ==> r[|r| - 1] != '-';
  }

  /** A run-collapsed string without edge dashes is already a slug. */
  lemma {:induction false} CollapseKeepsSlugs(s: string)
    requires forall i :: 0 <= i < |s| ==> IsSlugChar(s[i]) || s[i] == '-'
    requires forall i :: 0 <= i < |s| - 1 ==> !(s[i] == '-' && s[i + 1] == '-')
    ensures Collapse(s) == s
    decreases |s|
  {
    if |s| > 0 {
      if IsSlugChar(s[0]) {
        CollapseKeepsSlugs(s[1..]);
      } else {
        assert DropNonSlug(s) == s[1..] by {
          assert |s| == 1 || IsSlugChar(s[1]);
          assert DropNonSlug(s) == DropNonSlug(s[1..]);
        }
        CollapseKeepsSlugs(s[1..]);
      }
    }
  }

  /** Slugging a slug changes nothing. */
  lemma SlugFixesSlugs(s: string)
    requires IsSlug(s)
    ensures GenerateSlug(s) == s
  {
    assert Text.ToLower(s) == s;
    CollapseKeepsSlugs(s);
  }

  /** `generateSlug` is idempotent. */
  lemma GenerateSlugIdempotent(name: string)
    ensures GenerateSlug(GenerateSlug(name)) == GenerateSlug(name)
  {
    SlugFixesSlugs(GenerateSlug(name));
  }

  /** Dropping characters the expression does not keep leaves the kept ones alone. */
  lemma {:induction false} DropNonSlugKeepsLetters(s: string)
    ensures Seqs.Filter(DropNonSlug(s), IsSlugChar) == Seqs.Filter(s, IsSlugChar)
    decreases |s|
  {
    if |s| > 0 && !IsSlugChar(s[0]) {
      DropNonSlugKeepsLetters(s[1..]);
    }
  }

  /** Collapsing only rewrites separators: the letters and digits stay, in order. */
  lemma {:induction false} CollapseKeepsLetters(s: string)
    ensures Seqs.Filter(Collapse(s), IsSlugChar) == Seqs.Filter(s, IsSlugChar)
    decreases |s|
  {
    if |s| > 0 {
      if IsSlugChar(s[0]) {
        CollapseKeepsLetters(s[1..]);
        assert ([s[0]] + Collapse(s[1..]))[1..] == Collapse(s[1..]);
      } else {
        var d := DropNonSlug(s);
        CollapseKeepsLetters(d);
        DropNonSlugKeepsLetters(s);
        assert ("-" + Collapse(d))[1..] == Collapse(d);
      }
    }
  }

  /**
   * The slug keeps exactly the letters and digits of the lower-cased name, in
   * order: only the separators between them are rewritten.
   */
  lemma SlugKeepsLetters(name: string)
    ensures Seqs.Filter(GenerateSlug(name), IsSlugChar) == Seqs.Filter(Text.ToLower(name), IsSlugChar)
  {
    var c := Collapse(Text.ToLower(name));
    CollapseKeepsLetters(Text.ToLower(name));
    var c1 := if |c| > 0 && c[0] == '-' then c[1..] else c;
    assert Seqs.Filter(c1, IsSlugChar) == Seqs.Filter(c, IsSlugChar);
    if |c1| > 0 && c1[|c1| - 1] == '-' {
      Seqs.FilterDropLast(c1, IsSlugChar);
    }
  }

  /** The slug a name edit leaves in an admin form: regenerated from the new name while creating, kept while editing. */
  function FollowName(editing: bool, current: string, name: string): (r: string)
    ensures editing ==> r == current
    ensures !editing ==> r == GenerateSlug(name) && IsSlug(r)
  {
    if editing then current else GenerateSlug(name)
  }
}
