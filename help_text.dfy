/**
 * The help-text rewriting done by the kapply command line tool (cmd/main.go):
 * every sub-command borrowed from kubectl has its help mention "kubectl <name>",
 * and updateHelp rewrites each such mention to "kapply <name>" in the
 * command's Short, Long and Example texts.
 *
 * Go's strings.ReplaceAll and strings.Count are modelled as functions on
 * strings (sequences of characters, one character per rune).
 */
module HelpText {

  /** The sub-command names that kapply passes to updateHelp. */
  const KapplyNames: seq<string> := ["init", "apply", "preview", "diff", "destroy", "status"]

  /** The text that updateHelp looks for, for one sub-command name. */
  function Pattern(name: string): string { "kubectl " + name }

  /** The text that updateHelp puts in its place. */
  function Replacement(name: string): string { "kapply " + name }

  /** `p` occurs in `s` starting at index `i`. */
  predicate OccursAt(s: string, p: string, i: nat) {
    i + |p| <= |s| && s[i..i + |p|] == p
  }

  /** strings.Contains */
  ghost predicate Contains(s: string, p: string) {
    exists i: nat :: OccursAt(s, p, i)
  }

  /**
   * strings.ReplaceAll: the leftmost occurrence of `pat` is replaced first and
   * scanning resumes after it, so the matches replaced never overlap. An empty
   * `pat` matches before every character and at the end.
   */
  function ReplaceAll(s: string, pat: string, rep: string): string
    decreases |s|
  {
    if pat == [] then
      if s == [] then rep else rep + [s[0]] + ReplaceAll(s[1..], pat, rep)
    else if |s| < |pat| then s
    else if s[..|pat|] == pat then rep + ReplaceAll(s[|pat|..], pat, rep)
    else [s[0]] + ReplaceAll(s[1..], pat, rep)
  }

  /**
   * strings.Count: the number of non-overlapping occurrences of `pat` in `s`,
   * found left to right; an empty `pat` counts one more than the length of `s`.
   */
  function Count(s: string, pat: string): nat
    decreases |s|
  {
    if pat == [] then |s| + 1
    else if |s| < |pat| then 0
    else if s[..|pat|] == pat then 1 + Count(s[|pat|..], pat)
    else Count(s[1..], pat)
  }

  /** One pass of updateHelp over one text field: the names are applied in list order. */
  function Rewrite(names: seq<string>, s: string): string
    decreases |names|
  {
    if names == [] then s
    else
      var name := names[|names| - 1];
      ReplaceAll(Rewrite(names[..|names| - 1], s), Pattern(name), Replacement(name))
  }

  /** How many mentions Rewrite replaces, summed over the names. */
  function Replaced(names: seq<string>, s: string): nat
    decreases |names|
  {
    if names == [] then 0
    else
      var name := names[|names| - 1];
      Replaced(names[..|names| - 1], s) + Count(Rewrite(names[..|names| - 1], s), Pattern(name))
  }

  /** No name in the list contains the letter 'k'. */
  predicate NoK(names: seq<string>) {
    forall i :: 0 <= i < |names| ==> 'k' !in names[i]
  }

  /** `w` has `c` at its start and nowhere else, and is at least two characters long. */
  predicate SingleLead(w: string, c: char) {
    |w| >= 2 && w[0] == c && forall j :: 1 <= j < |w| ==> w[j] != c
  }

  /** The cobra command record whose help texts updateHelp rewrites. */
  class Command {
    var use: string
    var short: string
    var long: string
    var example: string
    var silenceErrors: bool
    var silenceUsage: bool

    constructor (use: string, short: string, long: string, example: string,
                 silenceErrors: bool, silenceUsage: bool)
      ensures this.use == use && this.short == short && this.long == long && this.example == example
      ensures this.silenceErrors == silenceErrors && this.silenceUsage == silenceUsage
    {
      this.use := use;
      this.short := short;
      this.long := long;
      this.example := example;
      this.silenceErrors := silenceErrors;
      this.silenceUsage := silenceUsage;
    }
  }

  /**
   * updateHelp: for each name in turn, replace "kubectl <name>" with
   * "kapply <name>" in Short, Long and Example. Every other field is left alone.
   */
  method UpdateHelp(names: seq<string>, c: Command)
    modifies c
    ensures c.short == Rewrite(names, old(c.short))
    ensures c.long == Rewrite(names, old(c.long))
    ensures c.example == Rewrite(names, old(c.example))
    ensures c.use == old(c.use)
    ensures c.silenceErrors == old(c.silenceErrors) && c.silenceUsage == old(c.silenceUsage)
  {
    for i := 0 to |names|
      invariant c.short == Rewrite(names[..i], old(c.short))
      invariant c.long == Rewrite(names[..i], old(c.long))
      invariant c.example == Rewrite(names[..i], old(c.example))
      invariant c.use == old(c.use)
      invariant c.silenceErrors == old(c.silenceErrors) && c.silenceUsage == old(c.silenceUsage)
    {
      var name := names[i];
      assert names[..i + 1][..i] == names[..i];
      c.short := ReplaceAll(c.short, "kubectl " + name, "kapply " + name);
      c.long := ReplaceAll(c.long, "kubectl " + name, "kapply " + name);
      c.example := ReplaceAll(c.example, "kubectl " + name, "kapply " + name);
    }
    assert names[..|names|] == names;
  }

  // ---------------------------------------------------------------------------
  // Occurrences

  lemma {:induction false} ShiftOccurrence(s: string, q: string, k: nat, i: nat)
    requires k <= |s| && OccursAt(s[k..], q, i)
    ensures OccursAt(s, q, i + k)
  {
    assert s[k..][i..i + |q|] == s[i + k..i + k + |q|];
  }

  lemma {:induction false} DropOccurrence(s: string, q: string, k: nat, i: nat)
    requires k <= i && k <= |s| && OccursAt(s, q, i)
    ensures OccursAt(s[k..], q, i - k)
  {
    assert s[k..][i - k..i - k + |q|] == s[i..i + |q|];
  }

  /** Count and Contains agree: a pattern is counted exactly when it occurs. */
  lemma {:induction false} CountPositiveIffContains(s: string, p: string)
    ensures Count(s, p) > 0 <==> Contains(s, p)
    decreases |s|
  {
    if p == [] {
      assert OccursAt(s, p, 0);
    } else if |s| < |p| {
    } else if s[..|p|] == p {
      assert OccursAt(s, p, 0);
    } else {
      CountPositiveIffContains(s[1..], p);
      if Contains(s, p) {
        var i: nat :| OccursAt(s, p, i);
        assert i != 0;
        DropOccurrence(s, p, 1, i);
      }
      if Contains(s[1..], p) {
        var j: nat :| OccursAt(s[1..], p, j);
        ShiftOccurrence(s, p, 1, j);
      }
    }
  }

  // ---------------------------------------------------------------------------
  // strings.ReplaceAll

  /** One step of distributivity, stated apart so that the length proof below stays linear for the solver. */
  lemma MulSucc(k: int, d: int)
    ensures (k + 1) * d == k * d + d
  {
  }

  /** Every replacement changes the length by |rep| - |pat|. */
  lemma {:induction false} ReplaceAllLength(s: string, p: string, r: string)
    ensures |ReplaceAll(s, p, r)| == |s| + Count(s, p) * (|r| - |p|)
    decreases |s|
  {
    if p == [] {
      if s != [] {
        ReplaceAllLength(s[1..], p, r);
        MulSucc(|s|, |r|);
      }
    } else if |s| < |p| {
    } else if s[..|p|] == p {
      ReplaceAllLength(s[|p|..], p, r);
      MulSucc(Count(s[|p|..], p), |r| - |p|);
    } else {
      ReplaceAllLength(s[1..], p, r);
    }
  }

  /** A replacement one character shorter than the pattern shortens the text by one per match. */
  lemma ReplaceAllShortens(s: string, p: string, r: string)
    requires |r| == |p| - 1
    ensures |ReplaceAll(s, p, r)| == |s| - Count(s, p)
  {
    ReplaceAllLength(s, p, r);
    var k := Count(s, p);
    assert k * (|r| - |p|) == -k by {
      assert |r| - |p| == -1;
    }
  }

  /** With nothing counted, ReplaceAll leaves the text as it is. */
  lemma {:induction false} CountZeroUnchanged(s: string, p: string, r: string)
    requires |p| > 0 && Count(s, p) == 0
    ensures ReplaceAll(s, p, r) == s
    decreases |s|
  {
    if |s| >= |p| {
      CountZeroUnchanged(s[1..], p, r);
      assert [s[0]] + s[1..] == s;
    }
  }

  lemma MulNonZero(k: int, d: int)
    requires k != 0 && d != 0
    ensures k * d != 0
  {
  }

  /** When pattern and replacement differ in length, ReplaceAll changes the text exactly when the pattern occurs. */
  lemma ReplaceAllUnchangedIff(s: string, p: string, r: string)
    requires |p| > 0 && |r| != |p|
    ensures ReplaceAll(s, p, r) == s <==> !Contains(s, p)
  {
    CountPositiveIffContains(s, p);
    ReplaceAllLength(s, p, r);
    if Count(s, p) == 0 {
      CountZeroUnchanged(s, p, r);
    } else {
      MulNonZero(Count(s, p), |r| - |p|);
    }
  }

  /**
   * The first n characters of ReplaceAll(t, p, r) that contain no `c` were
   * copied from `t` unchanged, when every replacement starts with `c`.
   */
  lemma {:induction false} PrefixWithoutLead(t: string, p: string, r: string, c: char, n: nat)
    requires |p| > 0 && |r| > 0 && r[0] == c
    requires n <= |ReplaceAll(t, p, r)|
    requires forall j :: 0 <= j < n ==> ReplaceAll(t, p, r)[j] != c
    ensures n <= |t| && ReplaceAll(t, p, r)[..n] == t[..n]
    decreases |t|
  {
    if n > 0 && |p| <= |t| {
      var R := ReplaceAll(t, p, r);
      assert R[0] != c;
      assert t[..|p|] != p;
      var R' := ReplaceAll(t[1..], p, r);
      assert R == [t[0]] + R';
      forall j | 0 <= j < n - 1 ensures R'[j] != c {
        assert R'[j] == R[j + 1];
      }
      PrefixWithoutLead(t[1..], p, r, c, n - 1);
      assert t[..n] == [t[0]] + t[1..][..n - 1];
    }
  }

  /** A pattern with a single leading `c` cannot start inside a replacement with a single leading `c`. */
  lemma NoOccurrenceInReplacement(r: string, T: string, q: string, c: char)
    requires SingleLead(q, c) && SingleLead(r, c) && q[1] != r[1]
    ensures forall i :: 0 <= i < |r| ==> !OccursAt(r + T, q, i)
  {
    forall i | 0 <= i < |r|
      ensures !OccursAt(r + T, q, i)
    {
      if i == 0 {
        assert i + 1 < |q| && (r + T)[i + 1] != q[1];
      } else {
        assert (r + T)[i] != q[0];
      }
    }
  }

  /**
   * Replacing `p` by `r` creates no new occurrence of a pattern `q` when `q`
   * and `r` both carry their marker `c` only at the start and differ right
   * after it; and no occurrence of `p` itself is left behind.
   */
  lemma {:induction false} ReplaceAllAddsNoMatch(s: string, p: string, r: string, q: string, c: char)
    requires |p| > 0
    requires SingleLead(q, c) && SingleLead(r, c) && q[1] != r[1]
    ensures Contains(ReplaceAll(s, p, r), q) ==> Contains(s, q) && q != p
    decreases |s|
  {
    var R := ReplaceAll(s, p, r);
    if Contains(R, q) && |p| <= |s| {
      var i: nat :| OccursAt(R, q, i);
      if s[..|p|] == p {
        var T := ReplaceAll(s[|p|..], p, r);
        assert R == r + T;
        NoOccurrenceInReplacement(r, T, q, c);
        DropOccurrence(R, q, |r|, i);
        assert R[|r|..] == T;
        ReplaceAllAddsNoMatch(s[|p|..], p, r, q, c);
        var j: nat :| OccursAt(s[|p|..], q, j);
        ShiftOccurrence(s, q, |p|, j);
      } else {
        var T := ReplaceAll(s[1..], p, r);
        assert R == [s[0]] + T;
        if i == 0 {
          forall j | 0 <= j < |q| - 1
            ensures T[j] != c
          {
            assert T[j] == R[j + 1] == q[j + 1];
          }
          PrefixWithoutLead(s[1..], p, r, c, |q| - 1);
          assert q == [s[0]] + T[..|q| - 1];
          assert s[..|q|] == [s[0]] + s[1..][..|q| - 1];
          assert OccursAt(s, q, 0);
        } else {
          DropOccurrence(R, q, 1, i);
          assert R[1..] == T;
          ReplaceAllAddsNoMatch(s[1..], p, r, q, c);
          var j: nat :| OccursAt(s[1..], q, j);
          ShiftOccurrence(s, q, 1, j);
        }
      }
    }
  }

  // ---------------------------------------------------------------------------
  // updateHelp on one field

  /** "kubectl <name>" and "kapply <name>" each carry their only 'k' up front when the name has none. */
  lemma PatternsLeadWithK(name: string)
    requires 'k' !in name
    ensures SingleLead(Pattern(name), 'k') && SingleLead(Replacement(name), 'k')
    ensures Pattern(name)[1] != Replacement(name)[1]
    ensures |Replacement(name)| == |Pattern(name)| - 1
  {
    var P := Pattern(name);
    var B := Replacement(name);
    forall j | 1 <= j < |P| ensures P[j] != 'k' {
      if j >= 8 { assert P[j] == name[j - 8]; }
    }
    forall j | 1 <= j < |B| ensures B[j] != 'k' {
      if j >= 7 { assert B[j] == name[j - 7]; }
    }
  }

  /** Every mention replaced shortens the text by one character (8 for "kubectl ", 7 for "kapply "). */
  lemma {:induction false} RewriteLength(names: seq<string>, s: string)
    ensures |Rewrite(names, s)| == |s| - Replaced(names, s)
    decreases |names|
  {
    if names != [] {
      var pre := names[..|names| - 1];
      var name := names[|names| - 1];
      RewriteLength(pre, s);
      ReplaceAllShortens(Rewrite(pre, s), Pattern(name), Replacement(name));
    }
  }

  /** A field is left as it was exactly when no mention was replaced in it. */
  lemma {:induction false} RewriteUnchangedIff(names: seq<string>, s: string)
    ensures Rewrite(names, s) == s <==> Replaced(names, s) == 0
    decreases |names|
  {
    RewriteLength(names, s);
    if names != [] && Replaced(names, s) == 0 {
      var pre := names[..|names| - 1];
      var name := names[|names| - 1];
      RewriteUnchangedIff(pre, s);
      CountZeroUnchanged(s, Pattern(name), Replacement(name));
    }
  }

  /** If no field text mentions "kubectl <name>" for any listed name, the text is left as it was. */
  lemma {:induction false} RewriteUnchangedWithoutMentions(names: seq<string>, s: string)
    requires forall i :: 0 <= i < |names| ==> !Contains(s, Pattern(names[i]))
    ensures Rewrite(names, s) == s
    decreases |names|
  {
    if names != [] {
      var pre := names[..|names| - 1];
      var name := names[|names| - 1];
      RewriteUnchangedWithoutMentions(pre, s);
      CountPositiveIffContains(s, Pattern(name));
      CountZeroUnchanged(s, Pattern(name), Replacement(name));
    }
  }

  /** Conversely, a text that updateHelp leaves as it was mentions "kubectl <name>" for no listed name. */
  lemma {:induction false} RewriteUnchangedOnlyWithoutMentions(names: seq<string>, s: string)
    requires Rewrite(names, s) == s
    ensures forall i :: 0 <= i < |names| ==> !Contains(s, Pattern(names[i]))
    decreases |names|
  {
    if names != [] {
      var pre := names[..|names| - 1];
      var name := names[|names| - 1];
      RewriteUnchangedIff(names, s);
      RewriteUnchangedIff(pre, s);
      RewriteUnchangedOnlyWithoutMentions(pre, s);
      CountPositiveIffContains(s, Pattern(name));
      forall i | 0 <= i < |names|
        ensures !Contains(s, Pattern(names[i]))
      {
        if i < |pre| {
          assert pre[i] == names[i];
        }
      }
    }
  }

  /** After updateHelp, no field mentions "kubectl <name>" for any listed name, as long as no name contains 'k'. */
  lemma {:induction false} RewriteLeavesNoMention(names: seq<string>, s: string)
    requires NoK(names)
    ensures forall i :: 0 <= i < |names| ==> !Contains(Rewrite(names, s), Pattern(names[i]))
    decreases |names|
  {
    if names != [] {
      var pre := names[..|names| - 1];
      var last := names[|names| - 1];
      var t := Rewrite(pre, s);
      RewriteLeavesNoMention(pre, s);
      PatternsLeadWithK(last);
      forall i | 0 <= i < |names|
        ensures !Contains(Rewrite(names, s), Pattern(names[i]))
      {
        PatternsLeadWithK(names[i]);
        ReplaceAllAddsNoMatch(t, Pattern(last), Replacement(last), Pattern(names[i]), 'k');
        if i < |pre| {
          assert pre[i] == names[i];
        }
      }
    }
  }

  /** Running updateHelp a second time changes nothing, as long as no name contains 'k'. */
  lemma RewriteIdempotent(names: seq<string>, s: string)
    requires NoK(names)
    ensures Rewrite(names, Rewrite(names, s)) == Rewrite(names, s)
  {
    RewriteLeavesNoMention(names, s);
    RewriteUnchangedWithoutMentions(names, Rewrite(names, s));
  }

  /** For kapply's own name list: no "kubectl <name>" is left, and a second pass changes nothing. */
  lemma KapplyHelpRewritten(s: string)
    ensures forall i :: 0 <= i < |KapplyNames| ==> !Contains(Rewrite(KapplyNames, s), Pattern(KapplyNames[i]))
    ensures Rewrite(KapplyNames, Rewrite(KapplyNames, s)) == Rewrite(KapplyNames, s)
  {
    assert NoK(KapplyNames);
    RewriteLeavesNoMention(KapplyNames, s);
    RewriteIdempotent(KapplyNames, s);
  }
}
