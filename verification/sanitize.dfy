/**
 * The description sanitizers of news/news.go: an ordered list of transforms,
 * each removing every leftmost, non-overlapping match of one pattern.
 *  - the first removes a fixed boilerplate sentence (`strings.Replace` with
 *    replacement "" and no limit);
 *  - the second removes the regular expression `<img .*>`, where `.` matches
 *    anything but a newline and `*` is greedy, so a match runs from `<img `
 *    to the LAST `>` on the same line.
 */
module Sanitize {
  import opened Base

  /** The boilerplate sentence the first transform strips. */
  const Boilerplate: string := "© 2024 TechCrunch. All rights reserved. For personal use only."

  const ImgOpen: string := "<img "

  /** What a transform removes. */
  datatype Pattern = Literal(text: string) | ImgTag

  /** The transforms in the order the source applies them. */
  const Replacers: seq<Pattern> := [Literal(Boilerplate), ImgTag]

  /** Index of the first newline at or after `k`, or `|s|` if there is none. */
  function LineEnd(s: string, k: nat): (e: nat)
    requires k <= |s|
    ensures k <= e <= |s|
    ensures e < |s| ==> s[e] == '\n'
    ensures forall j :: k <= j < e ==> s[j] != '\n'
    decreases |s| - k
  {
    if k == |s| || s[k] == '\n' then k else LineEnd(s, k + 1)
  }

  /** The last index in `[k, e)` holding `>`, if any. */
  function LastClose(s: string, k: nat, e: nat): (r: Option<nat>)
    requires k <= e <= |s|
    ensures r.Some? ==> k <= r.value < e && s[r.value] == '>'
    ensures r.Some? ==> forall j :: r.value < j < e ==> s[j] != '>'
    ensures r.None? ==> forall j :: k <= j < e ==> s[j] != '>'
    decreases e - k
  {
    if e == k then None
    else if s[e - 1] == '>' then Some(e - 1)
    else LastClose(s, k, e - 1)
  }

  /** A newline search started anywhere before the line's end finds the same newline. */
  lemma {:induction false} LineEndFrom(s: string, k: nat, m: nat)
    requires k <= |s| && k <= m <= LineEnd(s, k)
    ensures LineEnd(s, m) == LineEnd(s, k)
    decreases m - k
  {
    if k < m {
      LineEndFrom(s, k + 1, m);
    }
  }

  /**
   * The length of the match of `p` that starts at the front of `s`, if one
   * does. A literal matches a non-empty copy of itself; `<img .*>` matches
   * from `<img ` to the last `>` before the next newline.
   */
  function MatchAt(p: Pattern, s: string): (r: Option<nat>)
    ensures r.Some? ==> 0 < r.value <= |s|
    ensures p.Literal? ==> (r.Some? <==> 0 < |p.text| <= |s| && s[..|p.text|] == p.text)
    ensures p.Literal? && r.Some? ==> r.value == |p.text|
    ensures p.ImgTag? && r.Some? ==>
      && |ImgOpen| < r.value
      && s[..|ImgOpen|] == ImgOpen && s[r.value - 1] == '>'
      && (forall j :: |ImgOpen| <= j < r.value ==> s[j] != '\n')
      && (forall j :: r.value <= j < LineEnd(s, r.value) ==> s[j] != '>')
    ensures (p.ImgTag? && |s| >= |ImgOpen| && s[..|ImgOpen|] == ImgOpen
             && exists j :: |ImgOpen| <= j < LineEnd(s, |ImgOpen|) && s[j] == '>') ==> r.Some?
  {
    match p
    case Literal(t) =>
      if 0 < |t| <= |s| && s[..|t|] == t then Some(|t|) else None
    case ImgTag =>
      if |s| >= |ImgOpen| && s[..|ImgOpen|] == ImgOpen then
        var e := LineEnd(s, |ImgOpen|);
        match LastClose(s, |ImgOpen|, e)
        case Some(j) => LineEndFrom(s, |ImgOpen|, j + 1); Some(j + 1)
        case None => None
      else None
  }

  /** No match of `p` starts anywhere in `s`. */
  predicate Clean(p: Pattern, s: string)
  {
    forall i :: 0 <= i < |s| ==> MatchAt(p, s[i..]).None?
  }

  /** Removes every leftmost, non-overlapping match of `p`, scanning left to right. */
  function RemoveMatches(p: Pattern, s: string): (r: string)
    ensures |r| <= |s|
    decreases |s|
  {
    if |s| == 0 then s
    else match MatchAt(p, s)
      case Some(n) => RemoveMatches(p, s[n..])
      case None => [s[0]] + RemoveMatches(p, s[1..])
  }

  /** Text with no match is left alone. */
  lemma {:induction false} CleanUnchanged(p: Pattern, s: string)
    requires Clean(p, s)
    ensures RemoveMatches(p, s) == s
    decreases |s|
  {
    if |s| > 0 {
      assert MatchAt(p, s[0..]).None?;
      assert s[0..] == s;
      forall i | 0 <= i < |s[1..]|
        ensures MatchAt(p, s[1..][i..]).None?
      {
        assert s[1..][i..] == s[i + 1..];
      }
      CleanUnchanged(p, s[1..]);
    }
  }

  /** Text holding a match loses at least one character. */
  lemma {:induction false} MatchShortens(p: Pattern, s: string, i: nat)
    requires i < |s| && MatchAt(p, s[i..]).Some?
    ensures |RemoveMatches(p, s)| < |s|
    decreases |s|
  {
    if MatchAt(p, s).None? {
      assert i != 0 by { assert s[0..] == s; }
      assert s[1..][i - 1..] == s[i..];
      MatchShortens(p, s[1..], i - 1);
    }
  }

  /** A transform changes its input exactly when the input holds a match. */
  lemma RemoveMatchesIdentity(p: Pattern, s: string)
    ensures RemoveMatches(p, s) == s <==> Clean(p, s)
  {
    if Clean(p, s) {
      CleanUnchanged(p, s);
    } else {
      var i :| 0 <= i < |s| && MatchAt(p, s[i..]).Some?;
      MatchShortens(p, s, i);
    }
  }

  /** Runs the transforms in list order, each on the previous one's output. */
  function ApplyChain(ps: seq<Pattern>, s: string): (r: string)
    ensures |r| <= |s|
    decreases |ps|
  {
    if |ps| == 0 then s else ApplyChain(ps[1..], RemoveMatches(ps[0], s))
  }

  /** Running two lists in turn is running their concatenation. */
  lemma {:induction false} ApplyChainAppend(ps: seq<Pattern>, qs: seq<Pattern>, s: string)
    ensures ApplyChain(ps + qs, s) == ApplyChain(qs, ApplyChain(ps, s))
    decreases |ps|
  {
    if |ps| > 0 {
      assert (ps + qs)[0] == ps[0];
      assert (ps + qs)[1..] == ps[1..] + qs;
      ApplyChainAppend(ps[1..], qs, RemoveMatches(ps[0], s));
    } else {
      assert ps + qs == qs;
    }
  }

  /** A description as the source stores it after the `replace` loop. */
  function SanitizeText(s: string): (r: string)
    ensures |r| <= |s|
    ensures r == RemoveMatches(ImgTag, RemoveMatches(Literal(Boilerplate), s))
  {
    var once := RemoveMatches(Literal(Boilerplate), s);
    assert Replacers[1..] == [ImgTag] && [ImgTag][1..] == [];
    assert ApplyChain([ImgTag], once) == ApplyChain([], RemoveMatches(ImgTag, once));
    ApplyChain(Replacers, s)
  }

  /** A description holding neither the boilerplate nor an image tag comes through untouched. */
  lemma SanitizeCleanUnchanged(s: string)
    requires Clean(Literal(Boilerplate), s) && Clean(ImgTag, s)
    ensures SanitizeText(s) == s
  {
    CleanUnchanged(Literal(Boilerplate), s);
    CleanUnchanged(ImgTag, s);
  }
}
