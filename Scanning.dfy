/** Left-to-right substitution of non-overlapping matches, as `re.sub` and
    `re.finditer` perform it, for any pattern given by where its match
    starting at each position ends. */
module Scanning {
  import opened Wrappers

  /** `at(j)` is the end of the match starting at `j`, if there is one; a
      match is never empty and never runs past the text. */
  predicate Advancing(n: nat, at: nat -> Option<nat>) {
    forall j: nat :: j < n && at(j).Some? ==> j < at(j).value <= n
  }

  /** `re.sub(pattern, rep, s)` from position `i`: at a match, the
      replacement, and the scan resumes at its end; elsewhere the character. */
  function SubFrom(s: string, at: nat -> Option<nat>, rep: string, i: nat): string
    requires i <= |s| && Advancing(|s|, at)
    decreases |s| - i
  {
    if i == |s| then []
    else match at(i)
      case Some(e) => rep + SubFrom(s, at, rep, e)
      case None => [s[i]] + SubFrom(s, at, rep, i + 1)
  }

  /** No match starts in `[a, b)`. */
  predicate NoMatchIn(at: nat -> Option<nat>, a: nat, b: nat) {
    forall j: nat :: a <= j < b ==> at(j).None?
  }

  /** `re.finditer(pattern, s)` from `i`: the (start, end) pairs of the
      matches from left to right. */
  function MatchesFrom(n: nat, at: nat -> Option<nat>, i: nat): (r: seq<(nat, nat)>)
    requires i <= n && Advancing(n, at)
    ensures forall k :: 0 <= k < |r| ==> i <= r[k].0 < r[k].1 <= n
    decreases n - i
  {
    if i == n then []
    else match at(i)
      case Some(e) => [(i, e)] + MatchesFrom(n, at, e)
      case None => MatchesFrom(n, at, i + 1)
  }

  /** Where the scan from `i` next matches, or the end of the text. */
  function NextStart(n: nat, r: seq<(nat, nat)>): nat {
    if r == [] then n else r[0].0
  }

  /** From `i` the text is copied up to the first match; that match is a
      match, and the matches after it are those found from its end. */
  lemma {:induction false} FirstMatch(s: string, at: nat -> Option<nat>, rep: string, i: nat)
    requires i <= |s| && Advancing(|s|, at)
    ensures var r := MatchesFrom(|s|, at, i);
      && i <= NextStart(|s|, r) <= |s|
      && SubFrom(s, at, rep, i) == s[i..NextStart(|s|, r)] + SubFrom(s, at, rep, NextStart(|s|, r))
      && (r != [] ==> at(r[0].0) == Some(r[0].1) && MatchesFrom(|s|, at, r[0].1) == r[1..])
    decreases |s| - i
  {
    if i < |s| {
      match at(i)
      case Some(e) =>
        var r := MatchesFrom(|s|, at, i);
        assert r == [(i, e)] + MatchesFrom(|s|, at, e);
        assert r[1..] == MatchesFrom(|s|, at, e);
      case None =>
        FirstMatch(s, at, rep, i + 1);
        var r := MatchesFrom(|s|, at, i + 1);
        assert MatchesFrom(|s|, at, i) == r;
        CopyStep(s, at, rep, i, NextStart(|s|, r));
    }
  }

  /** A character where nothing matches is copied ahead of the rest. */
  lemma CopyStep(s: string, at: nat -> Option<nat>, rep: string, i: nat, f: nat)
    requires i < f <= |s| && Advancing(|s|, at) && at(i).None?
    requires SubFrom(s, at, rep, i + 1) == s[i + 1..f] + SubFrom(s, at, rep, f)
    ensures SubFrom(s, at, rep, i) == s[i..f] + SubFrom(s, at, rep, f)
  {
    assert SubFrom(s, at, rep, i) == [s[i]] + SubFrom(s, at, rep, i + 1);
    assert s[i..f] == [s[i]] + s[i + 1..f];
  }

  /** The position the scan resumes from after the first `k` matches. */
  function Resume(ms: seq<(nat, nat)>, k: nat): nat
    requires k <= |ms|
  {
    if k == 0 then 0 else ms[k - 1].1
  }

  /** The matches after the first `k` are the ones a scan finds from where
      the `k`-th one ends. */
  lemma {:induction false} MatchesAfter(s: string, at: nat -> Option<nat>, ms: seq<(nat, nat)>, k: nat)
    requires Advancing(|s|, at) && ms == MatchesFrom(|s|, at, 0) && k <= |ms|
    ensures Resume(ms, k) <= |s| && MatchesFrom(|s|, at, Resume(ms, k)) == ms[k..]
    decreases k
  {
    if k > 0 {
      MatchesAfter(s, at, ms, k - 1);
      FirstMatch(s, at, "", Resume(ms, k - 1));
      assert ms[k - 1..][0] == ms[k - 1];
      assert ms[k - 1..][1..] == ms[k..];
    }
  }

  /** Over a stretch where nothing matches, the text is copied. */
  lemma {:induction false} Gap(s: string, at: nat -> Option<nat>, rep: string, a: nat, b: nat)
    requires a <= b <= |s| && Advancing(|s|, at) && NoMatchIn(at, a, b)
    ensures SubFrom(s, at, rep, a) == s[a..b] + SubFrom(s, at, rep, b)
    decreases b - a
  {
    if a < b {
      assert at(a).None?;
      Gap(s, at, rep, a + 1, b);
      CopyStep(s, at, rep, a, b);
    }
  }

  /** Where the rewritten part starts once the matches from `k` on are done. */
  function Frontier(n: nat, ms: seq<(nat, nat)>, k: nat): nat {
    if k < |ms| then ms[k].0 else n
  }

  /** Splicing the replacement over match `k`, once the matches after it are
      spliced, extends the rewritten part back to the start of match `k`. */
  lemma SpliceStep(s: string, at: nat -> Option<nat>, rep: string, ms: seq<(nat, nat)>, k: nat, out: string)
    requires Advancing(|s|, at) && ms == MatchesFrom(|s|, at, 0) && k < |ms|
    requires out == s[..Frontier(|s|, ms, k + 1)] + SubFrom(s, at, rep, Frontier(|s|, ms, k + 1))
    ensures ms[k].0 < ms[k].1 <= Frontier(|s|, ms, k + 1) <= |s|
    ensures out[..ms[k].0] + rep + out[ms[k].1..] == s[..ms[k].0] + SubFrom(s, at, rep, ms[k].0)
  {
    var p := Frontier(|s|, ms, k + 1);
    SpliceBounds(s, at, rep, ms, k);
    Splice(s, SubFrom(s, at, rep, p), rep, ms[k].0, ms[k].1, p);
  }

  /** Match `k` lies before the rewritten part, and rewriting from its start
      gives the replacement, the gap up to the next match, and the rest. */
  lemma SpliceBounds(s: string, at: nat -> Option<nat>, rep: string, ms: seq<(nat, nat)>, k: nat)
    requires Advancing(|s|, at) && ms == MatchesFrom(|s|, at, 0) && k < |ms|
    ensures ms[k].0 < ms[k].1 <= Frontier(|s|, ms, k + 1) <= |s|
    ensures SubFrom(s, at, rep, ms[k].0) ==
      rep + s[ms[k].1..Frontier(|s|, ms, k + 1)] + SubFrom(s, at, rep, Frontier(|s|, ms, k + 1))
  {
    var a, b := ms[k].0, ms[k].1;
    assert at(a) == Some(b) && b <= |s| by {
      MatchesAfter(s, at, ms, k);
      FirstMatch(s, at, rep, Resume(ms, k));
      assert ms[k..][0] == ms[k];
    }
    assert b == Resume(ms, k + 1);
    MatchesAfter(s, at, ms, k + 1);
    FirstMatch(s, at, rep, b);
    assert NextStart(|s|, ms[k + 1..]) == Frontier(|s|, ms, k + 1);
  }

  /** The sequence algebra of one splice. */
  lemma Splice(s: string, tail: string, rep: string, a: nat, b: nat, p: nat)
    requires a < b <= p <= |s|
    ensures (s[..p] + tail)[..a] + rep + (s[..p] + tail)[b..] == s[..a] + (rep + s[b..p] + tail)
  {
    var out := s[..p] + tail;
    assert out[..a] == s[..a];
    assert out[b..] == s[b..p] + tail;
  }

  /** Before the first match the text is copied. */
  lemma BeforeFirst(s: string, at: nat -> Option<nat>, rep: string, ms: seq<(nat, nat)>)
    requires Advancing(|s|, at) && ms == MatchesFrom(|s|, at, 0)
    ensures Frontier(|s|, ms, 0) <= |s|
    ensures SubFrom(s, at, rep, 0) == s[..Frontier(|s|, ms, 0)] + SubFrom(s, at, rep, Frontier(|s|, ms, 0))
  {
    FirstMatch(s, at, rep, 0);
  }

  /** With nothing matching anywhere, substitution is the identity. */
  lemma NoMatchUnchanged(s: string, at: nat -> Option<nat>, rep: string)
    requires Advancing(|s|, at) && NoMatchIn(at, 0, |s|)
    ensures SubFrom(s, at, rep, 0) == s
  {
    Gap(s, at, rep, 0, |s|);
  }
}
