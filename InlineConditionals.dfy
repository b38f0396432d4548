/** `CartaManifestacionGenerator._process_conditionals`: inline conditional
    sections inside one text. For every condition, in the dict's order, each
    `[{% if NAME == 'sí' %}].mark ... [{% endif %}].mark` section and then each
    `{% if NAME == 'sí' %} ... {% endif %}` section is replaced by its content
    when the value is `sí` and removed otherwise; finally every remaining
    `{% ... %}` tag is dropped. */
module InlineConditionals {
  import opened Wrappers
  import opened Strings
  import opened Dicts
  import opened DocumentModel

  /** The opening of a marked section. The name is put into the pattern
      unescaped; it is matched literally here, which agrees for names made
      of word characters. */
  function MarkedOpen(name: string): string {
    "[{% if " + name + " == '" + Yes + "' %}].mark"
  }

  const MarkedClose: string := "[{% endif %}].mark"

  function PlainOpen(name: string): string {
    "{% if " + name + " == '" + Yes + "' %}"
  }

  const PlainClose: string := "{% endif %}"

  /** `re.sub(open + '(.*?)' + close, r'\1' if keep else '', s, flags=re.DOTALL)`
      for literal delimiters. The leftmost opening starts the match and the
      lazy group ends it at the first closing after it; when that opening has
      no closing after it, no later one has either, and the scan stops. */
  function SubDelimited(s: string, open: string, close: string, keep: bool): string
    requires |open| > 0
    decreases |s|
  {
    match FindFrom(s, open, 0)
    case None => s
    case Some(i) =>
      match FindFrom(s, close, i + |open|)
      case None => s
      case Some(j) =>
        s[..i] + (if keep then s[i + |open|..j] else "") + SubDelimited(s[j + |close|..], open, close, keep)
  }

  /** The length of a match of `\{%[^%]*%\}` at the start of `s`. `[^%]*`
      stops at the first `%`, which must begin `%}`; a shorter repetition
      would put another character where the `%` is needed. */
  function TagAt(s: string): (r: Option<nat>)
    ensures r.Some? ==> 4 <= r.value <= |s|
  {
    if !StartsWith(s, "{%") then None
    else
      var n := SpanNot(s[2..], '%');
      if IsPrefixAt(s, 2 + n, "%}") then Some(2 + n + 2) else None
  }

  /** `re.sub(r'\{%[^%]*%\}', '', s)`. */
  function RemoveTags(s: string): string
    decreases |s|
  {
    if s == [] then []
    else match TagAt(s)
      case Some(n) => RemoveTags(s[n..])
      case None => [s[0]] + RemoveTags(s[1..])
  }

  /** Both substitutions for one condition. */
  function CondRound(s: string, name: string, value: string): string {
    var keep := value == Yes;
    SubDelimited(SubDelimited(s, MarkedOpen(name), MarkedClose, keep), PlainOpen(name), PlainClose, keep)
  }

  /** The conditions applied in the dict's order. */
  function CondFold(s: string, conds: Dict<string, string>): string
    decreases |conds|
  {
    if conds == [] then s else CondFold(CondRound(s, conds[0].0, conds[0].1), conds[1..])
  }

  /** `_process_conditionals(text, conditionals)`. */
  method ProcessConditionals(text: string, conds: Dict<string, string>) returns (r: string)
    ensures r == RemoveTags(CondFold(text, conds))
  {
    var t := text;
    var i := 0;
    while i < |conds|
      invariant 0 <= i <= |conds|
      invariant CondFold(t, conds[i..]) == CondFold(text, conds)
    {
      var keep := conds[i].1 == Yes;
      assert conds[i..][1..] == conds[i + 1..];
      t := SubDelimited(t, MarkedOpen(conds[i].0), MarkedClose, keep);
      t := SubDelimited(t, PlainOpen(conds[i].0), PlainClose, keep);
      i := i + 1;
    }
    assert conds[i..] == [];
    r := RemoveTags(t);
  }

  // ---------------------------------------------------------------------------
  // Properties
  // ---------------------------------------------------------------------------

  /** No closing starts inside the content of `open + x + close`: the lazy
      group then ends exactly at the closing written after `x`. */
  predicate CloseOnlyAfter(open: string, x: string, close: string) {
    forall q: nat :: |open| <= q < |open| + |x| ==> !IsPrefixAt(open + x + close, q, close)
  }

  /** A section whose content holds no earlier closing is replaced by its
      content when the condition holds and removed otherwise; the content is
      left untouched, whatever placeholders or braces it holds. */
  lemma SectionReplaced(open: string, close: string, x: string, keep: bool)
    requires |open| > 0
    requires CloseOnlyAfter(open, x, close)
    ensures SubDelimited(open + x + close, open, close, keep) == if keep then x else ""
  {
    var s := open + x + close;
    var j := |open| + |x|;
    OpenAtStart(open, x, close);
    CloseAfterContent(open, close, x);
    MatchAtStart(s, open, close, keep, j);
    assert s[|open|..j] == x;
    assert s[j + |close|..] == [];
  }

  /** When the text starts with the opening and the first closing after it
      is at `j`, the match spans both and the scan resumes after it. */
  lemma MatchAtStart(s: string, open: string, close: string, keep: bool, j: nat)
    requires |open| > 0 && IsPrefixAt(s, 0, open) && |open| <= j && IsPrefixAt(s, j, close)
    requires forall p: nat :: |open| <= p < j ==> !IsPrefixAt(s, p, close)
    ensures SubDelimited(s, open, close, keep)
         == (if keep then s[|open|..j] else "") + SubDelimited(s[j + |close|..], open, close, keep)
  {
    assert FindFrom(s, open, 0) == Some(0);
    FindFirst(s, close, |open|, j);
    assert s[..0] == [];
  }

  lemma OpenAtStart(open: string, x: string, close: string)
    ensures IsPrefixAt(open + x + close, 0, open)
  {
    assert (open + x + close)[..|open|] == open;
  }

  /** The lazy group's end: the first closing after the opening is the one
      after the content. */
  lemma FirstClose(open: string, close: string, x: string)
    requires CloseOnlyAfter(open, x, close)
    ensures FindFrom(open + x + close, close, |open|) == Some(|open| + |x|)
  {
    var s := open + x + close;
    var j := |open| + |x|;
    CloseAfterContent(open, close, x);
    FindFirst(s, close, |open|, j);
  }

  lemma CloseAfterContent(open: string, close: string, x: string)
    ensures IsPrefixAt(open + x + close, |open| + |x|, close)
  {
    var s := open + x + close;
    var j := |open| + |x|;
    assert s[j..j + |close|] == close;
  }

  /** A content without the character `c` holds no earlier closing when `c`
      occurs in the closing only at `at`: a closing starting inside the
      content would need a `c` where the content or the closing's own prefix
      has none. */
  lemma NoCloseInside(open: string, close: string, x: string, c: char, at: nat)
    requires at < |close| && close[at] == c
    requires forall k :: 0 <= k < at ==> close[k] != c
    requires c !in x
    ensures CloseOnlyAfter(open, x, close)
  {
    var s := open + x + close;
    var j := |open| + |x|;
    forall q: nat | |open| <= q < j
      ensures !IsPrefixAt(s, q, close)
    {
      if q + |close| <= |s| {
        var p := q + at;
        assert s[p] != c by {
          if p < j {
            assert s[p] == x[p - |open|];
          } else {
            assert s[p] == close[p - j];
          }
        }
        assert s[q..q + |close|][at] == s[p];
      }
    }
  }

  /** The marked section of one condition. */
  lemma MarkedSection(name: string, x: string, value: string)
    requires CloseOnlyAfter(MarkedOpen(name), x, MarkedClose)
    ensures SubDelimited(MarkedOpen(name) + x + MarkedClose, MarkedOpen(name), MarkedClose, value == Yes)
         == if value == Yes then x else ""
  {
    SectionReplaced(MarkedOpen(name), MarkedClose, x, value == Yes);
  }

  /** The unmarked section of one condition. */
  lemma PlainSection(name: string, x: string, value: string)
    requires CloseOnlyAfter(PlainOpen(name), x, PlainClose)
    ensures SubDelimited(PlainOpen(name) + x + PlainClose, PlainOpen(name), PlainClose, value == Yes)
         == if value == Yes then x else ""
  {
    SectionReplaced(PlainOpen(name), PlainClose, x, value == Yes);
  }

  /** Content without `%`, such as `Dear {{name}}`, is never cut short: both
      closings hold a `%`. */
  lemma PercentFreeSections(name: string, x: string, value: string)
    requires '%' !in x
    ensures SubDelimited(MarkedOpen(name) + x + MarkedClose, MarkedOpen(name), MarkedClose, value == Yes)
         == if value == Yes then x else ""
    ensures SubDelimited(PlainOpen(name) + x + PlainClose, PlainOpen(name), PlainClose, value == Yes)
         == if value == Yes then x else ""
  {
    PercentFreeMarked(name, x);
    MarkedSection(name, x, value);
    PercentFreePlain(name, x);
    PlainSection(name, x, value);
  }

  lemma PercentFreeMarked(name: string, x: string)
    requires '%' !in x
    ensures CloseOnlyAfter(MarkedOpen(name), x, MarkedClose)
  {
    var close := MarkedClose;
    assert close[0] == '[' && close[1] == '{' && close[2] == '%';
    NoCloseInside(MarkedOpen(name), close, x, '%', 2);
  }

  lemma PercentFreePlain(name: string, x: string)
    requires '%' !in x
    ensures CloseOnlyAfter(PlainOpen(name), x, PlainClose)
  {
    var close := PlainClose;
    assert close[0] == '{' && close[1] == '%';
    NoCloseInside(PlainOpen(name), close, x, '%', 1);
  }

  lemma {:induction false} SubDelimitedNoBrace(s: string, open: string, close: string, keep: bool, b: nat)
    requires b < |open| && open[b] == '{' && '{' !in s
    ensures SubDelimited(s, open, close, keep) == s
  {
    var f := FindFrom(s, open, 0);
    if f.Some? {
      AbsentCharNoOccurrence(s, open, '{', f.value, b);
    }
  }

  lemma {:induction false} RemoveTagsNoBrace(s: string)
    requires '{' !in s
    ensures RemoveTags(s) == s
    decreases |s|
  {
    if s != [] {
      assert TagAt(s).None? by { assert s[0] != '{'; }
      assert '{' !in s[1..] by { assert forall k :: 0 <= k < |s| - 1 ==> s[1..][k] == s[k + 1]; }
      RemoveTagsNoBrace(s[1..]);
      assert s == [s[0]] + s[1..];
    }
  }

  lemma {:induction false} CondFoldNoBrace(s: string, conds: Dict<string, string>)
    requires '{' !in s
    ensures CondFold(s, conds) == s
    decreases |conds|
  {
    if conds != [] {
      var keep := conds[0].1 == Yes;
      var name := conds[0].0;
      assert MarkedOpen(name)[1] == '{';
      SubDelimitedNoBrace(s, MarkedOpen(name), MarkedClose, keep, 1);
      assert PlainOpen(name)[0] == '{';
      SubDelimitedNoBrace(s, PlainOpen(name), PlainClose, keep, 0);
      CondFoldNoBrace(s, conds[1..]);
    }
  }

  /** A text without `{` comes out unchanged. */
  lemma NoBraceUnchanged(s: string, conds: Dict<string, string>)
    requires '{' !in s
    ensures RemoveTags(CondFold(s, conds)) == s
  {
    CondFoldNoBrace(s, conds);
    RemoveTagsNoBrace(s);
  }

  /** A tag is removed whole and the scan resumes after it. */
  lemma TagRemoved(body: string, rest: string)
    requires '%' !in body
    ensures RemoveTags("{%" + body + "%}" + rest) == RemoveTags(rest)
  {
    var s := "{%" + body + "%}" + rest;
    assert s[2..] == body + "%}" + rest;
    assert SpanNot(s[2..], '%') == |body| by {
      SpanNotExact(s[2..], '%', |body|);
    }
    assert IsPrefixAt(s, 2 + |body|, "%}");
    assert s[|body| + 4..] == rest;
  }
}
