/** `CartaManifestacionGenerator.extract_variables`: the placeholder names and
    conditional names a template mentions, each as a sorted list without
    duplicates. */
module Extractor {
  import opened Wrappers
  import opened Strings
  import opened DocumentModel

  // ---------------------------------------------------------------------------
  // The two scanners
  // ---------------------------------------------------------------------------

  /** `re.findall(r'\{\{([^}]+)\}\}', s)`: the text between each `{{` and the
      next `}}`, when that text is non-empty and holds no `}`. */
  function VarCaptures(s: string): (r: seq<string>)
    ensures forall k :: 0 <= k < |r| ==> |r[k]| > 0 && '}' !in r[k]
    decreases |s|
  {
    if |s| < 2 then []
    else if StartsWith(s, "{{") then
      var n := SpanNot(s[2..], '}');
      if n > 0 && IsPrefixAt(s, 2 + n, "}}") then
        assert forall k :: 0 <= k < n ==> s[2..2 + n][k] == s[2..][k];
        [s[2..2 + n]] + VarCaptures(s[2 + n + 2..])
      else VarCaptures(s[1..])
    else VarCaptures(s[1..])
  }

  /** The match of `\{%\s*if\s+(\w+)\s*==` at the start of `s`, if any: the
      captured name and the length of the match. */
  function CondAt(s: string): (r: Option<(string, nat)>)
    ensures r.Some? ==> 0 < r.value.1 <= |s| && |r.value.0| > 0
    ensures r.Some? ==> forall k :: 0 <= k < |r.value.0| ==> IsWordChar(r.value.0[k])
  {
    if !StartsWith(s, "{%") then None
    else
      var a := 2 + LeadingSpaces(s[2..]);
      if !IsPrefixAt(s, a, "if") then None
      else
        var w := LeadingSpaces(s[a + 2..]);
        if w == 0 then None
        else
          var c := a + 2 + w;
          var n := SpanWord(s[c..]);
          if n == 0 then None
          else
            var d := c + n + LeadingSpaces(s[c + n..]);
            if IsPrefixAt(s, d, "==") then
              WordRun(s, c, n);
              Some((s[c..c + n], d + 2))
            else None
  }

  lemma WordRun(s: string, c: nat, n: nat)
    requires c <= |s| && n <= SpanWord(s[c..])
    ensures c + n <= |s| && forall k :: c <= k < c + n ==> IsWordChar(s[k])
  {
    assert forall k :: c <= k < c + n ==> s[k] == s[c..][k - c];
  }

  /** `re.findall(r'\{%\s*if\s+(\w+)\s*==', s)`. */
  function CondCaptures(s: string): (r: seq<string>)
    ensures forall k :: 0 <= k < |r| ==> |r[k]| > 0
    decreases |s|
  {
    if s == [] then []
    else match CondAt(s)
      case Some(m) => [m.0] + CondCaptures(s[m.1..])
      case None => CondCaptures(s[1..])
  }

  // ---------------------------------------------------------------------------
  // Naming rules
  // ---------------------------------------------------------------------------

  /** `s.split(c)[0]`. */
  function BeforeFirst(s: string, c: char): (r: string)
    ensures c !in r
    ensures StartsWith(s, r)
  {
    s[..SpanNot(s, c)]
  }

  /** The name one `{{...}}` capture contributes, if any: the list placeholder
      whenever its name and a `:` occur; the stripped part before the first `|`
      of a filtered placeholder; the stripped capture otherwise. A name starting
      with `%` (a misplaced block tag) is dropped. */
  function VarName(capture: string): (r: Option<string>)
    ensures r.Some? ==> !StartsWith(r.value, "%")
    ensures r.Some? ==> '|' !in r.value
    ensures r.Some? ==> r.value == [] || (!IsSpace(r.value[0]) && !IsSpace(r.value[|r.value| - 1]))
  {
    NameOf(Strip(capture))
  }

  /** `VarName` once the capture is stripped. */
  function NameOf(name: string): (r: Option<string>)
    requires name == [] || (!IsSpace(name[0]) && !IsSpace(name[|name| - 1]))
    ensures r.Some? ==> !StartsWith(r.value, "%")
    ensures r.Some? ==> '|' !in r.value
    ensures r.Some? ==> r.value == [] || (!IsSpace(r.value[0]) && !IsSpace(r.value[|r.value| - 1]))
  {
    if Contains(name, ListaName) && Contains(name, ":") then
      ListaNameShape();
      Some(ListaName)
    else if '|' in name then
      var base := FilterBase(name);
      if StartsWith(base, "%") then None else Some(base)
    else if StartsWith(name, "%") then None
    else Some(name)
  }

  /** The stripped part of a filtered placeholder before its first `|`. */
  function FilterBase(name: string): (r: string)
    ensures '|' !in r
    ensures r == [] || (!IsSpace(r[0]) && !IsSpace(r[|r| - 1]))
  {
    StripAvoids(BeforeFirst(name, '|'), '|');
    Strip(BeforeFirst(name, '|'))
  }

  lemma ListaNameShape()
    ensures !StartsWith(ListaName, "%") && '|' !in ListaName
    ensures !IsSpace(ListaName[0]) && !IsSpace(ListaName[|ListaName| - 1])
  {
    assert ListaName[0] == 'l';
  }

  /** The names of the `{{...}}` placeholders in one text. */
  function VarNamesIn(captures: seq<string>): (r: seq<string>)
    ensures forall k :: 0 <= k < |r| ==> !StartsWith(r[k], "%") && '|' !in r[k]
  {
    if captures == [] then []
    else
      var rest := VarNamesIn(captures[1..]);
      match VarName(captures[0])
      case Some(n) => [n] + rest
      case None => rest
  }

  /** The texts the extractor reads: every body paragraph, then every cell of
      every body table. */
  function Texts(body: seq<Block>): seq<string> {
    if body == [] then []
    else
      var rest := Texts(body[1..]);
      match body[0]
      case Para(p) => [Text(p)] + rest
      case Tbl(t) => TableTexts(t.rows) + rest
      case Other => rest
  }

  function TableTexts(rows: seq<Row>): seq<string> {
    if rows == [] then [] else CellTexts(rows[0]) + TableTexts(rows[1..])
  }

  function CellTexts(cells: seq<Cell>): seq<string> {
    if cells == [] then [] else [CellText(cells[0])] + CellTexts(cells[1..])
  }

  // ---------------------------------------------------------------------------
  // The sets, as sets
  // ---------------------------------------------------------------------------

  function Elems(xs: seq<string>): set<string> {
    set k | 0 <= k < |xs| :: xs[k]
  }

  /** Every placeholder name mentioned in any of the texts. */
  function VariableSet(texts: seq<string>): set<string> {
    if texts == [] then {} else Elems(VarNamesIn(VarCaptures(texts[0]))) + VariableSet(texts[1..])
  }

  /** Every conditional name mentioned in any of the texts. */
  function ConditionalSet(texts: seq<string>): set<string> {
    if texts == [] then {} else Elems(CondCaptures(texts[0])) + ConditionalSet(texts[1..])
  }

  // ---------------------------------------------------------------------------
  // sorted(list(set))
  // ---------------------------------------------------------------------------

  predicate StrictlySorted(xs: seq<string>) {
    forall i, j :: 0 <= i < j < |xs| ==> Less(xs[i], xs[j])
  }

  lemma ElemsCons(x: string, xs: seq<string>)
    ensures Elems([x] + xs) == {x} + Elems(xs)
  {
    var e := [x] + xs;
    forall y | y in Elems(e) ensures y in {x} + Elems(xs) {
      var i :| 0 <= i < |e| && e[i] == y;
      if i > 0 { assert xs[i - 1] == y; }
    }
    forall y | y in Elems(xs) ensures y in Elems(e) {
      var i :| 0 <= i < |xs| && xs[i] == y;
      assert e[i + 1] == y;
    }
    assert e[0] == x;
  }

  lemma ElemsAppend(xs: seq<string>, ys: seq<string>)
    ensures Elems(xs + ys) == Elems(xs) + Elems(ys)
  {
    var e := xs + ys;
    forall y | y in Elems(e) ensures y in Elems(xs) + Elems(ys) {
      var i :| 0 <= i < |e| && e[i] == y;
      if i >= |xs| { assert ys[i - |xs|] == y; }
    }
    forall y | y in Elems(ys) ensures y in Elems(e) {
      var i :| 0 <= i < |ys| && ys[i] == y;
      assert e[i + |xs|] == y;
    }
    forall y | y in Elems(xs) ensures y in Elems(e) {
      var i :| 0 <= i < |xs| && xs[i] == y;
      assert e[i] == y;
    }
  }

  /** `set.add` on a set kept as a strictly ascending list. */
  function Insert(xs: seq<string>, x: string): (r: seq<string>)
    requires StrictlySorted(xs)
    ensures StrictlySorted(r)
    ensures Elems(r) == Elems(xs) + {x}
  {
    if xs == [] then
      assert Elems([x]) == {x} by { ElemsCons(x, []); }
      [x]
    else if x == xs[0] then
      ElemsCons(xs[0], xs[1..]);
      assert xs == [xs[0]] + xs[1..];
      xs
    else if Less(x, xs[0]) then
      forall j | 0 <= j < |xs| ensures Less(x, xs[j]) {
        if j > 0 { LessTransitive(x, xs[0], xs[j]); }
      }
      ElemsCons(x, xs);
      [x] + xs
    else
      LessTotal(x, xs[0]);
      var t := Insert(xs[1..], x);
      var r := [xs[0]] + t;
      forall j | 0 <= j < |t| ensures Less(xs[0], t[j]) {
        assert t[j] in Elems(t);
        var i :| 0 <= i < |t| && t[i] == t[j];
        if t[j] != x {
          assert t[j] in Elems(xs[1..]);
          var m :| 0 <= m < |xs[1..]| && xs[1..][m] == t[j];
          assert xs[m + 1] == t[j];
        }
      }
      ElemsCons(xs[0], t);
      ElemsCons(xs[0], xs[1..]);
      assert xs == [xs[0]] + xs[1..];
      r
  }

  function InsertAll(xs: seq<string>, ys: seq<string>): (r: seq<string>)
    requires StrictlySorted(xs)
    ensures StrictlySorted(r)
    ensures Elems(r) == Elems(xs) + Elems(ys)
    decreases |ys|
  {
    if ys == [] then
      xs
    else
      ElemsCons(ys[0], ys[1..]);
      assert ys == [ys[0]] + ys[1..];
      InsertAll(Insert(xs, ys[0]), ys[1..])
  }

  /** The placeholder names of the texts, accumulated as `extract_variables` does. */
  function CollectVariables(acc: seq<string>, texts: seq<string>): (r: seq<string>)
    requires StrictlySorted(acc)
    ensures StrictlySorted(r)
    ensures Elems(r) == Elems(acc) + VariableSet(texts)
    decreases |texts|
  {
    if texts == [] then acc
    else CollectVariables(InsertAll(acc, VarNamesIn(VarCaptures(texts[0]))), texts[1..])
  }

  /** The conditional names of the texts, accumulated as `extract_variables` does. */
  function CollectConditionals(acc: seq<string>, texts: seq<string>): (r: seq<string>)
    requires StrictlySorted(acc)
    ensures StrictlySorted(r)
    ensures Elems(r) == Elems(acc) + ConditionalSet(texts)
    decreases |texts|
  {
    if texts == [] then acc
    else CollectConditionals(InsertAll(acc, CondCaptures(texts[0])), texts[1..])
  }

  /** `extract_variables()`: both lists strictly ascending (so sorted and free
      of duplicates) and holding exactly the names the template mentions. */
  function ExtractVariables(body: seq<Block>): (r: (seq<string>, seq<string>))
    ensures StrictlySorted(r.0) && Elems(r.0) == VariableSet(Texts(body))
    ensures StrictlySorted(r.1) && Elems(r.1) == ConditionalSet(Texts(body))
  {
    (CollectVariables([], Texts(body)), CollectConditionals([], Texts(body)))
  }

  /** A strictly ascending list is determined by its elements, so the result of
      `sorted(list(s))` depends only on the set `s`. */
  lemma {:induction false} SortedUnique(a: seq<string>, b: seq<string>)
    requires StrictlySorted(a) && StrictlySorted(b)
    requires Elems(a) == Elems(b)
    ensures a == b
    decreases |a|
  {
    if a == [] || b == [] {
      ElemsEmpty(a);
      ElemsEmpty(b);
    } else {
      assert a[0] in Elems(b);
      assert b[0] in Elems(a);
      var i :| 0 <= i < |b| && b[i] == a[0];
      var j :| 0 <= j < |a| && a[j] == b[0];
      if a[0] != b[0] {
        assert i > 0 && j > 0;
        LessAsymmetric(b[0], a[0]);
        assert false;
      }
      ElemsCons(a[0], a[1..]);
      ElemsCons(b[0], b[1..]);
      assert a == [a[0]] + a[1..];
      assert b == [b[0]] + b[1..];
      forall k | 0 <= k < |a| - 1 ensures a[1..][k] != a[0] {
        LessIrreflexive(a[0]);
      }
      forall k | 0 <= k < |b| - 1 ensures b[1..][k] != b[0] {
        LessIrreflexive(b[0]);
      }
      assert a[0] !in Elems(a[1..]);
      assert b[0] !in Elems(b[1..]);
      assert Elems(a[1..]) == Elems(a) - {a[0]};
      assert Elems(b[1..]) == Elems(b) - {b[0]};
      SortedUnique(a[1..], b[1..]);
    }
  }

  lemma ElemsEmpty(xs: seq<string>)
    ensures Elems(xs) == {} <==> xs == []
  {
    if xs != [] {
      assert xs[0] in Elems(xs);
    }
  }
  /** A text that is one `{{x}}` placeholder, with `x` non-empty and free of
      `}`, yields the single capture `x`. */
  lemma PlaceholderCapture(x: string)
    requires |x| > 0 && '}' !in x
    ensures VarCaptures("{{" + x + "}}") == [x]
  {
    var s := "{{" + x + "}}";
    PlaceholderShape(x);
    VarCapturesStep(s, |x|);
  }

  /** Where the scanner finds the parts of `{{x}}`. */
  lemma PlaceholderShape(x: string)
    requires '}' !in x
    ensures var s := "{{" + x + "}}";
      && StartsWith(s, "{{") && SpanNot(s[2..], '}') == |x| && IsPrefixAt(s, 2 + |x|, "}}")
      && s[2..2 + |x|] == x && s[2 + |x| + 2..] == []
  {
    var s := "{{" + x + "}}";
    assert s[2..] == x + "}}";
    assert SpanNot(s[2..], '}') == |x| by {
      assert (x + "}}")[|x|] == '}';
    }
    assert s[..2] == "{{";
    assert s[2 + |x|..2 + |x| + 2] == "}}";
    assert s[2..2 + |x|] == x;
  }

  /** One step of the scanner at a complete placeholder. */
  lemma VarCapturesStep(s: string, n: nat)
    requires StartsWith(s, "{{") && n == SpanNot(s[2..], '}') && n > 0 && IsPrefixAt(s, 2 + n, "}}")
    ensures VarCaptures(s) == [s[2..2 + n]] + VarCaptures(s[2 + n + 2..])
  {
  }
}
