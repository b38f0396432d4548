/** `CartaManifestacionGenerator._replace_variables`: the text of one
    paragraph after its inline conditionals are resolved, its list placeholder
    and its `{{ name }}`, `{{ name|int }}` and `{{ name|int - 1 }}`
    placeholders are filled in, and the leftovers are cleaned away. */
module InlineVariables {
  import opened Wrappers
  import opened Strings
  import opened Dicts
  import opened DocumentModel
  import opened Scanning
  import InlineConditionals

  // ---------------------------------------------------------------------------
  // The list placeholder
  // ---------------------------------------------------------------------------

  const ListaHead: string := "{{lista_alto_directores:"

  /** The end of a match of `\{\{lista_alto_directores:[^}]+\}\}` starting at
      `i`. `[^}]+` stops at the first `}`, which must begin `}}`. */
  function ListaAt(s: string, i: nat): (r: Option<nat>)
    requires i <= |s|
    ensures r.Some? ==> i < r.value <= |s|
  {
    if !IsPrefixAt(s, i, ListaHead) then None
    else
      var a := i + |ListaHead|;
      var n := SpanNot(s[a..], '}');
      if n > 0 && IsPrefixAt(s, a + n, "}}") then Some(a + n + 2) else None
  }

  /** The list pattern as a matcher over the whole of `s`. */
  function ListaMatcher(s: string): (at: nat -> Option<nat>)
    ensures Advancing(|s|, at)
  {
    (j: nat) => if j <= |s| then ListaAt(s, j) else None
  }

  /** `re.sub(list pattern, rep, s)`. */
  function SubLista(s: string, rep: string): string {
    SubFrom(s, ListaMatcher(s), rep, 0)
  }

  /** The list placeholders, replaced from the last match to the first. Every
      match gets the same text, so this is `re.sub` of the pattern. */
  method ReplaceListas(text: string, rep: string) returns (out: string)
    ensures out == SubLista(text, rep)
  {
    var at := ListaMatcher(text);
    var ms := MatchesFrom(|text|, at, 0);
    out := text;
    var k := |ms|;
    while k > 0
      invariant 0 <= k <= |ms|
      invariant Frontier(|text|, ms, k) <= |text|
      invariant out == text[..Frontier(|text|, ms, k)] + SubFrom(text, at, rep, Frontier(|text|, ms, k))
    {
      k := k - 1;
      SpliceStep(text, at, rep, ms, k, out);
      out := out[..ms[k].0] + rep + out[ms[k].1..];
    }
    BeforeFirst(text, at, rep, ms);
  }

  // ---------------------------------------------------------------------------
  // Scalar placeholders
  // ---------------------------------------------------------------------------

  /** The three patterns tried for every variable, in order. */
  datatype Kind = Plain | Int | Dec

  const Kinds: seq<Kind> := [Plain, Int, Dec]

  /** The literals after the name, each preceded by `\s*`. Every piece starts
      with a non-space character, so each greedy `\s*` takes all the spaces
      there are and nothing is gained by backtracking into it. */
  function Pieces(kind: Kind): seq<string> {
    match kind
    case Plain => ["}}"]
    case Int => ["|", "int", "}}"]
    case Dec => ["|", "int", "-", "1", "}}"]
  }

  function Total(pieces: seq<string>): nat {
    if pieces == [] then 0 else |pieces[0]| + Total(pieces[1..])
  }

  function Concat(pieces: seq<string>): string {
    if pieces == [] then [] else pieces[0] + Concat(pieces[1..])
  }

  /** Where a greedy `\s*` started at `j` stops. */
  function SpacesEnd(s: string, j: nat): (e: nat)
    requires j <= |s|
    ensures j <= e <= |s|
    decreases |s| - j
  {
    if j < |s| && IsSpace(s[j]) then SpacesEnd(s, j + 1) else j
  }

  /** The end of `\s*piece\s*piece...` matched from `j`. */
  function TailEnd(s: string, j: nat, pieces: seq<string>): (r: Option<nat>)
    requires j <= |s|
    ensures r.Some? ==> j + Total(pieces) <= r.value <= |s|
    decreases |pieces|
  {
    if pieces == [] then Some(j)
    else
      var a := SpacesEnd(s, j);
      if IsPrefixAt(s, a, pieces[0]) then TailEnd(s, a + |pieces[0]|, pieces[1..]) else None
  }

  /** The first `\s*` tried with `k` spaces, then with fewer: the end of the
      match starting at `i`, if any. */
  function NameFrom(s: string, i: nat, name: string, kind: Kind, k: nat): (r: Option<nat>)
    requires i + 2 + k <= |s|
    ensures r.Some? ==> i + 2 + |name| + Total(Pieces(kind)) <= r.value <= |s|
    decreases k
  {
    var p := i + 2 + k;
    var t := if IsPrefixAt(s, p, name) then TailEnd(s, p + |name|, Pieces(kind)) else None;
    if t.Some? then t
    else if k == 0 then None
    else NameFrom(s, i, name, kind, k - 1)
  }

  /** The length of a match of `\{\{\s*NAME...\}\}` at the start of `s`; the
      name is escaped, so it is matched literally. */
  function ScalarAt(s: string, name: string, kind: Kind): (r: Option<nat>)
    ensures r.Some? ==> 4 <= r.value <= |s|
  {
    if StartsWith(s, "{{") then
      assert Total(Pieces(kind)) >= 2;
      NameFrom(s, 0, name, kind, LeadingSpaces(s[2..]))
    else None
  }

  /** `re.sub(pattern, rep, s)` for one scalar pattern. */
  function SubScalar(s: string, name: string, kind: Kind, rep: string): string
    decreases |s|
  {
    if s == [] then []
    else match ScalarAt(s, name, kind)
      case Some(e) => rep + SubScalar(s[e..], name, kind, rep)
      case None => [s[0]] + SubScalar(s[1..], name, kind, rep)
  }

  // ---------------------------------------------------------------------------
  // The replacement text
  // ---------------------------------------------------------------------------

  /** A character `re.escape` prefixes with a backslash. */
  predicate IsReSpecial(c: char) {
    c in "()[]{}?*+-|^$\\.&~# \t\n\r\U{000B}\U{000C}"
  }

  /** `re.escape(s)`. */
  function ReEscape(s: string): string {
    if s == [] then [] else (if IsReSpecial(s[0]) then ['\\', s[0]] else [s[0]]) + ReEscape(s[1..])
  }

  /** The source text of each pattern, as the program builds it. */
  function PatternSource(kind: Kind, name: string): string {
    "\\{\\{\\s*" + ReEscape(name) +
    match kind
    case Plain => "\\s*\\}\\}"
    case Int => "\\s*\\|\\s*int\\s*\\}\\}"
    case Dec => "\\s*\\|\\s*int\\s*-\\s*1\\s*\\}\\}"
  }

  /** The text the decrement guard looks for in the pattern source. */
  const DecGuard: string := "|int - 1"

  /** The replacement chosen for one pattern: the decremented number when the
      guard finds its text in the pattern source, the value otherwise. */
  function Replacement(kind: Kind, name: string, value: string): string {
    if Contains(PatternSource(kind, name), DecGuard) && value != "" then
      match ParseInt(value)
      case Some(n) => IntToString(n - 1)
      case None => value
    else if value != "" then value
    else ""
  }

  /** Every space is escaped by the character before it. */
  predicate SpacesEscaped(s: string) {
    forall j :: 0 <= j < |s| && s[j] == ' ' ==> 0 < j && s[j - 1] == '\\'
  }

  lemma SpacesEscapedAppend(a: string, b: string)
    requires SpacesEscaped(a) && SpacesEscaped(b)
    ensures SpacesEscaped(a + b)
  {
    forall j | 0 <= j < |a + b| && (a + b)[j] == ' '
      ensures 0 < j && (a + b)[j - 1] == '\\'
    {
      if j >= |a| {
        var q := j - |a|;
        assert b[q] == ' ';
        assert (a + b)[j - 1] == b[q - 1];
      }
    }
  }

  lemma {:induction false} ReEscapeSpaces(s: string)
    ensures SpacesEscaped(ReEscape(s))
    decreases |s|
  {
    if s != [] {
      ReEscapeSpaces(s[1..]);
      assert IsReSpecial(' ');
      SpacesEscapedAppend(if IsReSpecial(s[0]) then ['\\', s[0]] else [s[0]], ReEscape(s[1..]));
    }
  }

  lemma NoSpaces(s: string)
    requires ' ' !in s
    ensures SpacesEscaped(s)
  {
  }

  /** The guard never fires: in a pattern source every space is escaped,
      while the guard text has a space right after a `t`. So a
      `{{ name|int - 1 }}` placeholder receives the value itself, never the
      value minus one. */
  lemma GuardNeverFires(kind: Kind, name: string)
    ensures !Contains(PatternSource(kind, name), DecGuard)
  {
    var src := PatternSource(kind, name);
    var tail := src[|"\\{\\{\\s*" + ReEscape(name)|..];
    assert ' ' !in "\\{\\{\\s*";
    NoSpaces("\\{\\{\\s*");
    ReEscapeSpaces(name);
    SpacesEscapedAppend("\\{\\{\\s*", ReEscape(name));
    match kind {
      case Plain => NoSpaces("\\s*\\}\\}");
        SpacesEscapedAppend("\\{\\{\\s*" + ReEscape(name), "\\s*\\}\\}");
      case Int => NoSpaces("\\s*\\|\\s*int\\s*\\}\\}");
        SpacesEscapedAppend("\\{\\{\\s*" + ReEscape(name), "\\s*\\|\\s*int\\s*\\}\\}");
      case Dec => NoSpaces("\\s*\\|\\s*int\\s*-\\s*1\\s*\\}\\}");
        SpacesEscapedAppend("\\{\\{\\s*" + ReEscape(name), "\\s*\\|\\s*int\\s*-\\s*1\\s*\\}\\}");
    }
    assert SpacesEscaped(src);
    forall i: nat | i <= |src|
      ensures !IsPrefixAt(src, i, DecGuard)
    {
      if i + |DecGuard| <= |src| {
        var w := src[i..i + |DecGuard|];
        assert DecGuard[3] == 't' && DecGuard[4] == ' ';
        if src[i + 4] == ' ' {
          assert src[i + 3] == '\\';
          assert w[3] != DecGuard[3];
        } else {
          assert w[4] != DecGuard[4];
        }
      }
    }
  }

  /** Every pattern is replaced by the value itself. */
  lemma ReplacementIsValue(kind: Kind, name: string, value: string)
    ensures Replacement(kind, name, value) == value
  {
    GuardNeverFires(kind, name);
  }

  // ---------------------------------------------------------------------------
  // All variables
  // ---------------------------------------------------------------------------

  /** The patterns of `ks`, in order, for one variable. */
  function SubKinds(s: string, name: string, value: string, ks: seq<Kind>): string
    decreases |ks|
  {
    if ks == [] then s
    else SubKinds(SubScalar(s, name, ks[0], Replacement(ks[0], name, value)), name, value, ks[1..])
  }

  /** Every variable but the list one, in the dict's order. */
  function ScalarFold(s: string, vars: Dict<string, string>): string
    decreases |vars|
  {
    if vars == [] then s
    else ScalarFold(if vars[0].0 == ListaName then s else SubKinds(s, vars[0].0, vars[0].1, Kinds), vars[1..])
  }

  /** The loop over `variables.items()` and, inside it, over the patterns. */
  method ReplaceScalars(text: string, vars: Dict<string, string>) returns (t: string)
    ensures t == ScalarFold(text, vars)
  {
    t := text;
    var i := 0;
    while i < |vars|
      invariant 0 <= i <= |vars|
      invariant ScalarFold(t, vars[i..]) == ScalarFold(text, vars)
    {
      assert vars[i..][1..] == vars[i + 1..];
      var (name, value) := vars[i];
      if name != ListaName {
        var u := t;
        var p := 0;
        while p < |Kinds|
          invariant 0 <= p <= |Kinds|
          invariant SubKinds(u, name, value, Kinds[p..]) == SubKinds(t, name, value, Kinds)
        {
          assert Kinds[p..][1..] == Kinds[p + 1..];
          var kind := Kinds[p];
          var replacement := Replacement(kind, name, value);
          u := SubScalar(u, name, kind, replacement);
          p := p + 1;
        }
        t := u;
      }
      i := i + 1;
    }
  }

  // ---------------------------------------------------------------------------
  // Clean-up
  // ---------------------------------------------------------------------------

  /** The end of `\{\{[^}]*\}\}` matched at `i`. */
  function BracedEnd(s: string, i: nat): (r: Option<nat>)
    requires i <= |s|
    ensures r.Some? ==> i + 4 <= r.value <= |s|
  {
    if !IsPrefixAt(s, i, "{{") then None
    else
      var n := SpanNot(s[i + 2..], '}');
      if IsPrefixAt(s, i + 2 + n, "}}") then Some(i + 2 + n + 2) else None
  }

  /** The length of a match of `\[?\{\{[^}]*\}\}\]?` at the start of `s`:
      with the bracket first, then without it; a closing bracket right after
      is taken too. */
  function LeftoverAt(s: string): (r: Option<nat>)
    ensures r.Some? ==> 4 <= r.value <= |s|
  {
    var m := if StartsWith(s, "[") && BracedEnd(s, 1).Some? then BracedEnd(s, 1) else BracedEnd(s, 0);
    match m
    case None => None
    case Some(e) => Some(if e < |s| && s[e] == ']' then e + 1 else e)
  }

  /** `re.sub(r'\[?\{\{[^}]*\}\}\]?', '', s)`. */
  function RemoveLeftovers(s: string): string
    decreases |s|
  {
    if s == [] then []
    else match LeftoverAt(s)
      case Some(n) => RemoveLeftovers(s[n..])
      case None => [s[0]] + RemoveLeftovers(s[1..])
  }

  /** The three `.mark` clean-ups, in order. */
  function RemoveMarks(s: string): string {
    ReplaceAll(ReplaceAll(ReplaceAll(s, "[].mark", ""), ".mark", ""), "[.mark]", "")
  }

  /** The list text: the variable's value when present and non-empty. */
  function ListaRep(vars: Dict<string, string>): string {
    match Get(vars, ListaName)
    case Some(v) => if v != "" then v else ""
    case None => ""
  }

  /** What `_replace_variables(text, variables, conditionals)` returns. */
  function Rewritten(text: string, vars: Dict<string, string>, conds: Dict<string, string>): string {
    var t := InlineConditionals.RemoveTags(InlineConditionals.CondFold(text, conds));
    RemoveMarks(RemoveLeftovers(ScalarFold(SubLista(t, ListaRep(vars)), vars)))
  }

  /** `_replace_variables(text, variables, conditionals)`. */
  method ReplaceVariables(text: string, vars: Dict<string, string>, conds: Dict<string, string>)
    returns (r: string)
    ensures r == Rewritten(text, vars, conds)
  {
    var t := InlineConditionals.ProcessConditionals(text, conds);
    t := ReplaceListas(t, ListaRep(vars));
    t := ReplaceScalars(t, vars);
    t := RemoveLeftovers(t);
    t := ReplaceAll(t, "[].mark", "");
    t := ReplaceAll(t, ".mark", "");
    r := ReplaceAll(t, "[.mark]", "");
  }

  // ---------------------------------------------------------------------------
  // Properties
  // ---------------------------------------------------------------------------

  /** A list placeholder with a description is replaced by the list text. */
  lemma ListaFilled(desc: string, rep: string)
    requires |desc| > 0 && '}' !in desc
    ensures SubLista(ListaHead + desc + "}}", rep) == rep
  {
    var s := ListaHead + desc + "}}";
    var a := |ListaHead|;
    assert IsPrefixAt(s, 0, ListaHead);
    assert s[a..] == desc + "}}";
    SpanNotExact(s[a..], '}', |desc|);
    assert IsPrefixAt(s, a + |desc|, "}}");
    assert ListaMatcher(s)(0) == Some(|s|);
    assert SubFrom(s, ListaMatcher(s), rep, 0) == rep + SubFrom(s, ListaMatcher(s), rep, |s|);
  }

  /** The placeholder text each pattern is written for, with no spaces. */
  function Tight(kind: Kind, name: string): string {
    "{{" + name + Concat(Pieces(kind))
  }

  /** A run that a `\s*` can take whole. */
  predicate Blank(w: string) {
    forall k :: 0 <= k < |w| ==> IsSpace(w[k])
  }

  /** The literals after the name, each preceded by its own run of spaces. */
  function Spaced(ws: seq<string>, pieces: seq<string>): string
    requires |ws| == |pieces|
    decreases |pieces|
  {
    if pieces == [] then [] else ws[0] + pieces[0] + Spaced(ws[1..], pieces[1..])
  }

  /** The placeholder text each pattern is written for: `lead` is what the
      first `\s*` takes and `ws[k]` what the `\s*` before the `k`-th literal
      after the name takes, as in `{{ NAME | int - 1 }}`. */
  function Placeholder(kind: Kind, name: string, lead: string, ws: seq<string>): string
    requires |ws| == |Pieces(kind)|
  {
    "{{" + lead + name + Spaced(ws, Pieces(kind))
  }

  lemma {:induction false} ConcatLength(pieces: seq<string>)
    ensures |Concat(pieces)| == Total(pieces)
    decreases |pieces|
  {
    if pieces != [] {
      ConcatLength(pieces[1..]);
    }
  }

  /** Pieces written out back to back are matched exactly. */
  lemma TailExact(s: string, j: nat, pieces: seq<string>)
    requires j + Total(pieces) <= |s| && s[j..j + Total(pieces)] == Concat(pieces)
    requires forall k :: 0 <= k < |pieces| ==> |pieces[k]| > 0 && !IsSpace(pieces[k][0])
    ensures TailEnd(s, j, pieces) == Some(j + Total(pieces))
  {
    ConcatWritten(s, j, pieces);
    TailWritten(s, j, pieces);
  }

  /** Each piece starts where the one before it ends. */
  predicate WrittenAt(s: string, j: nat, pieces: seq<string>)
    decreases |pieces|
  {
    pieces != [] ==> IsPrefixAt(s, j, pieces[0]) && WrittenAt(s, j + |pieces[0]|, pieces[1..])
  }

  lemma {:induction false} ConcatWritten(s: string, j: nat, pieces: seq<string>)
    requires j + Total(pieces) <= |s| && s[j..j + Total(pieces)] == Concat(pieces)
    ensures WrittenAt(s, j, pieces)
    decreases |pieces|
  {
    if pieces != [] {
      ConcatSplit(s, j, pieces);
      ConcatWritten(s, j + |pieces[0]|, pieces[1..]);
    }
  }

  lemma {:induction false} TailWritten(s: string, j: nat, pieces: seq<string>)
    requires j <= |s| && WrittenAt(s, j, pieces)
    requires forall k :: 0 <= k < |pieces| ==> |pieces[k]| > 0 && !IsSpace(pieces[k][0])
    ensures TailEnd(s, j, pieces) == Some(j + Total(pieces))
    decreases |pieces|
  {
    if pieces != [] {
      ExactHead(s, j, pieces);
      TailWritten(s, j + |pieces[0]|, pieces[1..]);
    }
  }

  /** Pieces written back to back: the first, then the rest after it. */
  lemma ConcatSplit(s: string, j: nat, pieces: seq<string>)
    requires pieces != []
    requires j + Total(pieces) <= |s| && s[j..j + Total(pieces)] == Concat(pieces)
    ensures Total(pieces) == |pieces[0]| + Total(pieces[1..])
    ensures IsPrefixAt(s, j, pieces[0])
    ensures s[j + |pieces[0]|..j + |pieces[0]| + Total(pieces[1..])] == Concat(pieces[1..])
  {
    var p := pieces[0];
    ConcatLength(pieces[1..]);
    assert Concat(pieces) == p + Concat(pieces[1..]);
    assert s[j..j + |p|] == s[j..j + Total(pieces)][..|p|];
    assert s[j + |p|..j + Total(pieces)] == s[j..j + Total(pieces)][|p|..];
  }

  /** A piece written at `j` with no space before it is taken there. */
  lemma ExactHead(s: string, j: nat, pieces: seq<string>)
    requires pieces != [] && |pieces[0]| > 0 && !IsSpace(pieces[0][0])
    requires IsPrefixAt(s, j, pieces[0])
    ensures TailEnd(s, j, pieces) == TailEnd(s, j + |pieces[0]|, pieces[1..])
  {
    assert s[j] == s[j..j + |pieces[0]|][0];
    assert SpacesEnd(s, j) == j;
  }

  /** Only the first `\s*` taking no space at all can match a placeholder
      that fills the text exactly. */
  lemma {:induction false} NameFromExact(s: string, name: string, kind: Kind, k: nat)
    requires 2 + k <= |s| && |s| == 2 + |name| + Total(Pieces(kind))
    ensures NameFrom(s, 0, name, kind, k) == NameFrom(s, 0, name, kind, 0)
    decreases k
  {
    if k > 0 {
      NameFromShort(s, name, kind, k);
      NameFromExact(s, name, kind, k - 1);
    }
  }

  /** Skipping `k > 0` spaces leaves too little text for the rest. */
  lemma NameFromShort(s: string, name: string, kind: Kind, k: nat)
    requires 0 < k && 2 + k <= |s| && |s| == 2 + |name| + Total(Pieces(kind))
    ensures NameFrom(s, 0, name, kind, k) == NameFrom(s, 0, name, kind, k - 1)
  {
    var p := 2 + k;
    if IsPrefixAt(s, p, name) {
      var t := TailEnd(s, p + |name|, Pieces(kind));
      assert t.None?;
    }
  }

  /** The unspaced placeholder is one match of its own pattern, whatever
      the name. */
  lemma TightMatch(kind: Kind, name: string)
    ensures ScalarAt(Tight(kind, name), name, kind) == Some(|Tight(kind, name)|)
  {
    var s := Tight(kind, name);
    PlaceholderParts(kind, name);
    PiecesStartNonSpace(kind);
    NameFromExact(s, name, kind, LeadingSpaces(s[2..]));
    TailExact(s, 2 + |name|, Pieces(kind));
  }

  /** Where the parts of a placeholder sit in its text. */
  lemma PlaceholderParts(kind: Kind, name: string)
    ensures var s := Tight(kind, name);
      && |s| == 2 + |name| + Total(Pieces(kind))
      && StartsWith(s, "{{") && IsPrefixAt(s, 2, name)
      && s[2 + |name|..2 + |name| + Total(Pieces(kind))] == Concat(Pieces(kind))
  {
    var s := Tight(kind, name);
    ConcatLength(Pieces(kind));
    assert s[..2] == "{{";
    assert s[2..2 + |name|] == name;
  }

  /** Every piece after the name starts with a non-space. */
  lemma PiecesStartNonSpace(kind: Kind)
    ensures forall k :: 0 <= k < |Pieces(kind)| ==> |Pieces(kind)[k]| > 0 && !IsSpace(Pieces(kind)[k][0])
  {
  }

  /** A placeholder that fills the text is one match of its own pattern,
      for every spacing the `\s*` gaps admit. The name must not start with a
      space unless the placeholder has none: the first `\s*` would otherwise
      take the name's own spaces, and the match depends on the name. */
  lemma PlaceholderMatch(kind: Kind, name: string, lead: string, ws: seq<string>)
    requires |ws| == |Pieces(kind)| && Blank(lead) && forall k :: 0 <= k < |ws| ==> Blank(ws[k])
    requires name == [] || !IsSpace(name[0]) || (lead == [] && forall k :: 0 <= k < |ws| ==> ws[k] == [])
    ensures ScalarAt(Placeholder(kind, name, lead, ws), name, kind) == Some(|Placeholder(kind, name, lead, ws)|)
  {
    var s := Placeholder(kind, name, lead, ws);
    if name != [] && !IsSpace(name[0]) {
      SpacedMatch(kind, name, lead, ws);
    } else if name == [] {
      EmptyNameMatch(kind, lead, ws);
    } else {
      UnspacedIsTight(Pieces(kind), ws);
      assert s == Tight(kind, name);
      TightMatch(kind, name);
    }
  }

  /** With no spaces at all the placeholder is the unspaced one. */
  lemma {:induction false} UnspacedIsTight(pieces: seq<string>, ws: seq<string>)
    requires |ws| == |pieces| && forall k :: 0 <= k < |ws| ==> ws[k] == []
    ensures Spaced(ws, pieces) == Concat(pieces)
    decreases |pieces|
  {
    if pieces != [] {
      UnspacedIsTight(pieces[1..], ws[1..]);
    }
  }

  lemma SpacedMatch(kind: Kind, name: string, lead: string, ws: seq<string>)
    requires |ws| == |Pieces(kind)| && Blank(lead) && forall k :: 0 <= k < |ws| ==> Blank(ws[k])
    requires name != [] && !IsSpace(name[0])
    ensures ScalarAt(Placeholder(kind, name, lead, ws), name, kind) == Some(|Placeholder(kind, name, lead, ws)|)
  {
    var x := "{{" + lead + name;
    var s := x + Spaced(ws, Pieces(kind));
    OpenedRun(lead, name, Spaced(ws, Pieces(kind)));
    PiecesStartNonSpace(kind);
    SpacedAtConcat(x, ws, Pieces(kind));
    assert |x| == 2 + |lead| + |name|;
    SpacedScalar(s, name, kind, |lead|, ws);
  }

  lemma EmptyNameMatch(kind: Kind, lead: string, ws: seq<string>)
    requires |ws| == |Pieces(kind)| && Blank(lead) && forall k :: 0 <= k < |ws| ==> Blank(ws[k])
    ensures ScalarAt(Placeholder(kind, [], lead, ws), [], kind) == Some(|Placeholder(kind, [], lead, ws)|)
  {
    var pieces := Pieces(kind);
    var ws' := [[]] + ws[1..];
    var run := lead + ws[0];
    var x := "{{" + run;
    var s := x + Spaced(ws', pieces);
    PiecesStartNonSpace(kind);
    FirstRunsJoined(kind, lead, ws);
    OpenedRun(run, pieces[0], Spaced(ws[1..], pieces[1..]));
    SpacedAtConcat(x, ws', pieces);
    assert IsPrefixAt(s, 2 + |run|, []);
    SpacedScalar(s, [], kind, |run|, ws');
  }

  /** With no name, the first `\s*` takes both the run before the name and
      the run before the first literal. */
  lemma FirstRunsJoined(kind: Kind, lead: string, ws: seq<string>)
    requires |ws| == |Pieces(kind)| && Blank(lead) && forall k :: 0 <= k < |ws| ==> Blank(ws[k])
    ensures var pieces, ws' := Pieces(kind), [[]] + ws[1..];
      && Blank(lead + ws[0]) && (forall k :: 0 <= k < |ws'| ==> Blank(ws'[k]))
      && Placeholder(kind, [], lead, ws) == "{{" + (lead + ws[0]) + Spaced(ws', pieces)
      && Placeholder(kind, [], lead, ws) == "{{" + (lead + ws[0]) + pieces[0] + Spaced(ws[1..], pieces[1..])
  {
    BlankJoined(lead, ws[0]);
    FirstRunEmptied(ws);
    RunsRegrouped(lead, ws, Pieces(kind));
  }

  lemma BlankJoined(a: string, b: string)
    requires Blank(a) && Blank(b)
    ensures Blank(a + b)
  {
    forall k | 0 <= k < |a + b| ensures IsSpace((a + b)[k]) {
      if k < |a| { assert (a + b)[k] == a[k]; } else { assert (a + b)[k] == b[k - |a|]; }
    }
  }

  lemma FirstRunEmptied(ws: seq<string>)
    requires |ws| > 0 && forall k :: 0 <= k < |ws| ==> Blank(ws[k])
    ensures var ws' := [[]] + ws[1..]; forall k :: 0 <= k < |ws'| ==> Blank(ws'[k])
  {
    var ws' := [[]] + ws[1..];
    forall k | 0 <= k < |ws'| ensures Blank(ws'[k]) {
      if k > 0 {
        assert ws'[k] == ws[k];
      }
    }
  }

  lemma RunsRegrouped(lead: string, ws: seq<string>, pieces: seq<string>)
    requires |ws| == |pieces| > 0
    ensures var ws' := [[]] + ws[1..];
      && "{{" + lead + [] + Spaced(ws, pieces) == "{{" + (lead + ws[0]) + Spaced(ws', pieces)
      && "{{" + lead + [] + Spaced(ws, pieces) == "{{" + (lead + ws[0]) + pieces[0] + Spaced(ws[1..], pieces[1..])
  {
    var ws' := [[]] + ws[1..];
    var r := Spaced(ws[1..], pieces[1..]);
    assert Spaced(ws', pieces) == pieces[0] + r by {
      assert ws'[0] == [] && ws'[1..] == ws[1..];
    }
    Regrouped("{{", lead, ws[0], pieces[0], r);
  }

  lemma Regrouped(o: string, a: string, w: string, p: string, r: string)
    ensures o + a + [] + (w + p + r) == o + (a + w) + (p + r)
    ensures o + a + [] + (w + p + r) == o + (a + w) + p + r
  {
    assert a + [] == a;
  }

  /** The first `\s*` of a placeholder takes the run `lead` when what
      follows it starts with a non-space. */
  lemma OpenedRun(lead: string, name: string, rest: string)
    requires Blank(lead) && name != [] && !IsSpace(name[0])
    ensures var s := "{{" + lead + name + rest;
      && StartsWith(s, "{{") && LeadingSpaces(s[2..]) == |lead| && IsPrefixAt(s, 2 + |lead|, name)
  {
    var s := "{{" + lead + name + rest;
    assert s[..2] == "{{";
    var t := s[2..];
    assert t == lead + name + rest;
    assert forall k :: 0 <= k < |lead| ==> t[k] == lead[k];
    assert t[|lead|] == name[0];
    LeadingSpacesExact(t, |lead|);
    assert s[2 + |lead|..2 + |lead| + |name|] == name;
  }

  /** From `j` on, each greedy `\s*` of the tail stops after its run in `ws`
      and the literal follows. */
  predicate SpacedAt(s: string, j: nat, ws: seq<string>, pieces: seq<string>)
    requires |ws| == |pieces|
    decreases |pieces|
  {
    pieces != [] ==>
      && j <= |s| && SpacesEnd(s, j) == j + |ws[0]|
      && IsPrefixAt(s, j + |ws[0]|, pieces[0])
      && SpacedAt(s, j + |ws[0]| + |pieces[0]|, ws[1..], pieces[1..])
  }

  /** A placeholder whose first `\s*` takes `n` spaces, followed by the
      name and by runs of spaces and the literals, is one match. */
  lemma SpacedScalar(s: string, name: string, kind: Kind, n: nat, ws: seq<string>)
    requires |ws| == |Pieces(kind)| && StartsWith(s, "{{") && LeadingSpaces(s[2..]) == n && IsPrefixAt(s, 2 + n, name)
    requires SpacedAt(s, 2 + n + |name|, ws, Pieces(kind)) && 2 + n + |name| + |Spaced(ws, Pieces(kind))| == |s|
    ensures ScalarAt(s, name, kind) == Some(|s|)
  {
    TailSpaced(s, 2 + n + |name|, ws, Pieces(kind));
  }

  /** Literals each preceded by a run of spaces are matched exactly. */
  lemma {:induction false} TailSpaced(s: string, j: nat, ws: seq<string>, pieces: seq<string>)
    requires |ws| == |pieces| && j <= |s| && SpacedAt(s, j, ws, pieces)
    ensures TailEnd(s, j, pieces) == Some(j + |Spaced(ws, pieces)|)
    decreases |pieces|
  {
    if pieces != [] {
      TailHead(s, j, ws, pieces);
      TailSpaced(s, j + |ws[0]| + |pieces[0]|, ws[1..], pieces[1..]);
    }
  }

  /** The first run and literal of the tail, as `TailEnd` takes them. */
  lemma TailHead(s: string, j: nat, ws: seq<string>, pieces: seq<string>)
    requires |ws| == |pieces| > 0 && j <= |s| && SpacedAt(s, j, ws, pieces)
    ensures j + |ws[0]| + |pieces[0]| <= |s| && SpacedAt(s, j + |ws[0]| + |pieces[0]|, ws[1..], pieces[1..])
    ensures TailEnd(s, j, pieces) == TailEnd(s, j + |ws[0]| + |pieces[0]|, pieces[1..])
    ensures |Spaced(ws, pieces)| == |ws[0]| + |pieces[0]| + |Spaced(ws[1..], pieces[1..])|
  {
  }

  /** A placeholder's runs and literals, written after `x`, lie in place. */
  lemma {:induction false} SpacedAtConcat(x: string, ws: seq<string>, pieces: seq<string>)
    requires |ws| == |pieces| && forall k :: 0 <= k < |ws| ==> Blank(ws[k])
    requires forall k :: 0 <= k < |pieces| ==> |pieces[k]| > 0 && !IsSpace(pieces[k][0])
    ensures SpacedAt(x + Spaced(ws, pieces), |x|, ws, pieces)
    decreases |pieces|
  {
    if pieces != [] {
      TailsKeep(ws, pieces);
      SpacedHead(x, ws, pieces);
      SpacedAtConcat(x + ws[0] + pieces[0], ws[1..], pieces[1..]);
    }
  }

  lemma TailsKeep(ws: seq<string>, pieces: seq<string>)
    requires |ws| == |pieces| > 0 && forall k :: 0 <= k < |ws| ==> Blank(ws[k])
    requires forall k :: 0 <= k < |pieces| ==> |pieces[k]| > 0 && !IsSpace(pieces[k][0])
    ensures Blank(ws[0]) && |pieces[0]| > 0 && !IsSpace(pieces[0][0])
    ensures forall k :: 0 <= k < |ws| - 1 ==> Blank(ws[1..][k])
    ensures forall k :: 0 <= k < |pieces| - 1 ==> |pieces[1..][k]| > 0 && !IsSpace(pieces[1..][k][0])
  {
    assert forall k :: 0 <= k < |ws| - 1 ==> ws[1..][k] == ws[k + 1];
    assert forall k :: 0 <= k < |pieces| - 1 ==> pieces[1..][k] == pieces[k + 1];
  }

  /** The first run and literal of the tail written after `x`. */
  lemma SpacedHead(x: string, ws: seq<string>, pieces: seq<string>)
    requires |ws| == |pieces| > 0 && Blank(ws[0]) && |pieces[0]| > 0 && !IsSpace(pieces[0][0])
    ensures x + Spaced(ws, pieces) == x + ws[0] + pieces[0] + Spaced(ws[1..], pieces[1..])
    ensures SpacesEnd(x + Spaced(ws, pieces), |x|) == |x| + |ws[0]|
    ensures IsPrefixAt(x + Spaced(ws, pieces), |x| + |ws[0]|, pieces[0])
  {
    SpacedUnfold(x, ws, pieces);
    RunThenLiteral(x, ws[0], pieces[0], Spaced(ws[1..], pieces[1..]));
  }

  lemma SpacedUnfold(x: string, ws: seq<string>, pieces: seq<string>)
    requires |ws| == |pieces| > 0
    ensures x + Spaced(ws, pieces) == x + ws[0] + pieces[0] + Spaced(ws[1..], pieces[1..])
  {
  }

  /** A run of spaces `w` written after `x` is what the greedy `\s*` takes
      there, when a literal starting with a non-space follows. */
  lemma RunThenLiteral(x: string, w: string, p: string, rest: string)
    requires Blank(w) && |p| > 0 && !IsSpace(p[0])
    ensures var s := x + w + p + rest;
      && SpacesEnd(s, |x|) == |x| + |w| && IsPrefixAt(s, |x| + |w|, p)
  {
    var s := x + w + p + rest;
    assert forall k :: |x| <= k < |x| + |w| ==> s[k] == w[k - |x|];
    assert s[|x| + |w|] == p[0];
    SpacesEndExact(s, |x|, |w|);
    assert s[|x| + |w|..|x| + |w| + |p|] == p;
  }

  /** A run of `n` spaces from `j` followed by a non-space is what the greedy
      `\s*` takes. */
  lemma {:induction false} SpacesEndExact(s: string, j: nat, n: nat)
    requires j + n < |s| && !IsSpace(s[j + n]) && forall k :: j <= k < j + n ==> IsSpace(s[k])
    ensures SpacesEnd(s, j) == j + n
    decreases n
  {
    if n > 0 {
      SpacesEndExact(s, j + 1, n - 1);
    }
  }

  /** A placeholder is replaced by the variable's value, for every spacing;
      in particular `{{ name | int - 1 }}` receives the value itself. */
  lemma PlaceholderFilled(kind: Kind, name: string, value: string, lead: string, ws: seq<string>)
    requires |ws| == |Pieces(kind)| && Blank(lead) && forall k :: 0 <= k < |ws| ==> Blank(ws[k])
    requires name == [] || !IsSpace(name[0]) || (lead == [] && forall k :: 0 <= k < |ws| ==> ws[k] == [])
    ensures SubScalar(Placeholder(kind, name, lead, ws), name, kind, Replacement(kind, name, value)) == value
  {
    ReplacementIsValue(kind, name, value);
    var s := Placeholder(kind, name, lead, ws);
    PlaceholderMatch(kind, name, lead, ws);
    assert s[|s|..] == [];
  }

  /** A leftover placeholder is removed. */
  lemma LeftoverRemoved(x: string)
    requires '}' !in x
    ensures RemoveLeftovers("{{" + x + "}}") == ""
  {
    var s := "{{" + x + "}}";
    BracedWhole(x);
    assert s[0] != '[';
    assert LeftoverAt(s) == Some(|s|);
    assert s[|s|..] == [];
  }

  /** The bracketed form `[{{x}}]` is removed as a whole, brackets included. */
  lemma BracketedLeftoverRemoved(x: string)
    requires '}' !in x
    ensures RemoveLeftovers("[" + "{{" + x + "}}" + "]") == ""
  {
    var s := "[" + "{{" + x + "}}" + "]";
    assert s[1..3] == "{{";
    assert s[3..][|x|] == '}';
    SpanNotExact(s[3..], '}', |x|);
    assert s[3 + |x|..3 + |x| + 2] == "}}";
    assert BracedEnd(s, 1) == Some(|x| + 5);
    assert s[|x| + 5] == ']';
    assert LeftoverAt(s) == Some(|s|);
    assert s[|s|..] == [];
  }

  /** `{{x}}` with no `}` inside is one braced match. */
  lemma BracedWhole(x: string)
    requires '}' !in x
    ensures BracedEnd("{{" + x + "}}", 0) == Some(|x| + 4)
  {
    var s := "{{" + x + "}}";
    assert s[..2] == "{{";
    assert s[2..] == x + "}}";
    SpanNotExact(s[2..], '}', |x|);
    assert s[2 + |x|..2 + |x| + 2] == "}}";
  }

  lemma {:induction false} SubScalarNoBrace(s: string, name: string, kind: Kind, rep: string)
    requires '{' !in s
    ensures SubScalar(s, name, kind, rep) == s
    decreases |s|
  {
    if s != [] {
      SubScalarPlainHead(s, name, kind, rep);
      NoBraceTail(s);
      SubScalarNoBrace(s[1..], name, kind, rep);
      assert s == [s[0]] + s[1..];
    }
  }

  /** A text whose first character is not `{` keeps that character. */
  lemma SubScalarPlainHead(s: string, name: string, kind: Kind, rep: string)
    requires s != [] && s[0] != '{'
    ensures SubScalar(s, name, kind, rep) == [s[0]] + SubScalar(s[1..], name, kind, rep)
  {
    assert !StartsWith(s, "{{");
    assert ScalarAt(s, name, kind).None?;
  }

  lemma NoBraceTail(s: string)
    requires s != [] && '{' !in s
    ensures s[0] != '{' && '{' !in s[1..]
  {
    assert forall k :: 0 <= k < |s| - 1 ==> s[1..][k] == s[k + 1];
  }

  lemma {:induction false} ScalarFoldNoBrace(s: string, vars: Dict<string, string>)
    requires '{' !in s
    ensures ScalarFold(s, vars) == s
    decreases |vars|
  {
    if vars != [] {
      var (name, value) := vars[0];
      forall ks: seq<Kind> ensures SubKinds(s, name, value, ks) == s {
        SubKindsNoBrace(s, name, value, ks);
      }
      ScalarFoldNoBrace(s, vars[1..]);
    }
  }

  lemma {:induction false} SubKindsNoBrace(s: string, name: string, value: string, ks: seq<Kind>)
    requires '{' !in s
    ensures SubKinds(s, name, value, ks) == s
    decreases |ks|
  {
    if ks != [] {
      SubScalarNoBrace(s, name, ks[0], Replacement(ks[0], name, value));
      SubKindsNoBrace(s, name, value, ks[1..]);
    }
  }

  lemma {:induction false} RemoveLeftoversNoBrace(s: string)
    requires '{' !in s
    ensures RemoveLeftovers(s) == s
    decreases |s|
  {
    if s != [] {
      assert LeftoverAt(s).None? by {
        assert !IsPrefixAt(s, 0, "{{") by { assert s[0] != '{'; }
        assert !IsPrefixAt(s, 1, "{{") by { assert |s| > 1 ==> s[1] != '{'; }
      }
      assert RemoveLeftovers(s) == [s[0]] + RemoveLeftovers(s[1..]);
      assert '{' !in s[1..] by { assert forall k :: 0 <= k < |s| - 1 ==> s[1..][k] == s[k + 1]; }
      RemoveLeftoversNoBrace(s[1..]);
      assert s == [s[0]] + s[1..];
    }
  }

  lemma SubListaNoBrace(s: string, rep: string)
    requires '{' !in s
    ensures SubLista(s, rep) == s
  {
    var at := ListaMatcher(s);
    forall j: nat | 0 <= j < |s| ensures at(j).None? {
      AbsentCharNoOccurrence(s, ListaHead, '{', j, 0);
    }
    NoMatchUnchanged(s, at, rep);
  }

  lemma RemoveMarksAbsent(s: string)
    requires !Contains(s, ".mark")
    ensures RemoveMarks(s) == s
  {
    assert "[].mark"[2..7] == ".mark";
    PieceAbsent(s, "[].mark", 2, 7);
    ReplaceAllAbsent(s, "[].mark", "");
    ReplaceAllAbsent(s, ".mark", "");
    assert "[.mark]"[1..6] == ".mark";
    PieceAbsent(s, "[.mark]", 1, 6);
    ReplaceAllAbsent(s, "[.mark]", "");
  }

  /** A text with no `{` and no `.mark` comes out as it went in. */
  lemma PlainTextUnchanged(text: string, vars: Dict<string, string>, conds: Dict<string, string>)
    requires '{' !in text && !Contains(text, ".mark")
    ensures Rewritten(text, vars, conds) == text
  {
    InlineConditionals.NoBraceUnchanged(text, conds);
    SubListaNoBrace(text, ListaRep(vars));
    ScalarFoldNoBrace(text, vars);
    RemoveLeftoversNoBrace(text);
    RemoveMarksAbsent(text);
  }
}
