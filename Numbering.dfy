/** `_fix_numbering`: the body paragraphs that look like numbered points
    (`7. text`) are renumbered 1, 2, 3, ... in document order, and those that
    look like lettered sub-points (`c. text`) are relettered a, b, c, ...,
    the letters starting again after each numbered point. */
module Numbering {
  import opened Wrappers
  import opened Strings
  import opened DocumentModel

  // ---------------------------------------------------------------------------
  // The two patterns
  // ---------------------------------------------------------------------------

  /** `(.+)` at `j`: the characters up to the first newline, when there is at
      least one. */
  function LineAt(s: string, j: nat): (r: Option<string>)
    ensures r.Some? ==> |r.value| > 0 && '\n' !in r.value
  {
    if j < |s| && s[j] != '\n' then
      var n := SpanNot(s[j..], '\n');
      assert forall k :: 0 <= k < n ==> s[j..j + n][k] == s[j..][k];
      Some(s[j..j + n])
    else None
  }

  /** `\s+(.+)` at `i` when the spaces run for `k` characters: the greedy
      repetition gives back one space at a time until the group can match. */
  function SpacedLine(s: string, i: nat, k: nat): (r: Option<string>)
    ensures r.Some? ==> |r.value| > 0 && '\n' !in r.value
    decreases k
  {
    if k == 0 then None
    else match LineAt(s, i + k)
      case Some(g) => Some(g)
      case None => SpacedLine(s, i, k - 1)
  }

  /** `\s+(.+)` at `i`: the group, if the pattern matches there. */
  function GroupAfterSpaces(s: string, i: nat): (r: Option<string>)
    requires i <= |s|
    ensures r.Some? ==> |r.value| > 0 && '\n' !in r.value
  {
    SpacedLine(s, i, LeadingSpaces(s[i..]))
  }

  /** `re.match(r'^(\d+)\.\s+(.+)', s).group(2)`. The digits cannot give any
      back, since a `.` would then have to match a digit. */
  function MainRest(s: string): (r: Option<string>)
    ensures r.Some? ==> |r.value| > 0 && '\n' !in r.value
  {
    var d := SpanDigits(s);
    if d > 0 && IsPrefixAt(s, d, ".") then GroupAfterSpaces(s, d + 1) else None
  }

  /** `re.match(r'^[a-z]\.\s+(.+)', s).group(1)`. */
  function SubRest(s: string): (r: Option<string>)
    ensures r.Some? ==> |r.value| > 0 && '\n' !in r.value
  {
    if |s| >= 2 && IsLowerAscii(s[0]) && s[1] == '.' then GroupAfterSpaces(s, 2) else None
  }

  /** A text is never both a numbered point and a sub-point: one starts with a
      digit, the other with a letter. */
  lemma MainNotSub(s: string)
    ensures MainRest(s).Some? ==> SubRest(s).None?
  {
    if MainRest(s).Some? {
      assert IsDigit(s[0]);
    }
  }

  /** `chr(ord('a') + n - 1)`. */
  function Letter(n: nat): (c: char)
    ensures 1 <= n <= 26 ==> IsLowerAscii(c)
  {
    var code := 'a' as int + n - 1;
    if code < 0xD800 then code as char else '\U{FFFD}'
  }

  // ---------------------------------------------------------------------------
  // The counter state machine
  // ---------------------------------------------------------------------------

  /** `current_number`, `sub_number` and `in_sub_list`. */
  datatype Counter = Counter(current: nat, sub: nat, inSub: bool)

  const Start: Counter := Counter(1, 1, false)

  /** One paragraph: the main pattern and the sub pattern are both tried on
      the stripped original text; a numbered point gets the current number
      and ends any sub-list, a sub-point opens a sub-list at `a` or continues
      the open one. */
  function RenumberParagraph(p: Paragraph, c: Counter): (Paragraph, Counter) {
    var text := Strip(Text(p));
    var (p1, c1) :=
      match MainRest(text)
      case Some(rest) => (WithText(p, NatToString(c.current) + ". " + rest), c.(current := c.current + 1, inSub := false))
      case None => (p, c);
    match SubRest(text)
    case Some(rest) =>
      var n := if c1.inSub then c1.sub else 1;
      (WithText(p1, [Letter(n)] + ". " + rest), c1.(sub := n + 1, inSub := true))
    case None => (p1, c1)
  }

  /** One top-level block; only paragraphs take part. */
  function Step(b: Block, c: Counter): (Block, Counter) {
    match b
    case Para(p) => var (q, c1) := RenumberParagraph(p, c); (Para(q), c1)
    case _ => (b, c)
  }

  /** The renumbered body, the counter threaded through it. */
  function Renumber(body: seq<Block>, c: Counter): (r: seq<Block>)
    ensures |r| == |body|
  {
    if body == [] then [] else [Step(body[0], c).0] + Renumber(body[1..], Step(body[0], c).1)
  }

  /** The counter after the blocks. */
  function CounterAfter(body: seq<Block>, c: Counter): Counter {
    if body == [] then c else CounterAfter(body[1..], Step(body[0], c).1)
  }

  /** `_fix_numbering(doc)`. */
  method FixNumbering(doc: Document)
    modifies doc
    ensures doc.body == Renumber(old(doc.body), Start)
  {
    ghost var body := doc.body;
    var c := Start;
    var i := 0;
    while i < |doc.body|
      invariant 0 <= i <= |doc.body| == |body|
      invariant doc.body[i..] == body[i..]
      invariant Renumber(body, Start) == doc.body[..i] + Renumber(body[i..], c)
    {
      assert body[i..][1..] == body[i + 1..];
      var s := Step(doc.body[i], c);
      assert Renumber(body[i..], c) == [s.0] + Renumber(body[i + 1..], s.1);
      doc.body := doc.body[i := s.0];
      c := s.1;
      assert doc.body[..i + 1] == doc.body[..i] + [s.0];
      i := i + 1;
    }
    assert doc.body[..i] == doc.body;
  }

  // ---------------------------------------------------------------------------
  // Properties
  // ---------------------------------------------------------------------------

  predicate IsMain(b: Block) {
    b.Para? && MainRest(Strip(Text(b.paragraph))).Some?
  }

  predicate IsSub(b: Block) {
    b.Para? && SubRest(Strip(Text(b.paragraph))).Some?
  }

  /** The number of numbered points among the blocks. */
  function Mains(bs: seq<Block>): nat {
    if bs == [] then 0 else Mains(bs[..|bs| - 1]) + (if IsMain(bs[|bs| - 1]) then 1 else 0)
  }

  /** The number of sub-points after the last numbered point (or from the
      start when there is none). */
  function SubsTail(bs: seq<Block>): nat {
    if bs == [] then 0
    else if IsMain(bs[|bs| - 1]) then 0
    else SubsTail(bs[..|bs| - 1]) + (if IsSub(bs[|bs| - 1]) then 1 else 0)
  }

  /** What the counter says about the blocks already seen. */
  predicate Counts(c: Counter, bs: seq<Block>) {
    && c.current == 1 + Mains(bs)
    && c.inSub == (SubsTail(bs) > 0)
    && (c.inSub ==> c.sub == SubsTail(bs) + 1)
  }

  lemma {:induction false} RenumberAt(body: seq<Block>, c: Counter, i: nat)
    requires i < |body|
    ensures Renumber(body, c)[i] == Step(body[i], CounterAfter(body[..i], c)).0
    decreases i
  {
    if i > 0 {
      var c1 := Step(body[0], c).1;
      RenumberAt(body[1..], c1, i - 1);
      assert body[..i][1..] == body[1..][..i - 1];
    }
  }

  lemma {:induction false} CounterAfterAppend(bs: seq<Block>, b: Block, c: Counter)
    ensures CounterAfter(bs + [b], c) == Step(b, CounterAfter(bs, c)).1
    decreases |bs|
  {
    if bs != [] {
      assert (bs + [b])[1..] == bs[1..] + [b];
      CounterAfterAppend(bs[1..], b, Step(bs[0], c).1);
    } else {
      assert [b][1..] == [];
    }
  }

  lemma StepCounts(c: Counter, bs: seq<Block>, b: Block)
    requires Counts(c, bs)
    ensures Counts(Step(b, c).1, bs + [b])
  {
    MainsSnoc(bs, b);
    SubsTailSnoc(bs, b);
    StepCounter(b, c);
    var c1 := Step(b, c).1;
    if IsMain(b) {
      assert c1 == c.(current := c.current + 1, inSub := false);
    } else if IsSub(b) {
      assert c1 == c.(sub := (if c.inSub then c.sub else 1) + 1, inSub := true);
    } else {
      assert c1 == c;
    }
  }

  lemma MainsSnoc(bs: seq<Block>, b: Block)
    ensures Mains(bs + [b]) == Mains(bs) + (if IsMain(b) then 1 else 0)
  {
    var e := bs + [b];
    assert e[..|e| - 1] == bs && e[|e| - 1] == b;
  }

  lemma SubsTailSnoc(bs: seq<Block>, b: Block)
    ensures SubsTail(bs + [b]) == if IsMain(b) then 0 else SubsTail(bs) + (if IsSub(b) then 1 else 0)
  {
    var e := bs + [b];
    assert e[..|e| - 1] == bs && e[|e| - 1] == b;
  }

  /** What one block does to the counter. */
  lemma StepCounter(b: Block, c: Counter)
    ensures IsMain(b) ==> Step(b, c).1 == c.(current := c.current + 1, inSub := false)
    ensures IsSub(b) ==> !IsMain(b)
    ensures IsSub(b) ==> Step(b, c).1 == c.(sub := (if c.inSub then c.sub else 1) + 1, inSub := true)
    ensures !IsMain(b) && !IsSub(b) ==> Step(b, c).1 == c
  {
    if b.Para? {
      MainNotSub(Strip(Text(b.paragraph)));
    }
  }

  lemma {:induction false} CounterCounts(bs: seq<Block>)
    ensures Counts(CounterAfter(bs, Start), bs)
    decreases |bs|
  {
    if bs != [] {
      var init := bs[..|bs| - 1];
      CounterCounts(init);
      CounterAfterAppend(init, bs[|bs| - 1], Start);
      StepCounts(CounterAfter(init, Start), init, bs[|bs| - 1]);
      assert init + [bs[|bs| - 1]] == bs;
    }
  }

  /** The counter on reaching block `i` accounts for the blocks before it. */
  lemma CounterAt(body: seq<Block>, i: nat)
    requires i < |body|
    ensures Renumber(body, Start)[i] == Step(body[i], CounterAfter(body[..i], Start)).0
    ensures Counts(CounterAfter(body[..i], Start), body[..i])
  {
    RenumberAt(body, Start, i);
    CounterCounts(body[..i]);
  }

  /** A numbered point becomes `k. rest`, where `k` is one more than the
      number of numbered points before it and `rest` is its stripped text
      after the number and the spaces, up to the first newline. */
  lemma NumberedPoint(body: seq<Block>, i: nat)
    requires i < |body| && IsMain(body[i])
    ensures Renumber(body, Start)[i] == Para(WithText(body[i].paragraph,
      NatToString(Mains(body[..i]) + 1) + ". " + MainRest(Strip(Text(body[i].paragraph))).value))
  {
    var c := CounterAfter(body[..i], Start);
    RenumberAt(body, Start, i);
    assert c.current == Mains(body[..i]) + 1 by {
      CounterCounts(body[..i]);
    }
    StepMain(body[i], c);
  }

  lemma StepMain(b: Block, c: Counter)
    requires IsMain(b)
    ensures Step(b, c).0 == Para(WithText(b.paragraph,
      NatToString(c.current) + ". " + MainRest(Strip(Text(b.paragraph))).value))
  {
    ParagraphCases(b.paragraph, c);
  }

  /** A sub-point gets the letter that counts the sub-points since the last
      numbered point (or since the start), itself included. */
  lemma LetteredPoint(body: seq<Block>, i: nat)
    requires i < |body| && IsSub(body[i])
    ensures Renumber(body, Start)[i] == Para(WithText(body[i].paragraph,
      [Letter(SubsTail(body[..i]) + 1)] + ". " + SubRest(Strip(Text(body[i].paragraph))).value))
  {
    CounterAt(body, i);
    var c := CounterAfter(body[..i], Start);
    var p := body[i].paragraph;
    var t := Strip(Text(p));
    ParagraphCases(p, c);
    MainNotSub(t);
    assert Step(body[i], c).0 == Para(RenumberParagraph(p, c).0);
    assert (if c.inSub then c.sub else 1) == SubsTail(body[..i]) + 1;
  }

  /** Every other block, tables and unmatched paragraphs alike, is left as it
      was. */
  lemma NotAPoint(body: seq<Block>, i: nat)
    requires i < |body| && !IsMain(body[i]) && !IsSub(body[i])
    ensures Renumber(body, Start)[i] == body[i]
  {
    RenumberAt(body, Start, i);
    if body[i].Para? {
      ParagraphCases(body[i].paragraph, CounterAfter(body[..i], Start));
    }
  }

  /** The three outcomes for one paragraph. */
  lemma ParagraphCases(p: Paragraph, c: Counter)
    ensures var t := Strip(Text(p)); MainRest(t).Some? ==>
      RenumberParagraph(p, c).0 == WithText(p, NatToString(c.current) + ". " + MainRest(t).value)
    ensures var t := Strip(Text(p)); SubRest(t).Some? ==>
      RenumberParagraph(p, c).0 == WithText(p, [Letter(if c.inSub then c.sub else 1)] + ". " + SubRest(t).value)
    ensures var t := Strip(Text(p)); MainRest(t).None? && SubRest(t).None? ==> RenumberParagraph(p, c).0 == p
  {
    var t := Strip(Text(p));
    MainNotSub(t);
    if SubRest(t).Some? {
      var w := WithText(p, [Letter(if c.inSub then c.sub else 1)] + ". " + SubRest(t).value);
      assert RenumberParagraph(p, c).0 == w;
    }
  }

  /** What the renumbering writes is recognised again, with the same rest:
      running it twice numbers the same points. */
  lemma MainRoundTrip(n: nat, rest: string)
    requires |rest| > 0 && !IsSpace(rest[0]) && '\n' !in rest
    ensures MainRest(NatToString(n) + ". " + rest) == Some(rest)
  {
    var d := NatToString(n);
    var s := d + ". " + rest;
    assert SpanDigits(s) == |d| by {
      assert s[|d|] == '.';
      SpanDigitsExact(s, |d|);
    }
    assert IsPrefixAt(s, |d|, ".") by { assert s[|d|..|d| + 1] == "."; }
    assert s[|d| + 1..] == " " + rest;
    assert LeadingSpaces(s[|d| + 1..]) == 1 by {
      LeadingSpacesExact(s[|d| + 1..], 1);
    }
    RestLine(s, |d| + 2, rest);
  }

  /** The same for a sub-point. */
  lemma SubRoundTrip(c: char, rest: string)
    requires IsLowerAscii(c) && |rest| > 0 && !IsSpace(rest[0]) && '\n' !in rest
    ensures SubRest([c] + ". " + rest) == Some(rest)
  {
    var s := [c] + ". " + rest;
    assert s[2..] == " " + rest;
    assert LeadingSpaces(s[2..]) == 1 by {
      LeadingSpacesExact(s[2..], 1);
    }
    RestLine(s, 3, rest);
  }

  lemma RestLine(s: string, j: nat, rest: string)
    requires j <= |s| && s[j..] == rest && |rest| > 0 && '\n' !in rest
    ensures LineAt(s, j) == Some(rest)
  {
    assert s[j] == rest[0];
    assert SpanNot(s[j..], '\n') == |rest|;
    assert s[j..j + |rest|] == rest;
  }

  lemma {:induction false} SpanDigitsExact(s: string, n: nat)
    requires n < |s| && !IsDigit(s[n])
    requires forall k :: 0 <= k < n ==> IsDigit(s[k])
    ensures SpanDigits(s) == n
    decreases n
  {
    if n > 0 {
      SpanDigitsExact(s[1..], n - 1);
    }
  }
}
