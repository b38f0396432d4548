/** `CartaManifestacionGenerator.process_template` and `_remove_underlines`:
    a fresh copy of the template goes through the block eliminator, the text
    rewriter (body paragraphs with their formatting saved and restored, table
    cell paragraphs without), the numbering normaliser, and finally loses
    every underline. */
module Generator {
  import opened Wrappers
  import opened Strings
  import opened Dicts
  import opened DocumentModel
  import opened Formatting
  import opened Numbering
  import opened BlockEliminator
  import opened InlineVariables

  // ---------------------------------------------------------------------------
  // The text pass
  // ---------------------------------------------------------------------------

  /** A body paragraph after the text pass: a blank one, or one whose text the
      rewriter leaves as it is, is not touched; any other gets the new text in
      a single run and its saved format back. */
  function BodyParagraphRewritten(p: Paragraph, vars: Dict<string, string>, conds: Dict<string, string>): Paragraph {
    var t := Text(p);
    if Strip(t) == [] then p
    else
      var n := Rewritten(t, vars, conds);
      if n == t then p else Restored(WithText(p, n), FormatOf(p))
  }

  /** A table cell paragraph after the text pass: the new text, without any
      format restore. */
  function CellParagraphRewritten(p: Paragraph, vars: Dict<string, string>, conds: Dict<string, string>): Paragraph {
    var t := Text(p);
    if Strip(t) == [] then p
    else
      var n := Rewritten(t, vars, conds);
      if n == t then p else WithText(p, n)
  }

  function CellRewritten(c: Cell, vars: Dict<string, string>, conds: Dict<string, string>): Cell {
    seq(|c|, k requires 0 <= k < |c| => CellParagraphRewritten(c[k], vars, conds))
  }

  function RowRewritten(r: Row, vars: Dict<string, string>, conds: Dict<string, string>): Row {
    seq(|r|, k requires 0 <= k < |r| => CellRewritten(r[k], vars, conds))
  }

  function TableRewritten(t: Table, vars: Dict<string, string>, conds: Dict<string, string>): Table {
    Table(seq(|t.rows|, k requires 0 <= k < |t.rows| => RowRewritten(t.rows[k], vars, conds)))
  }

  /** The first loop of the text pass: body paragraphs. */
  function ParagraphPass(body: seq<Block>, vars: Dict<string, string>, conds: Dict<string, string>): seq<Block> {
    seq(|body|, k requires 0 <= k < |body| =>
      if body[k].Para? then Para(BodyParagraphRewritten(body[k].paragraph, vars, conds)) else body[k])
  }

  /** The second loop of the text pass: body tables. */
  function TablePass(body: seq<Block>, vars: Dict<string, string>, conds: Dict<string, string>): seq<Block> {
    seq(|body|, k requires 0 <= k < |body| =>
      if body[k].Tbl? then Tbl(TableRewritten(body[k].table, vars, conds)) else body[k])
  }

  /** One table cell paragraph of the text pass. */
  method RewriteCellParagraph(p: Paragraph, vars: Dict<string, string>, conds: Dict<string, string>) returns (q: Paragraph)
    ensures q == CellParagraphRewritten(p, vars, conds)
  {
    q := p;
    var t := Text(p);
    if Strip(t) != [] {
      var n := ReplaceVariables(t, vars, conds);
      if n != t {
        q := WithText(p, n);
      }
    }
  }

  method RewriteCell(c: Cell, vars: Dict<string, string>, conds: Dict<string, string>) returns (d: Cell)
    ensures d == CellRewritten(c, vars, conds)
  {
    ghost var target := CellRewritten(c, vars, conds);
    d := c;
    var k := 0;
    while k < |c|
      invariant 0 <= k <= |c| == |d| == |target|
      invariant d[..k] == target[..k] && d[k..] == c[k..]
    {
      var q := RewriteCellParagraph(c[k], vars, conds);
      UpdatePrefix(d, c, target, k, q);
      d := d[k := q];
      k := k + 1;
    }
    Done(d, target);
  }

  method RewriteRow(r: Row, vars: Dict<string, string>, conds: Dict<string, string>) returns (u: Row)
    ensures u == RowRewritten(r, vars, conds)
  {
    ghost var target := RowRewritten(r, vars, conds);
    u := r;
    var k := 0;
    while k < |r|
      invariant 0 <= k <= |r| == |u| == |target|
      invariant u[..k] == target[..k] && u[k..] == r[k..]
    {
      var c := RewriteCell(r[k], vars, conds);
      UpdatePrefix(u, r, target, k, c);
      u := u[k := c];
      k := k + 1;
    }
    Done(u, target);
  }

  method RewriteTable(t: Table, vars: Dict<string, string>, conds: Dict<string, string>) returns (u: Table)
    ensures u == TableRewritten(t, vars, conds)
  {
    ghost var target := TableRewritten(t, vars, conds).rows;
    var rows := t.rows;
    var k := 0;
    while k < |t.rows|
      invariant 0 <= k <= |t.rows| == |rows| == |target|
      invariant rows[..k] == target[..k] && rows[k..] == t.rows[k..]
    {
      var r := RewriteRow(t.rows[k], vars, conds);
      UpdatePrefix(rows, t.rows, target, k, r);
      rows := rows[k := r];
      k := k + 1;
    }
    Done(rows, target);
    u := Table(rows);
  }

  /** One body paragraph of the text pass: the format is saved before the
      new text goes in and restored after. */
  method RewriteBodyParagraph(p: Paragraph, vars: Dict<string, string>, conds: Dict<string, string>) returns (q: Paragraph)
    ensures q == BodyParagraphRewritten(p, vars, conds)
  {
    q := p;
    var t := Text(p);
    if Strip(t) != [] {
      var n := ReplaceVariables(t, vars, conds);
      if n != t {
        var info := SaveParagraphFormat(p);
        assert info == FormatOf(p);
        q := WithText(p, n);
        q := RestoreParagraphFormat(q, info);
        RestoresUnique(WithText(p, n), info, q);
      }
    }
  }

  /** The body-paragraph loop of `process_template`. */
  method RewriteBodyParagraphs(doc: Document, vars: Dict<string, string>, conds: Dict<string, string>)
    modifies doc
    ensures doc.body == ParagraphPass(old(doc.body), vars, conds)
  {
    var blocks := doc.body;
    ghost var body := blocks;
    ghost var target := ParagraphPass(blocks, vars, conds);
    var i := 0;
    while i < |blocks|
      invariant 0 <= i <= |blocks| == |body| == |target|
      invariant blocks[..i] == target[..i] && blocks[i..] == body[i..]
    {
      assert blocks[i] == body[i] by { assert blocks[i..][0] == body[i..][0]; }
      if blocks[i].Para? {
        var q := RewriteBodyParagraph(blocks[i].paragraph, vars, conds);
        UpdatePrefix(blocks, body, target, i, Para(q));
        blocks := blocks[i := Para(q)];
      } else {
        KeepPrefix(blocks, body, target, i);
      }
      i := i + 1;
    }
    Done(blocks, target);
    doc.body := blocks;
  }

  /** The table loop of `process_template`. */
  method RewriteTables(doc: Document, vars: Dict<string, string>, conds: Dict<string, string>)
    modifies doc
    ensures doc.body == TablePass(old(doc.body), vars, conds)
  {
    var blocks := doc.body;
    ghost var body := blocks;
    ghost var target := TablePass(blocks, vars, conds);
    var i := 0;
    while i < |blocks|
      invariant 0 <= i <= |blocks| == |body| == |target|
      invariant blocks[..i] == target[..i] && blocks[i..] == body[i..]
    {
      assert blocks[i] == body[i] by { assert blocks[i..][0] == body[i..][0]; }
      if blocks[i].Tbl? {
        var u := RewriteTable(blocks[i].table, vars, conds);
        UpdatePrefix(blocks, body, target, i, Tbl(u));
        blocks := blocks[i := Tbl(u)];
      } else {
        KeepPrefix(blocks, body, target, i);
      }
      i := i + 1;
    }
    Done(blocks, target);
    doc.body := blocks;
  }

  /** A step of the text-pass loops: element `k` takes its target value and
      the elements after it are still the original ones. */
  lemma UpdatePrefix<T>(d: seq<T>, c: seq<T>, target: seq<T>, k: nat, q: T)
    requires |d| == |c| == |target| && k < |c|
    requires d[..k] == target[..k] && d[k..] == c[k..] && q == target[k]
    ensures d[k := q][..k + 1] == target[..k + 1] && d[k := q][k + 1..] == c[k + 1..]
  {
    assert d[k := q][..k + 1] == d[..k] + [q];
    assert target[..k + 1] == target[..k] + [target[k]];
    assert d[k := q][k + 1..] == d[k..][1..];
    assert c[k + 1..] == c[k..][1..];
  }

  /** A step that leaves element `k` as it was, its target. */
  lemma KeepPrefix<T>(d: seq<T>, c: seq<T>, target: seq<T>, k: nat)
    requires |d| == |c| == |target| && k < |c|
    requires d[..k] == target[..k] && d[k..] == c[k..] && c[k] == target[k]
    ensures d[..k + 1] == target[..k + 1] && d[k + 1..] == c[k + 1..]
  {
    assert d[k] == d[k..][0];
    assert d[..k + 1] == d[..k] + [d[k]];
    assert target[..k + 1] == target[..k] + [target[k]];
    assert d[k + 1..] == d[k..][1..];
    assert c[k + 1..] == c[k..][1..];
  }

  lemma Done<T>(d: seq<T>, target: seq<T>)
    requires |d| == |target| && d[..|d|] == target[..|d|]
    ensures d == target
  {
    assert d == d[..|d|] && target == target[..|d|];
  }

  // ---------------------------------------------------------------------------
  // Underline removal
  // ---------------------------------------------------------------------------

  /** Every run of the paragraph with its underline set to false. */
  function NoUnderline(p: Paragraph): Paragraph {
    p.(runs := seq(|p.runs|, k requires 0 <= k < |p.runs| => p.runs[k].(underline := Some(false))))
  }

  function CellNoUnderline(c: Cell): Cell {
    seq(|c|, k requires 0 <= k < |c| => NoUnderline(c[k]))
  }

  function RowNoUnderline(r: Row): Row {
    seq(|r|, k requires 0 <= k < |r| => CellNoUnderline(r[k]))
  }

  function TableNoUnderline(t: Table): Table {
    Table(seq(|t.rows|, k requires 0 <= k < |t.rows| => RowNoUnderline(t.rows[k])))
  }

  function UnderlinesRemoved(body: seq<Block>): seq<Block> {
    seq(|body|, k requires 0 <= k < |body| =>
      match body[k]
      case Para(p) => Para(NoUnderline(p))
      case Tbl(t) => Tbl(TableNoUnderline(t))
      case Other => Other)
  }

  method ClearUnderlines(p: Paragraph) returns (q: Paragraph)
    ensures q == NoUnderline(p)
  {
    q := p;
    var k := 0;
    while k < |p.runs|
      invariant 0 <= k <= |p.runs| == |q.runs|
      invariant q.alignment == p.alignment && q.style == p.style
      invariant forall j :: 0 <= j < k ==> q.runs[j] == p.runs[j].(underline := Some(false))
      invariant forall j :: k <= j < |p.runs| ==> q.runs[j] == p.runs[j]
    {
      q := q.(runs := q.runs[k := q.runs[k].(underline := Some(false))]);
      k := k + 1;
    }
  }

  method ClearCellUnderlines(c: Cell) returns (d: Cell)
    ensures d == CellNoUnderline(c)
  {
    d := c;
    var k := 0;
    while k < |c|
      invariant 0 <= k <= |c| == |d|
      invariant forall j :: 0 <= j < k ==> d[j] == NoUnderline(c[j])
      invariant forall j :: k <= j < |c| ==> d[j] == c[j]
    {
      var q := ClearUnderlines(c[k]);
      d := d[k := q];
      k := k + 1;
    }
  }

  method ClearRowUnderlines(r: Row) returns (u: Row)
    ensures u == RowNoUnderline(r)
  {
    u := r;
    var k := 0;
    while k < |r|
      invariant 0 <= k <= |r| == |u|
      invariant forall j :: 0 <= j < k ==> u[j] == CellNoUnderline(r[j])
      invariant forall j :: k <= j < |r| ==> u[j] == r[j]
    {
      var c := ClearCellUnderlines(r[k]);
      u := u[k := c];
      k := k + 1;
    }
  }

  method ClearTableUnderlines(t: Table) returns (u: Table)
    ensures u == TableNoUnderline(t)
  {
    var rows := t.rows;
    var k := 0;
    while k < |t.rows|
      invariant 0 <= k <= |t.rows| == |rows|
      invariant forall j :: 0 <= j < k ==> rows[j] == RowNoUnderline(t.rows[j])
      invariant forall j :: k <= j < |t.rows| ==> rows[j] == t.rows[j]
    {
      var r := ClearRowUnderlines(t.rows[k]);
      rows := rows[k := r];
      k := k + 1;
    }
    u := Table(rows);
  }

  /** `_remove_underlines(doc)`: body paragraphs first, then the tables. */
  method RemoveUnderlines(doc: Document)
    modifies doc
    ensures doc.body == UnderlinesRemoved(old(doc.body))
  {
    ghost var body := doc.body;
    var i := 0;
    while i < |doc.body|
      invariant 0 <= i <= |doc.body| == |body|
      invariant forall j :: 0 <= j < i ==> doc.body[j] == (if body[j].Para? then UnderlinesRemoved(body)[j] else body[j])
      invariant forall j :: i <= j < |body| ==> doc.body[j] == body[j]
    {
      if doc.body[i].Para? {
        var q := ClearUnderlines(doc.body[i].paragraph);
        doc.body := doc.body[i := Para(q)];
      }
      i := i + 1;
    }
    i := 0;
    while i < |doc.body|
      invariant 0 <= i <= |doc.body| == |body|
      invariant forall j :: 0 <= j < i ==> doc.body[j] == UnderlinesRemoved(body)[j]
      invariant forall j :: i <= j < |body| ==> doc.body[j] == (if body[j].Para? then UnderlinesRemoved(body)[j] else body[j])
    {
      if doc.body[i].Tbl? {
        var u := ClearTableUnderlines(doc.body[i].table);
        doc.body := doc.body[i := Tbl(u)];
      }
      i := i + 1;
    }
  }

  // ---------------------------------------------------------------------------
  // The whole pipeline
  // ---------------------------------------------------------------------------

  /** The generated body, stage by stage. */
  function Generated(template: seq<Block>, vars: Dict<string, string>, conds: Dict<string, string>): seq<Block> {
    var stripped := Stripped(template, conds);
    var rewritten := TablePass(ParagraphPass(stripped, vars, conds), vars, conds);
    UnderlinesRemoved(Renumber(rewritten, Start))
  }

  /** The generator holds the template it was built from (loading it from a
      path is not modelled). */
  class CartaGenerator {
    const template: seq<Block>

    constructor (template: seq<Block>)
      ensures this.template == template
    {
      this.template := template;
    }

    /** `process_template(variables, conditionals)`: a fresh copy of the
        template goes through every stage; the template itself is not touched. */
    method ProcessTemplate(vars: Dict<string, string>, conds: Dict<string, string>) returns (doc: Document)
      ensures fresh(doc)
      ensures doc.body == Generated(template, vars, conds)
    {
      doc := new Document(template);
      StripConditionalBlocks(doc, conds);
      RewriteBodyParagraphs(doc, vars, conds);
      RewriteTables(doc, vars, conds);
      FixNumbering(doc);
      RemoveUnderlines(doc);
    }
  }

  // ---------------------------------------------------------------------------
  // Properties
  // ---------------------------------------------------------------------------

  /** No run of the paragraph is underlined or left to inherit an underline. */
  predicate ParagraphClean(p: Paragraph) {
    forall j :: 0 <= j < |p.runs| ==> p.runs[j].underline == Some(false)
  }

  predicate TableClean(t: Table) {
    forall r, c, p :: 0 <= r < |t.rows| && 0 <= c < |t.rows[r]| && 0 <= p < |t.rows[r][c]| ==>
      ParagraphClean(t.rows[r][c][p])
  }

  predicate BlockClean(b: Block) {
    match b
    case Para(p) => ParagraphClean(p)
    case Tbl(t) => TableClean(t)
    case Other => true
  }

  /** No run anywhere in the body, body paragraphs and table cells alike, is
      underlined or left to inherit an underline. */
  predicate NoUnderlines(body: seq<Block>) {
    forall k :: 0 <= k < |body| ==> BlockClean(body[k])
  }

  /** Underline removal leaves no underline anywhere. */
  lemma UnderlinesRemovedClean(body: seq<Block>)
    ensures NoUnderlines(UnderlinesRemoved(body))
  {
    var u := UnderlinesRemoved(body);
    forall k | 0 <= k < |u| ensures BlockClean(u[k]) {
      match body[k]
      case Para(p) =>
        assert u[k] == Para(NoUnderline(p));
      case Tbl(t) =>
        assert u[k] == Tbl(TableNoUnderline(t));
      case Other =>
    }
  }

  /** Whatever the template and the bindings, the generated letter carries no
      underline. */
  lemma GeneratedHasNoUnderlines(template: seq<Block>, vars: Dict<string, string>, conds: Dict<string, string>)
    ensures NoUnderlines(Generated(template, vars, conds))
  {
    var rewritten := TablePass(ParagraphPass(Stripped(template, conds), vars, conds), vars, conds);
    UnderlinesRemovedClean(Renumber(rewritten, Start));
  }

  /** Removing underlines keeps every run's text, so the paragraph text. */
  lemma {:induction false} NoUnderlineKeepsText(p: Paragraph)
    ensures Text(NoUnderline(p)) == Text(p)
    decreases |p.runs|
  {
    if p.runs != [] {
      var q := p.(runs := p.runs[1..]);
      NoUnderlineKeepsText(q);
      assert NoUnderline(p).runs[1..] == NoUnderline(q).runs;
    }
  }

  /** A blank text holds neither `{` nor `.mark`. */
  lemma BlankIsPlain(t: string)
    requires Strip(t) == []
    ensures '{' !in t && !Contains(t, ".mark")
  {
    var a: nat, b: nat :| a <= b <= |t| && Strip(t) == t[a..b]
      && (forall k :: 0 <= k < a ==> IsSpace(t[k])) && (forall k :: b <= k < |t| ==> IsSpace(t[k]));
    assert forall k :: 0 <= k < |t| ==> IsSpace(t[k]);
    assert '.' !in t;
    forall i: nat | i <= |t| ensures !IsPrefixAt(t, i, ".mark") {
      AbsentCharNoOccurrence(t, ".mark", '.', i, 0);
    }
  }

  /** After the text pass a body paragraph reads as the rewriter's output on
      its original text: skipping blank and unchanged paragraphs loses
      nothing. */
  lemma BodyParagraphText(p: Paragraph, vars: Dict<string, string>, conds: Dict<string, string>)
    ensures Text(BodyParagraphRewritten(p, vars, conds)) == Rewritten(Text(p), vars, conds)
  {
    var t := Text(p);
    if Strip(t) == [] {
      BlankIsPlain(t);
      PlainTextUnchanged(t, vars, conds);
    } else if Rewritten(t, vars, conds) != t {
      assert p.runs != [];
      RestoreAfterRewrite(p, Rewritten(t, vars, conds));
    }
  }

  /** The same for a table cell paragraph. */
  lemma CellParagraphText(p: Paragraph, vars: Dict<string, string>, conds: Dict<string, string>)
    ensures Text(CellParagraphRewritten(p, vars, conds)) == Rewritten(Text(p), vars, conds)
  {
    var t := Text(p);
    if Strip(t) == [] {
      BlankIsPlain(t);
      PlainTextUnchanged(t, vars, conds);
    }
  }

  /** The stages after the block eliminator keep the blocks: one output block
      per surviving template block, of the same kind. */
  lemma GeneratedShape(template: seq<Block>, vars: Dict<string, string>, conds: Dict<string, string>)
    ensures var g := Generated(template, vars, conds); var s := Stripped(template, conds);
      && |g| == |s|
      && forall k :: 0 <= k < |s| ==> g[k].Para? == s[k].Para? && g[k].Tbl? == s[k].Tbl?
  {
    var s := Stripped(template, conds);
    var w := TablePass(ParagraphPass(s, vars, conds), vars, conds);
    forall k | 0 <= k < |s| ensures Renumber(w, Start)[k].Para? == s[k].Para? && Renumber(w, Start)[k].Tbl? == s[k].Tbl? {
      RenumberAt(w, Start, k);
    }
  }
}
