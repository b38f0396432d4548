/** The word-processing document as the template engine sees it: the body is
    an ordered sequence of blocks (paragraphs, tables and any other element),
    a paragraph is a sequence of formatting runs, a table holds rows of cells
    of paragraphs. The container format itself is not modelled. */
module DocumentModel {
  import opened Wrappers
  import opened Strings

  /** The affirmative value of a template condition. */
  const Yes: string := "s\U{00ED}"

  /** The multi-line list placeholder, whose description text is not part of its name. */
  const ListaName: string := "lista_alto_directores"

  /** A run of text sharing one set of character attributes. `None` means the
      attribute is inherited; the font size is in the container's length unit
      and the colour is an RGB triple packed into an integer. */
  datatype Run = Run(
    text: string,
    bold: Option<bool>,
    italic: Option<bool>,
    underline: Option<bool>,
    fontName: Option<string>,
    fontSize: Option<int>,
    fontColor: Option<int>)

  /** A paragraph: its runs, its alignment (0 is left, which counts as false)
      and the name of its style. */
  datatype Paragraph = Paragraph(runs: seq<Run>, alignment: Option<int>, style: Option<string>)

  type Cell = seq<Paragraph>

  type Row = seq<Cell>

  datatype Table = Table(rows: seq<Row>)

  /** A top-level element of the body. `Other` stands for every element that is
      neither a paragraph nor a table (section properties, for one). */
  datatype Block = Para(paragraph: Paragraph) | Tbl(table: Table) | Other

  function RunsText(runs: seq<Run>): string {
    if runs == [] then "" else runs[0].text + RunsText(runs[1..])
  }

  /** `paragraph.text`: the run texts concatenated. */
  function Text(p: Paragraph): string {
    RunsText(p.runs)
  }

  function ParagraphTexts(ps: seq<Paragraph>): (r: seq<string>)
    ensures |r| == |ps|
    ensures forall i :: 0 <= i < |ps| ==> r[i] == Text(ps[i])
  {
    if ps == [] then [] else [Text(ps[0])] + ParagraphTexts(ps[1..])
  }

  /** `cell.text`: the cell's paragraph texts joined by newlines. */
  function CellText(c: Cell): string {
    Join("\n", ParagraphTexts(c))
  }

  /** A run with no character formatting of its own. */
  function PlainRun(t: string): Run {
    Run(t, None, None, None, None, None, None)
  }

  /** `paragraph.text = t`: every run is dropped and one unformatted run holding
      `t` is added; alignment and style belong to the paragraph and stay. */
  function WithText(p: Paragraph, t: string): (q: Paragraph)
    ensures Text(q) == t
    ensures q.alignment == p.alignment && q.style == p.style
  {
    var runs := [PlainRun(t)];
    assert RunsText(runs) == t + RunsText(runs[1..]);
    assert runs[1..] == [];
    p.(runs := runs)
  }

  /** The document being generated. Its body is changed in place by the
      generation stages. */
  class Document {
    var body: seq<Block>

    constructor (body: seq<Block>)
      ensures this.body == body
    {
      this.body := body;
    }
  }
}
