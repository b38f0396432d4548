/** `_save_paragraph_format` and `_restore_paragraph_format`: the formatting
    of a body paragraph is recorded before its text is rewritten and laid back
    onto the rewritten paragraph afterwards. */
module Formatting {
  import opened Wrappers
  import opened DocumentModel

  /** The recorded attributes of one run. */
  datatype RunFormat = RunFormat(
    bold: Option<bool>,
    italic: Option<bool>,
    underline: Option<bool>,
    fontName: Option<string>,
    fontSize: Option<int>,
    fontColor: Option<int>)

  /** The recorded format of a paragraph: alignment, style name and one entry
      per run, in run order. */
  datatype ParagraphFormat = ParagraphFormat(alignment: Option<int>, style: Option<string>, runs: seq<RunFormat>)

  function FormatOfRun(r: Run): RunFormat {
    RunFormat(r.bold, r.italic, r.underline, r.fontName, r.fontSize, r.fontColor)
  }

  /** `_save_paragraph_format(paragraph)`: alignment, style and the attributes
      of every run, in order. */
  method SaveParagraphFormat(p: Paragraph) returns (info: ParagraphFormat)
    ensures info.alignment == p.alignment && info.style == p.style
    ensures |info.runs| == |p.runs|
    ensures forall k :: 0 <= k < |p.runs| ==> info.runs[k] == FormatOfRun(p.runs[k])
  {
    var runs: seq<RunFormat> := [];
    var i := 0;
    while i < |p.runs|
      invariant 0 <= i <= |p.runs|
      invariant |runs| == i
      invariant forall k :: 0 <= k < i ==> runs[k] == FormatOfRun(p.runs[k])
    {
      runs := runs + [FormatOfRun(p.runs[i])];
      i := i + 1;
    }
    info := ParagraphFormat(p.alignment, p.style, runs);
  }

  // Python truthiness of the recorded values: an unset value, alignment 0
  // (left), an empty style or font name and a zero font size are all false.

  predicate AlignmentSet(a: Option<int>) { a.Some? && a.value != 0 }

  predicate NameSet(s: Option<string>) { s.Some? && s.value != "" }

  predicate SizeSet(n: Option<int>) { n.Some? && n.value != 0 }

  /** One run after its recorded attributes are laid back on it: bold, italic
      and underline when recorded as anything but `None`, font name and size
      when truthy. The colour is never restored. */
  function RestoredRun(r: Run, f: RunFormat): Run {
    r.(bold := if f.bold.Some? then f.bold else r.bold,
       italic := if f.italic.Some? then f.italic else r.italic,
       underline := if f.underline.Some? then f.underline else r.underline,
       fontName := if NameSet(f.fontName) then f.fontName else r.fontName,
       fontSize := if SizeSet(f.fontSize) then f.fontSize else r.fontSize)
  }

  /** `q` is `p` with `info` laid back on it: alignment and style when
      truthy, the `k`-th recorded run format on the `k`-th run up to the
      shorter of the two run lists, every other run as it was. */
  predicate Restores(p: Paragraph, info: ParagraphFormat, q: Paragraph) {
    && q.alignment == (if AlignmentSet(info.alignment) then info.alignment else p.alignment)
    && q.style == (if NameSet(info.style) then info.style else p.style)
    && |q.runs| == |p.runs|
    && forall k :: 0 <= k < |p.runs| ==>
         q.runs[k] == if k < |info.runs| then RestoredRun(p.runs[k], info.runs[k]) else p.runs[k]
  }

  /** `_restore_paragraph_format(paragraph, info)`: alignment and style are
      re-applied only when truthy (a style the document does not define is
      not modelled); the `i`-th run gets the `i`-th recorded run format, up to
      the shorter of the two run lists. */
  method RestoreParagraphFormat(p: Paragraph, info: ParagraphFormat) returns (q: Paragraph)
    ensures Restores(p, info, q)
  {
    q := p;
    if AlignmentSet(info.alignment) {
      q := q.(alignment := info.alignment);
    }
    if NameSet(info.style) {
      q := q.(style := info.style);
    }
    if info.runs != [] && p.runs != [] {
      var i := 0;
      while i < |p.runs|
        invariant 0 <= i <= |p.runs|
        invariant q.alignment == (if AlignmentSet(info.alignment) then info.alignment else p.alignment)
        invariant q.style == (if NameSet(info.style) then info.style else p.style)
        invariant |q.runs| == |p.runs|
        invariant forall k :: 0 <= k < i ==>
          q.runs[k] == if k < |info.runs| then RestoredRun(p.runs[k], info.runs[k]) else p.runs[k]
        invariant forall k :: i <= k < |p.runs| ==> q.runs[k] == p.runs[k]
      {
        if i < |info.runs| {
          q := q.(runs := q.runs[i := RestoredRun(q.runs[i], info.runs[i])]);
        }
        i := i + 1;
      }
    }
  }

  // ---------------------------------------------------------------------------
  // Properties
  // ---------------------------------------------------------------------------

  /** The format a paragraph records, as a value. */
  function FormatOf(p: Paragraph): (info: ParagraphFormat)
    ensures info.alignment == p.alignment && info.style == p.style
    ensures |info.runs| == |p.runs|
    ensures forall k :: 0 <= k < |p.runs| ==> info.runs[k] == FormatOfRun(p.runs[k])
  {
    ParagraphFormat(p.alignment, p.style, seq(|p.runs|, k requires 0 <= k < |p.runs| => FormatOfRun(p.runs[k])))
  }

  /** The paragraph the restore produces, as a value. */
  function Restored(p: Paragraph, info: ParagraphFormat): (q: Paragraph)
    ensures Restores(p, info, q)
  {
    var runs := seq(|p.runs|, k requires 0 <= k < |p.runs| =>
      if k < |info.runs| then RestoredRun(p.runs[k], info.runs[k]) else p.runs[k]);
    p.(alignment := if AlignmentSet(info.alignment) then info.alignment else p.alignment,
       style := if NameSet(info.style) then info.style else p.style,
       runs := runs)
  }

  /** `Restores` determines the paragraph. */
  lemma RestoresUnique(p: Paragraph, info: ParagraphFormat, q: Paragraph)
    requires Restores(p, info, q)
    ensures q == Restored(p, info)
  {
    assert q.runs == Restored(p, info).runs;
  }

  /** Restoring a run's own recorded format leaves it as it was. */
  lemma RestoreOwnRun(r: Run)
    ensures RestoredRun(r, FormatOfRun(r)) == r
  {
  }

  /** The restore is the inverse of the save: laying a paragraph's own recorded
      format back on it changes nothing, whatever its alignment, style and runs. */
  lemma {:induction false} RestoreSaved(p: Paragraph)
    ensures Restored(p, FormatOf(p)) == p
  {
    var q := Restored(p, FormatOf(p));
    forall k | 0 <= k < |p.runs| ensures q.runs[k] == p.runs[k] {
      RestoreOwnRun(p.runs[k]);
    }
    assert q.runs == p.runs;
  }

  /** The paragraph a rewrite leaves behind: one run with the new text that
      carries the first original run's bold, italic and underline exactly, its
      font name and size when truthy, and no colour; the alignment and style
      are the original ones. */
  lemma {:induction false} RestoreAfterRewrite(p: Paragraph, t: string)
    requires |p.runs| > 0
    ensures var q := Restored(WithText(p, t), FormatOf(p));
      && q.alignment == p.alignment && q.style == p.style
      && Text(q) == t
      && |q.runs| == 1
      && q.runs[0].bold == p.runs[0].bold && q.runs[0].italic == p.runs[0].italic
      && q.runs[0].underline == p.runs[0].underline
      && q.runs[0].fontName == (if NameSet(p.runs[0].fontName) then p.runs[0].fontName else None)
      && q.runs[0].fontSize == (if SizeSet(p.runs[0].fontSize) then p.runs[0].fontSize else None)
      && q.runs[0].fontColor == None
  {
    var q := Restored(WithText(p, t), FormatOf(p));
    var w := WithText(p, t);
    assert w.runs == [PlainRun(t)];
    assert q.runs[0] == RestoredRun(PlainRun(t), FormatOfRun(p.runs[0]));
    assert q.runs == [q.runs[0]];
    assert RunsText(q.runs) == t + RunsText(q.runs[1..]);
  }
}
