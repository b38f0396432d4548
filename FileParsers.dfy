/** The importers of variable values: a Word document whose paragraphs read
    `name: value`, or a spreadsheet whose first two columns hold names and
    values. Names and values are normalised on the way in. Reading the file
    itself is not modelled: the importers take the paragraph texts or the
    cells, or the reader's error message. */
module FileParsers {
  import opened Wrappers
  import opened Strings
  import opened Dicts
  import opened DocumentModel

  // ---------------------------------------------------------------------------
  // Normalisation
  // ---------------------------------------------------------------------------

  /** `normalize_value(value)`: the spellings of yes (`SI`, `SÍ` in any case,
      or `1`) become `sí`, those of no (`NO` in any case, or `0`) become `no`,
      anything else stays. */
  function NormalizeValue(value: string): string {
    var up := Upper(value);
    if up == "SI" || up == "S\U{00CD}" || value == "1" then Yes
    else if up == "NO" || value == "0" then "no"
    else value
  }

  /** `VARIABLE_NAME_MAPPING`: alternative spellings of variable names and
      the name each stands for. */
  function MappedName(folded: string): Option<string> {
    if folded == "comision" || folded == "comisi\U{00F3}n" then Some("comision")
    else if folded == "organo" || folded == "\U{00F3}rgano" then Some("organo")
    else None
  }

  /** One character lower-cased, then an acute-accented vowel replaced by the
      plain vowel (the five replacements touch distinct characters, so they
      can be done in one pass). */
  function FoldChar(c: char): char {
    var l := LowerChar(c);
    if l == '\U{00E1}' then 'a'
    else if l == '\U{00E9}' then 'e'
    else if l == '\U{00ED}' then 'i'
    else if l == '\U{00F3}' then 'o'
    else if l == '\U{00FA}' then 'u'
    else l
  }

  /** `name.lower().replace('á', 'a')...replace('ú', 'u')`. */
  function Folded(name: string): (r: string)
    ensures |r| == |name| && forall k :: 0 <= k < |name| ==> r[k] == FoldChar(name[k])
  {
    if name == [] then [] else [FoldChar(name[0])] + Folded(name[1..])
  }

  /** `normalize_variable_name(var_name)`: the mapped name when the folded
      form is a key of the mapping, the name exactly as given otherwise. */
  function NormalizeVariableName(name: string): string {
    match MappedName(Folded(name))
    case Some(canonical) => canonical
    case None => name
  }

  // ---------------------------------------------------------------------------
  // Word
  // ---------------------------------------------------------------------------

  /** `text.split(':', 1)` when `text` holds a `:`. */
  function ColonSplit(text: string): (r: Option<(string, string)>)
    ensures r.Some? ==> ':' !in r.value.0 && text == r.value.0 + ":" + r.value.1
    ensures r.None? <==> ':' !in text
  {
    var i := SpanNot(text, ':');
    if i == |text| then None
    else
      assert text == text[..i] + ":" + text[i + 1..];
      Some((text[..i], text[i + 1..]))
  }

  /** The entry one paragraph contributes: the stripped paragraph must be
      non-empty and hold a `:`; the name is what precedes the first `:` and the
      value what follows it, both stripped and normalised. */
  function LineEntry(line: string): Option<(string, string)> {
    var text := Strip(line);
    if text == [] then None
    else match ColonSplit(text)
      case None => None
      case Some(parts) => Some((NormalizeVariableName(Strip(parts.0)), NormalizeValue(Strip(parts.1))))
  }

  function LineEntries(lines: seq<string>): (r: seq<Option<(string, string)>>)
    ensures |r| == |lines| && forall k :: 0 <= k < |lines| ==> r[k] == LineEntry(lines[k])
  {
    seq(|lines|, k requires 0 <= k < |lines| => LineEntry(lines[k]))
  }

  const WordError: string := "Error al procesar archivo Word: "

  /** `process_word_file(file)`, given the paragraph texts of the document or
      the reader's error. */
  method ProcessWordFile(file: Result<seq<string>, string>) returns (r: Result<Dict<string, string>, string>)
    ensures file.Failure? ==> r == Failure(WordError + file.error)
    ensures file.Success? ==> r == Success(Collect(LineEntries(file.value)))
  {
    if file.Failure? {
      return Failure(WordError + file.error);
    }
    var lines := file.value;
    var data: Dict<string, string> := [];
    var i := 0;
    while i < |lines|
      invariant 0 <= i <= |lines|
      invariant data == Collect(LineEntries(lines)[..i])
    {
      assert LineEntries(lines)[..i + 1][..i] == LineEntries(lines)[..i];
      var text := Strip(lines[i]);
      if text != [] && ':' in text {
        var parts := ColonSplit(text);
        var name := Strip(parts.value.0);
        var value := Strip(parts.value.1);
        value := NormalizeValue(value);
        name := NormalizeVariableName(name);
        data := Put(data, name, value);
      }
      i := i + 1;
    }
    assert LineEntries(lines)[..i] == LineEntries(lines);
    r := Success(data);
  }

  // ---------------------------------------------------------------------------
  // Excel
  // ---------------------------------------------------------------------------

  /** A spreadsheet cell as the reader returns it: empty, a date, or any other
      value, held as its `str()` text. */
  datatype Cell = Missing | Date(day: nat, month: nat, year: nat) | Value(text: string)

  /** The sheet: its number of columns and, row by row, its first two cells. */
  datatype Sheet = Sheet(columns: nat, rows: seq<(Cell, Cell)>)

  /** A number with at least two digits. */
  function Pad2(n: nat): string {
    if n < 10 then "0" + NatToString(n) else NatToString(n)
  }

  /** `strftime("%d/%m/%Y")`. */
  function DateText(day: nat, month: nat, year: nat): string {
    Pad2(day) + "/" + Pad2(month) + "/" + NatToString(year)
  }

  /** `str(cell)` for the name column; a date prints as `YYYY-MM-DD 00:00:00`. */
  function CellText(c: Cell): string {
    match c
    case Missing => "nan"
    case Date(d, m, y) => NatToString(y) + "-" + Pad2(m) + "-" + Pad2(d) + " 00:00:00"
    case Value(t) => t
  }

  /** The entry one row contributes: both cells present; a date value is
      written day/month/year, any other value is stripped. */
  function RowEntry(row: (Cell, Cell)): Option<(string, string)> {
    if row.0.Missing? || row.1.Missing? then None
    else
      var name := Strip(CellText(row.0));
      var value := match row.1
        case Date(d, m, y) => DateText(d, m, y)
        case Value(t) => Strip(t)
        case Missing => "";
      Some((NormalizeVariableName(name), NormalizeValue(value)))
  }

  function RowEntries(rows: seq<(Cell, Cell)>): (r: seq<Option<(string, string)>>)
    ensures |r| == |rows| && forall k :: 0 <= k < |rows| ==> r[k] == RowEntry(rows[k])
  {
    seq(|rows|, k requires 0 <= k < |rows| => RowEntry(rows[k]))
  }

  const ExcelError: string := "Error al procesar archivo Excel: "

  /** `process_excel_file(file)`, given the sheet or the reader's error. A
      sheet with fewer than two columns yields nothing. */
  method ProcessExcelFile(file: Result<Sheet, string>) returns (r: Result<Dict<string, string>, string>)
    ensures file.Failure? ==> r == Failure(ExcelError + file.error)
    ensures file.Success? && file.value.columns < 2 ==> r == Success([])
    ensures file.Success? && file.value.columns >= 2 ==> r == Success(Collect(RowEntries(file.value.rows)))
  {
    if file.Failure? {
      return Failure(ExcelError + file.error);
    }
    var data: Dict<string, string> := [];
    if file.value.columns >= 2 {
      var rows := file.value.rows;
      var i := 0;
      while i < |rows|
        invariant 0 <= i <= |rows|
        invariant data == Collect(RowEntries(rows)[..i])
      {
        assert RowEntries(rows)[..i + 1][..i] == RowEntries(rows)[..i];
        var row := rows[i];
        if !row.0.Missing? && !row.1.Missing? {
          var name := Strip(CellText(row.0));
          var value: string;
          if row.1.Date? {
            value := DateText(row.1.day, row.1.month, row.1.year);
          } else {
            value := Strip(row.1.text);
          }
          value := NormalizeValue(value);
          name := NormalizeVariableName(name);
          data := Put(data, name, value);
        }
        i := i + 1;
      }
      assert RowEntries(rows)[..i] == RowEntries(rows);
    }
    r := Success(data);
  }

  // ---------------------------------------------------------------------------
  // Properties
  // ---------------------------------------------------------------------------

  /** A normalised value is `sí`, `no` or the value itself, and normalising it
      again changes nothing. */
  lemma NormalizeValueIdempotent(value: string)
    ensures var r := NormalizeValue(value);
      && (r == Yes || r == "no" || r == value)
      && NormalizeValue(r) == r
  {
    assert Upper(Yes) == "S\U{00CD}";
    assert Upper("no") == "NO";
  }

  /** Yes and no are recognised in any case. */
  lemma NormalizeValueSpellings()
    ensures NormalizeValue("si") == Yes && NormalizeValue("Si") == Yes && NormalizeValue("S\U{00CD}") == Yes
    ensures NormalizeValue("s\U{00ED}") == Yes && NormalizeValue("1") == Yes
    ensures NormalizeValue("No") == "no" && NormalizeValue("nO") == "no" && NormalizeValue("0") == "no"
    ensures NormalizeValue("yes") == "yes" && NormalizeValue("10") == "10"
  {
    YesSpellings();
    NoSpellings();
    OtherSpellings();
  }

  lemma YesSpellings()
    ensures NormalizeValue("si") == Yes && NormalizeValue("Si") == Yes && NormalizeValue("S\U{00CD}") == Yes
    ensures NormalizeValue("s\U{00ED}") == Yes
  {
    assert Upper("si") == "SI";
    assert Upper("Si") == "SI";
    assert Upper("S\U{00CD}") == "S\U{00CD}";
    assert Upper("s\U{00ED}") == "S\U{00CD}";
  }

  lemma NoSpellings()
    ensures NormalizeValue("No") == "no" && NormalizeValue("nO") == "no"
  {
    assert Upper("No") == "NO";
    assert Upper("nO") == "NO";
  }

  lemma OtherSpellings()
    ensures NormalizeValue("yes") == "yes" && NormalizeValue("10") == "10"
  {
    assert Upper("yes") == "YES";
    assert Upper("10") == "10";
  }

  /** A name of plain lower-case letters and `_` folds to itself. */
  lemma FoldedPlain(name: string)
    requires forall k :: 0 <= k < |name| ==> IsLowerAscii(name[k]) || name[k] == '_'
    ensures Folded(name) == name
  {
    forall k | 0 <= k < |name| ensures Folded(name)[k] == name[k] {
      FoldCharPlain(name[k]);
    }
  }

  lemma FoldCharPlain(c: char)
    requires IsLowerAscii(c) || c == '_'
    ensures FoldChar(c) == c
  {
  }

  /** A normalised name is a canonical name or the name as given, and
      normalising it again changes nothing. */
  lemma NormalizeVariableNameIdempotent(name: string)
    ensures var r := NormalizeVariableName(name);
      && (r == "comision" || r == "organo" || r == name)
      && NormalizeVariableName(r) == r
  {
    match MappedName(Folded(name))
    case Some(canonical) => CanonicalFixed(canonical);
    case None =>
  }

  /** The canonical names are their own normal form. */
  lemma CanonicalFixed(c: string)
    requires c == "comision" || c == "organo"
    ensures NormalizeVariableName(c) == c
  {
    if c == "comision" {
      FoldedPlain("comision");
      assert MappedName("comision") == Some("comision");
    } else {
      FoldedPlain("organo");
      assert MappedName("organo") == Some("organo");
    }
  }

  /** Accented and capitalised spellings reach the canonical name. */
  lemma NormalizeVariableNameSpellings()
    ensures NormalizeVariableName("Comisi\U{00F3}n") == "comision"
    ensures NormalizeVariableName("\U{00D3}rgano") == "organo"
    ensures NormalizeVariableName("comision") == "comision"
  {
    FoldedComision();
    FoldsTo("Comisi\U{00F3}n", "comision", "comision");
    FoldedOrgano();
    FoldsTo("\U{00D3}rgano", "organo", "organo");
    CanonicalFixed("comision");
  }

  lemma FoldsTo(name: string, folded: string, canonical: string)
    requires Folded(name) == folded && MappedName(folded) == Some(canonical)
    ensures NormalizeVariableName(name) == canonical
  {
  }

  lemma FoldedComision()
    ensures Folded("Comisi\U{00F3}n") == "comision"
  {
    var s, t := "Comisi\U{00F3}n", "comision";
    assert FoldChar(s[0]) == t[0] by { assert FoldChar('C') == 'c'; }
    assert FoldChar(s[6]) == t[6] by { assert FoldChar('\U{00F3}') == 'o'; }
    FoldCharPlain(s[1]);
    FoldCharPlain(s[2]);
    FoldCharPlain(s[3]);
    FoldCharPlain(s[4]);
    FoldCharPlain(s[5]);
    FoldCharPlain(s[7]);
    FoldedAs(s, t);
  }

  lemma FoldedOrgano()
    ensures Folded("\U{00D3}rgano") == "organo"
  {
    var s, t := "\U{00D3}rgano", "organo";
    assert FoldChar(s[0]) == t[0] by { assert FoldChar('\U{00D3}') == 'o'; }
    FoldCharPlain(s[1]);
    FoldCharPlain(s[2]);
    FoldCharPlain(s[3]);
    FoldCharPlain(s[4]);
    FoldCharPlain(s[5]);
    FoldedAs(s, t);
  }

  lemma FoldedAs(s: string, t: string)
    requires |s| == |t| && forall k :: 0 <= k < |s| ==> FoldChar(s[k]) == t[k]
    ensures Folded(s) == t
  {
  }

  /** Stripping `a:b` strips the front of `a` and the back of `b`. */
  lemma StripAroundColon(a: string, b: string)
    ensures Strip(a + ":" + b) == a[LeadingSpaces(a)..] + ":" + b[..|b| - TrailingSpaces(b)]
  {
    var la := LeadingSpaces(a);
    var j := |b| - TrailingSpaces(b);
    StripOfColon(a, b, la, j);
    SliceAroundColon(a, b, la, j);
  }

  /** The strip of `a:b` as a slice of it. */
  lemma StripOfColon(a: string, b: string, la: nat, j: nat)
    requires la == LeadingSpaces(a) && j == |b| - TrailingSpaces(b)
    ensures la <= |a| && Strip(a + ":" + b) == (a + ":" + b)[la..|a| + 1 + j]
  {
    var x := a + ":" + b;
    SpacesBeforeColon(x, a, b, la);
    SpacesAfterColon(x, a, b, j, |a| + 1 + j);
    StripExact(x, la, |a| + 1 + j);
  }

  /** In `a:b`, the leading spaces of `a` are the ones the strip removes at
      the front. */
  lemma SpacesBeforeColon(x: string, a: string, b: string, la: nat)
    requires x == a + ":" + b && la == LeadingSpaces(a)
    ensures la <= |a| < |x|
    ensures forall k :: 0 <= k < la ==> IsSpace(x[k])
    ensures !IsSpace(x[la])
  {
    assert x[la] == if la < |a| then a[la] else ':';
    assert forall k :: 0 <= k < la ==> x[k] == a[k];
  }

  /** In `a:b`, the trailing spaces of `b` are the ones the strip removes at
      the back. */
  lemma SpacesAfterColon(x: string, a: string, b: string, j: nat, e: nat)
    requires x == a + ":" + b && j == |b| - TrailingSpaces(b) && e == |a| + 1 + j
    ensures |a| < e <= |x|
    ensures forall k :: e <= k < |x| ==> IsSpace(x[k])
    ensures !IsSpace(x[e - 1])
  {
    assert x[e - 1] == if j > 0 then b[j - 1] else ':';
    assert forall k :: e <= k < |x| ==> x[k] == b[k - |a| - 1];
  }

  lemma SliceAroundColon(a: string, b: string, i: nat, j: nat)
    requires i <= |a| && j <= |b|
    ensures (a + ":" + b)[i..|a| + 1 + j] == a[i..] + ":" + b[..j]
  {
    var x := a + ":" + b;
    var y := a[i..] + ":" + b[..j];
    assert |x[i..|a| + 1 + j]| == |y|;
    forall k | 0 <= k < |y| ensures x[i..|a| + 1 + j][k] == y[k] {
      if k < |a| - i {
        assert y[k] == a[i + k];
      } else if k > |a| - i {
        assert y[k] == b[k - (|a| - i) - 1];
      }
    }
  }

  /** The first `:` splits `a:b` back into `a` and `b`. */
  lemma ColonSplitAt(a: string, b: string)
    requires ':' !in a
    ensures ColonSplit(a + ":" + b) == Some((a, b))
  {
    var text := a + ":" + b;
    SpanNotExact(text, ':', |a|);
    assert text[..|a|] == a;
    assert text[|a| + 1..] == b;
  }

  /** A paragraph `name: value` contributes the stripped, normalised name and
      the stripped, normalised rest, further colons included. */
  lemma LineSplit(a: string, b: string)
    requires ':' !in a
    ensures LineEntry(a + ":" + b) == Some((NormalizeVariableName(Strip(a)), NormalizeValue(Strip(b))))
  {
    var a' := a[LeadingSpaces(a)..];
    var b' := b[..|b| - TrailingSpaces(b)];
    StripAroundColon(a, b);
    SuffixAvoids(a, LeadingSpaces(a), ':');
    ColonSplitAt(a', b');
    StripAfterLeading(a);
    StripBeforeTrailing(b);
  }

  lemma SuffixAvoids(a: string, i: nat, c: char)
    requires i <= |a| && c !in a
    ensures c !in a[i..]
  {
    forall d | d in a[i..] ensures d != c {
      var k :| 0 <= k < |a[i..]| && a[i..][k] == d;
      assert a[i..][k] == a[i + k];
    }
  }

  /** A paragraph without `:` contributes nothing. */
  lemma LineWithoutColon(line: string)
    requires ':' !in line
    ensures LineEntry(line) == None
  {
    StripAvoids(line, ':');
  }

  /** Imported names map to the value of the last paragraph that names them:
      a later line with the same normalised name overwrites an earlier one. */
  lemma WordLastWins(lines: seq<string>, i: nat, name: string, value: string)
    requires i < |lines| && LineEntry(lines[i]) == Some((name, value))
    requires forall j :: i < j < |lines| ==> LineEntry(lines[j]).None? || LineEntry(lines[j]).value.0 != name
    ensures Get(Collect(LineEntries(lines)), name) == Some(value)
  {
    CollectLast(LineEntries(lines), name, i);
  }
}
