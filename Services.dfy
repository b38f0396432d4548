/** `CartaManifestacionService`: the orchestration layer of the letter
    application. It reads an uploaded file of bindings and splits it into
    variables and conditionals, checks the required fields, fills the
    variables the template needs and runs the generator, and works out which
    variables the active conditions still require. */
module Services {
  import opened Wrappers
  import opened Strings
  import opened Dicts
  import opened DocumentModel
  import opened FileParsers
  import opened Generator

  // ---------------------------------------------------------------------------
  // Constants
  // ---------------------------------------------------------------------------

  /** `REQUIRED_FIELDS`, in the order the error message lists them. */
  const RequiredFields: seq<string> := ["Nombre_Cliente", "Direccion_Oficina", "CP", "Ciudad_Oficina"]

  /** `CONDITIONAL_VARS_MAP`: each conditional and the variables that only
      matter when it holds. */
  const ConditionalVarsMap: seq<(string, seq<string>)> := [
    ("incorreccion", ["Anio_incorreccion", "Epigrafe", "detalle_limitacion"]),
    ("experto", ["nombre_experto", "experto_valoracion"]),
    ("activo_impuesto", ["ejercicio_recuperacion_inicio", "ejercicio_recuperacion_fin"]),
    ("operacion_fiscal", ["detalle_operacion_fiscal"]),
    ("unidad_decision", ["nombre_unidad", "nombre_mayor_sociedad", "localizacion_mer"])
  ]

  /** The postal data of an office (`Direccion_Oficina`, `CP`, `Ciudad_Oficina`). */
  datatype Office = Office(address: string, postcode: string, city: string)

  const Personalizada: Office := Office("", "", "")

  /** `OFICINAS`. */
  const Offices: Dict<string, Office> := [
    ("ALICANTE", Office("Pintor Cabrera 22, esc. B, planta 4 A", "03003", "Alicante")),
    ("BARCELONA", Office("C/ Diputaci\U{00F3}, 260", "08007", "Barcelona")),
    ("BILBAO", Office("C/ Rodr\U{00ED}guez Arias, 23, planta 6\U{00AA}, Dpto. 12", "48011", "Bilbao")),
    ("MADRID (Alcal\U{00E1} 63)", Office("C/ Alcal\U{00E1}, 63", "28014", "Madrid")),
    ("MADRID (Alcal\U{00E1} 61-3\U{00AA})", Office("C/ Alcal\U{00E1}, 61, Planta 3\U{00AA}", "28014", "Madrid")),
    ("M\U{00C1}LAGA", Office("Pirandello n\U{00BA} 6 portal 3, planta 6\U{00AA}, puerta 4\U{00AA}", "29010", "M\U{00E1}laga")),
    ("VALENCIA", Office("C/ F\U{00E9}lix Pizcueta, 4 \U{2013} 4\U{00BA}", "46004", "Valencia")),
    ("VIGO", Office("C/ Rep\U{00FA}blica Argentina, 25 \U{2013} 1\U{00BA} Izda", "36201", "Vigo")),
    ("PERSONALIZADA", Personalizada)
  ]

  const UnsupportedError: string := "Tipo de archivo no soportado: "
  const MissingFieldsError: string := "Por favor completa los siguientes campos obligatorios: "
  const GenerationError: string := "Error al generar la carta: "

  // ---------------------------------------------------------------------------
  // Offices
  // ---------------------------------------------------------------------------

  /** `get_office_data(office_name)`: the named office, or the blank
      `PERSONALIZADA` entry for a name that is not an office. */
  function GetOfficeData(name: string): (r: Office)
    ensures Get(Offices, name).Some? ==> r == Get(Offices, name).value
    ensures Get(Offices, name).None? ==> r == Personalizada
    ensures Get(Offices, name).None? ==> r.address == "" && r.postcode == "" && r.city == ""
  {
    GetOr(Offices, name, Personalizada)
  }

  /** The fallback is the table's own `PERSONALIZADA` entry. */
  lemma PersonalizadaListed()
    ensures Get(Offices, "PERSONALIZADA") == Some(Personalizada)
  {
    assert Valid(Offices);
    GetAt(Offices, |Offices| - 1);
  }

  // ---------------------------------------------------------------------------
  // Uploaded bindings
  // ---------------------------------------------------------------------------

  /** An uploaded file as each reader sees it: the spreadsheet, or the
      paragraph texts of the document, or the error the reader raises. */
  datatype Upload = Upload(sheet: Result<Sheet, string>, paragraphs: Result<seq<string>, string>)

  /** The imported bindings for a file type: the spreadsheet importer for
      `excel`, the document importer for `word`, an error for any other type. */
  function Imported(fileType: string, file: Upload): (r: Result<Dict<string, string>, string>)
    ensures r.Success? ==> Valid(r.value)
  {
    if fileType == "excel" then
      match file.sheet
      case Failure(e) => Failure(ExcelError + e)
      case Success(s) => Success(if s.columns < 2 then [] else Collect(RowEntries(s.rows)))
    else if fileType == "word" then
      match file.paragraphs
      case Failure(e) => Failure(WordError + e)
      case Success(lines) => Success(Collect(LineEntries(lines)))
    else Failure(UnsupportedError + fileType)
  }

  /** The entries that go to the variables: those whose key is not a
      conditional. */
  function VarEntries(data: Dict<string, string>, conditionals: seq<string>): (es: seq<Option<(string, string)>>)
    ensures |es| == |data|
    ensures forall k :: 0 <= k < |data| ==> es[k] == if data[k].0 in conditionals then None else Some(data[k])
  {
    seq(|data|, k requires 0 <= k < |data| => if data[k].0 in conditionals then None else Some(data[k]))
  }

  /** The entries that go to the conditionals. */
  function CondEntries(data: Dict<string, string>, conditionals: seq<string>): (es: seq<Option<(string, string)>>)
    ensures |es| == |data|
    ensures forall k :: 0 <= k < |data| ==> es[k] == if data[k].0 in conditionals then Some(data[k]) else None
  {
    seq(|data|, k requires 0 <= k < |data| => if data[k].0 in conditionals then Some(data[k]) else None)
  }

  /** The loop of `process_uploaded_file` that splits the imported bindings. */
  method Partition(data: Dict<string, string>, conditionals: seq<string>) returns (vars: Dict<string, string>, conds: Dict<string, string>)
    ensures vars == Collect(VarEntries(data, conditionals))
    ensures conds == Collect(CondEntries(data, conditionals))
  {
    vars, conds := [], [];
    var i := 0;
    while i < |data|
      invariant 0 <= i <= |data|
      invariant vars == Collect(VarEntries(data, conditionals)[..i])
      invariant conds == Collect(CondEntries(data, conditionals)[..i])
    {
      assert VarEntries(data, conditionals)[..i + 1][..i] == VarEntries(data, conditionals)[..i];
      assert CondEntries(data, conditionals)[..i + 1][..i] == CondEntries(data, conditionals)[..i];
      var (key, value) := data[i];
      if key in conditionals {
        conds := Put(conds, key, value);
      } else {
        vars := Put(vars, key, value);
      }
      i := i + 1;
    }
    assert VarEntries(data, conditionals)[..i] == VarEntries(data, conditionals);
    assert CondEntries(data, conditionals)[..i] == CondEntries(data, conditionals);
  }

  /** Every imported key lands in exactly one of the two dicts, with its
      imported value: conditionals in the second, everything else in the first. */
  lemma PartitionGet(data: Dict<string, string>, conditionals: seq<string>, k: string)
    requires Valid(data)
    ensures Get(Collect(VarEntries(data, conditionals)), k) == if k in conditionals then None else Get(data, k)
    ensures Get(Collect(CondEntries(data, conditionals)), k) == if k in conditionals then Get(data, k) else None
  {
    var ve := VarEntries(data, conditionals);
    var ce := CondEntries(data, conditionals);
    if i :| 0 <= i < |data| && data[i].0 == k {
      GetAt(data, i);
      assert forall j :: 0 <= j < |data| && j != i ==> data[j].0 != k;
      if k in conditionals {
        CollectAbsent(ve, k);
        assert LastFor(ce, i, k);
        CollectLast(ce, k, i);
      } else {
        CollectAbsent(ce, k);
        assert LastFor(ve, i, k);
        CollectLast(ve, k, i);
      }
    } else {
      assert k !in Keys(data);
      CollectAbsent(ve, k);
      CollectAbsent(ce, k);
    }
  }

  /** So no key is both a variable and a conditional. */
  lemma PartitionDisjoint(data: Dict<string, string>, conditionals: seq<string>, k: string)
    requires Valid(data)
    ensures Get(Collect(VarEntries(data, conditionals)), k).None? || Get(Collect(CondEntries(data, conditionals)), k).None?
  {
    PartitionGet(data, conditionals, k);
  }

  // ---------------------------------------------------------------------------
  // Generation
  // ---------------------------------------------------------------------------

  /** A required field counts as given when it is bound to a non-empty value. */
  predicate Given(vars: Dict<string, string>, field: string) {
    Get(vars, field).Some? && Get(vars, field).value != ""
  }

  /** The fields of `fields` that are not given, in their order. */
  function MissingFields(fields: seq<string>, vars: Dict<string, string>): (r: seq<string>)
    ensures forall x :: x in r <==> x in fields && !Given(vars, x)
    ensures |r| <= |fields|
  {
    if fields == [] then []
    else (if Given(vars, fields[0]) then [] else [fields[0]]) + MissingFields(fields[1..], vars)
  }

  /** The variables after every name of `names` that is not bound is bound to
      the empty string, one name after the other. */
  function Defaulted(vars: Dict<string, string>, names: seq<string>): (r: Dict<string, string>)
    ensures Valid(vars) ==> Valid(r)
  {
    if names == [] then vars
    else
      var d := Defaulted(vars, names[..|names| - 1]);
      var x := names[|names| - 1];
      if Get(d, x).Some? then d else Put(d, x, "")
  }

  /** A bound name keeps its value, an unbound name of `names` gets `""`,
      nothing else is bound. */
  lemma {:induction false} DefaultedGet(vars: Dict<string, string>, names: seq<string>, k: string)
    ensures Get(Defaulted(vars, names), k) ==
      if Get(vars, k).Some? then Get(vars, k) else if k in names then Some("") else None
  {
    if names != [] {
      var init := names[..|names| - 1];
      DefaultedGet(vars, init, k);
      assert names == init + [names[|names| - 1]];
    }
  }

  /** `Carta_Manifestacion_<client name, spaces as _>_<date>.docx`. */
  function FileName(client: string, today: string): (r: string)
    ensures |r| == 26 + |client| + |today|
    ensures r[..20] == "Carta_Manifestacion_" && r[|r| - 5..] == ".docx"
    ensures ' ' !in r[20..20 + |client|] && r[20 + |client|..|r| - 5] == "_" + today
    ensures forall k :: 0 <= k < |client| ==> r[20 + k] == (if client[k] == ' ' then '_' else client[k])
  {
    "Carta_Manifestacion_" + ReplaceChar(client, ' ', '_') + "_" + today + ".docx"
  }

  /** What `generate_document` returns: success, the generated document body,
      the file name and the error message. */
  datatype Generation = Generation(ok: bool, body: Option<seq<Block>>, filename: Option<string>, error: Option<string>)

  /** The caller's dict of variable values, which generation fills in place. */
  class Bindings {
    var items: Dict<string, string>

    constructor (items: Dict<string, string>)
      ensures this.items == items
    {
      this.items := items;
    }
  }

  /** The service holds the template it generates from (reading it from a path
      is not modelled). */
  class CartaService {
    const template: seq<Block>

    constructor (template: seq<Block>)
      ensures this.template == template
    {
      this.template := template;
    }

    /** `process_uploaded_file(file, file_type, variables, conditionals)`: the
        imported bindings split into variables and conditionals, or the
        importer's error, or the unsupported-type error. */
    method ProcessUploadedFile(file: Upload, fileType: string, conditionals: seq<string>)
      returns (r: Result<(Dict<string, string>, Dict<string, string>), string>)
      ensures Imported(fileType, file).Failure? ==> r == Failure(Imported(fileType, file).error)
      ensures Imported(fileType, file).Success? ==>
        var data := Imported(fileType, file).value;
        r == Success((Collect(VarEntries(data, conditionals)), Collect(CondEntries(data, conditionals))))
    {
      var data: Dict<string, string>;
      if fileType == "excel" {
        data :- ProcessExcelFile(file.sheet);
      } else if fileType == "word" {
        data :- ProcessWordFile(file.paragraphs);
      } else {
        return Failure(UnsupportedError + fileType);
      }
      var vars, conds := Partition(data, conditionals);
      r := Success((vars, conds));
    }

    /** `generate_document(var_values, cond_values, all_variables)`. With a
        required field missing or empty it fails with the list of missing
        fields and touches nothing. Otherwise every variable of
        `allVariables` that is not bound is bound to `""` in the caller's dict,
        and the template is generated with the variables overridden by the
        conditionals. `failure` is the error raised while loading the template
        or saving the result, if any; `today` is the date as `%Y%m%d`. */
    method GenerateDocument(vars: Bindings, conds: Dict<string, string>, allVariables: seq<string>,
                            today: string, failure: Option<string>)
      returns (g: Generation)
      modifies vars
      ensures var missing := MissingFields(RequiredFields, old(vars.items));
        missing != [] ==> g == Generation(false, None, None, Some(MissingFieldsError + Join(", ", missing))) && vars.items == old(vars.items)
      ensures MissingFields(RequiredFields, old(vars.items)) == [] ==> vars.items == Defaulted(old(vars.items), allVariables)
      ensures MissingFields(RequiredFields, old(vars.items)) == [] && failure.Some? ==>
        g == Generation(false, None, None, Some(GenerationError + failure.value))
      ensures MissingFields(RequiredFields, old(vars.items)) == [] && failure.None? ==>
        g == Generation(true, Some(Generated(template, Merge(vars.items, conds), conds)),
                        Some(FileName(Get(old(vars.items), "Nombre_Cliente").value, today)), None)
    {
      var missing := MissingFields(RequiredFields, vars.items);
      if missing != [] {
        return Generation(false, None, None, Some(MissingFieldsError + Join(", ", missing)));
      }
      assert "Nombre_Cliente" in RequiredFields;
      var i := 0;
      var client := Get(vars.items, "Nombre_Cliente").value;
      ghost var given := vars.items;
      while i < |allVariables|
        invariant 0 <= i <= |allVariables|
        invariant vars.items == Defaulted(given, allVariables[..i])
      {
        assert allVariables[..i + 1][..i] == allVariables[..i];
        if Get(vars.items, allVariables[i]).None? {
          vars.items := Put(vars.items, allVariables[i], "");
        }
        i := i + 1;
      }
      assert allVariables[..i] == allVariables;
      if failure.Some? {
        return Generation(false, None, None, Some(GenerationError + failure.value));
      }
      var allVars := Merge(vars.items, conds);
      var generator := new CartaGenerator(template);
      var doc := generator.ProcessTemplate(allVars, conds);
      g := Generation(true, Some(doc.body), Some(FileName(client, today)), None);
    }

    /** `calculate_required_variables(all_variables, cond_values)`: the
        variables, minus the list of every conditional that is `'no'` or not
        bound. */
    method CalculateRequiredVariables(allVariables: seq<string>, condValues: Dict<string, string>) returns (r: set<string>)
      ensures r == RequiredVariables(allVariables, condValues)
    {
      r := set x | x in allVariables;
      var i := 0;
      while i < |ConditionalVarsMap|
        invariant 0 <= i <= |ConditionalVarsMap|
        invariant r == set x | x in allVariables && KeptBy(condValues, x, i)
      {
        var (cond, vlist) := ConditionalVarsMap[i];
        if GetOr(condValues, cond, "no") == "no" {
          r := r - set v | v in vlist;
        }
        i := i + 1;
      }
    }
  }

  // ---------------------------------------------------------------------------
  // Required variables
  // ---------------------------------------------------------------------------

  /** The conditional is off: bound to `'no'`, or not bound at all. */
  predicate Off(condValues: Dict<string, string>, cond: string) {
    GetOr(condValues, cond, "no") == "no"
  }

  /** No conditional among the first `n` entries of the map that is off lists
      the variable. */
  predicate KeptBy(condValues: Dict<string, string>, x: string, n: nat) {
    forall j :: 0 <= j < n && j < |ConditionalVarsMap| ==>
      !(Off(condValues, ConditionalVarsMap[j].0) && x in ConditionalVarsMap[j].1)
  }

  function RequiredVariables(allVariables: seq<string>, condValues: Dict<string, string>): set<string> {
    set x | x in allVariables && KeptBy(condValues, x, |ConditionalVarsMap|)
  }

  /** A variable listed under a conditional that is off is not required. */
  lemma NotRequiredWhenOff(allVariables: seq<string>, condValues: Dict<string, string>, j: nat, x: string)
    requires j < |ConditionalVarsMap| && Off(condValues, ConditionalVarsMap[j].0) && x in ConditionalVarsMap[j].1
    ensures x !in RequiredVariables(allVariables, condValues)
  {
  }

  /** With every conditional of the map bound to anything but `'no'` (`'sí'`
      included), every variable is required. */
  lemma AllRequiredWhenOn(allVariables: seq<string>, condValues: Dict<string, string>)
    requires forall j :: 0 <= j < |ConditionalVarsMap| ==> !Off(condValues, ConditionalVarsMap[j].0)
    ensures RequiredVariables(allVariables, condValues) == set x | x in allVariables
  {
  }

  /** An unbound `experto` drops the expert's variables. */
  lemma ExpertoUnbound(allVariables: seq<string>, condValues: Dict<string, string>)
    requires Get(condValues, "experto").None?
    ensures "nombre_experto" !in RequiredVariables(allVariables, condValues)
    ensures "experto_valoracion" !in RequiredVariables(allVariables, condValues)
  {
    NotRequiredWhenOff(allVariables, condValues, 1, "nombre_experto");
    NotRequiredWhenOff(allVariables, condValues, 1, "experto_valoracion");
  }
}
