# Automation suite: the contract-letter generator and the portal backend, in Dafny

This project models the core of an automation suite made of two parts.

**The "Carta de Manifestación" app.** It fills a Word template with
client data to produce a representation letter:
- `CartaManifestacionGenerator` is a template engine over the body of a
  document. It extracts the placeholder and conditional names a template
  uses. It deletes the top-level blocks between `{% if NAME == 'sí' %}`
  and `{% endif %}` when `NAME` is off. It rewrites inline conditionals
  and `{{...}}` placeholders in every paragraph and table cell, and keeps
  body paragraph formatting across a rewrite. It renumbers `1.` / `a.`
  points and clears underlines.
- `file_parsers` imports bindings from a spreadsheet (two columns) or a
  document (`name: value` lines), normalising names and yes/no values.
- `CartaService` splits the imported bindings into variables and
  conditionals, checks the required fields, fills defaults, merges the
  bindings, builds the output file name, computes which variables a set of
  conditionals requires, and looks up office addresses.

**The portal backend.** It serves a catalog of apps:
- An in-memory TTL cache.
- The availability of an app under its schedule window, and the public
  catalog read through the cache.
- The admin operations on the app table and the schedule table, each of
  which invalidates the cached catalog.
- Seeding the app table from a registry.
- A per-client sliding-window rate limiter.
- The usage statistics: per-app totals and a gap-filled daily series.

Documents are datatypes:
- A block is a paragraph (runs with text and optional bold, italic,
  underline, font name, size and colour), a table (rows of cells of
  paragraphs), or another element.
- Python dicts are insertion-ordered sequences of pairs with distinct keys
  (`Dicts.Dict`). A map is used where order cannot be observed.
- Every regular expression the engine uses is a hand-written scanner with
  the same matching rule (leftmost, shortest or greedy, as the pattern
  says). Names put into a pattern are matched literally; see "Left out"
  for the conditional names the source does not escape.
- The stages that change a document in place are methods on a `Document`
  object, proved against functions on the block sequence.
- The cache, the app table and the rate limiter are classes whose methods
  change their fields.
- Clocks, file contents, query results and the password checker are
  parameters.

Where the specification and the code differ, the model follows the code:
- `{{ x | int - 1 }}` is replaced by the raw value of `x`, not by the value
  minus one. The guard at document_processor.py:206 looks for the text
  `|int - 1` in the regular expression source, which always spells that
  filter with escapes and `\s*`, so the guard never fires. This is proved
  as `InlineVariables.GuardNeverFires`.
- `delete_app` does not delete the app's schedules. The bulk delete
  bypasses the ORM cascade, and SQLite leaves foreign keys unenforced.

## Model

| member | source | states |
|---|---|---|
| Extractor.VarCaptures | apps/app_carta_manifestacion/app/domain/document_processor.py:43 | each capture of `\{\{([^}]+)\}\}` is non-empty and holds no `}` |
| Extractor.PlaceholderCapture | apps/app_carta_manifestacion/app/domain/document_processor.py:43 | a text that is exactly `{{x}}` yields the single capture `x` |
| Extractor.CondAt | apps/app_carta_manifestacion/app/domain/document_processor.py:58 | a match of `\{%\s*if\s+(\w+)\s*==` captures a non-empty run of word characters and consumes at least one character |
| Extractor.CondCaptures | apps/app_carta_manifestacion/app/domain/document_processor.py:58 | every conditional captured is a non-empty name |
| Extractor.BeforeFirst | apps/app_carta_manifestacion/app/domain/document_processor.py:50 | `s.split(c)[0]` is a prefix of `s` without `c` |
| Extractor.VarName | apps/app_carta_manifestacion/app/domain/document_processor.py:46-55 | a name kept from a capture never starts with `%`, holds no `\|`, and is stripped |
| Extractor.VarNamesIn | apps/app_carta_manifestacion/app/domain/document_processor.py:44-55 | no collected name starts with `%` or contains `\|` |
| Extractor.Insert | apps/app_carta_manifestacion/app/domain/document_processor.py:83 | inserting into a strictly ascending list keeps it strictly ascending and adds exactly the new element |
| Extractor.ExtractVariables | apps/app_carta_manifestacion/app/domain/document_processor.py:28-83 | both lists are strictly ascending, and their elements are exactly the variable and conditional names found in the body paragraphs and table cells |
| Extractor.SortedUnique | apps/app_carta_manifestacion/app/domain/document_processor.py:83 | two strictly ascending lists with the same elements are equal, so `sorted(set)` is determined by the set |
| BlockEliminator.OpenerName | apps/app_carta_manifestacion/app/domain/document_processor.py:106-108 | a block opener matched at the start of the text yields a non-empty word name that follows `{% if ` |
| BlockEliminator.OpenerRoundTrip | apps/app_carta_manifestacion/app/domain/document_processor.py:106 | `{% if NAME == 'sí' %}` is recognised with name NAME |
| BlockEliminator.CloserIsNotOpener | apps/app_carta_manifestacion/app/domain/document_processor.py:106-117 | an `{% endif %}` text is never an opener |
| BlockEliminator.StripConditionalBlocks | apps/app_carta_manifestacion/app/domain/document_processor.py:85-129 | the body becomes the blocks whose mark is false, in order |
| BlockEliminator.MarkersDeleted | apps/app_carta_manifestacion/app/domain/document_processor.py:106-121 | every opener or closer paragraph is deleted, whatever the bindings and the text after the marker |
| BlockEliminator.MarksIndex | apps/app_carta_manifestacion/app/domain/document_processor.py:99-125 | each block's decision is the step taken from the `inside_remove` state the blocks before it leave |
| BlockEliminator.MarksAppend | apps/app_carta_manifestacion/app/domain/document_processor.py:99-125 | scanning a concatenation scans the first part, then the second from the state the first leaves |
| BlockEliminator.MarkerFreeMarks | apps/app_carta_manifestacion/app/domain/document_processor.py:123-125 | between markers every block gets the current removal flag |
| BlockEliminator.NoMarkersUnchanged | apps/app_carta_manifestacion/app/domain/document_processor.py:99-129 | a body without markers is left as it is |
| BlockEliminator.Region | apps/app_carta_manifestacion/app/domain/document_processor.py:99-129 | an opener...closer region loses its markers, and loses its inner blocks (tables and other elements too) unless the name is bound to `sí`; the blocks around it keep their order |
| BlockEliminator.Unclosed | apps/app_carta_manifestacion/app/domain/document_processor.py:109-125 | an opener that is off, followed by no closer, deletes every block after it, later openers included |
| InlineConditionals.TagAt | apps/app_carta_manifestacion/app/domain/document_processor.py:242 | a `\{%[^%]*%\}` match spans at least four characters |
| InlineConditionals.ProcessConditionals | apps/app_carta_manifestacion/app/domain/document_processor.py:224-244 | for each binding in order, the marked then the plain `if` sections are substituted, then remaining tags are removed |
| InlineConditionals.SectionReplaced | apps/app_carta_manifestacion/app/domain/document_processor.py:228-239 | a delimited section is replaced by its content when kept and deleted otherwise, whenever no closing delimiter starts inside the content |
| InlineConditionals.FirstClose | apps/app_carta_manifestacion/app/domain/document_processor.py:228-235 | when no closing delimiter starts inside the content, the shortest match ends at the closing written after it |
| InlineConditionals.MarkedSection | apps/app_carta_manifestacion/app/domain/document_processor.py:228-232 | `[{% if N == 'sí' %}].mark X [{% endif %}].mark` becomes X under `sí` and nothing otherwise, for every X in which no `[{% endif %}].mark` starts before the end |
| InlineConditionals.PlainSection | apps/app_carta_manifestacion/app/domain/document_processor.py:235-239 | `{% if N == 'sí' %}X{% endif %}` becomes X under `sí` and nothing otherwise, for every X in which no `{% endif %}` starts before the end |
| InlineConditionals.PercentFreeSections | apps/app_carta_manifestacion/app/domain/document_processor.py:228-239 | a content without `%`, such as `Dear {{name}}`, is never cut short by either section pattern |
| InlineConditionals.TagRemoved | apps/app_carta_manifestacion/app/domain/document_processor.py:242 | a leftover `{%...%}` without `%` inside is deleted |
| InlineConditionals.NoBraceUnchanged | apps/app_carta_manifestacion/app/domain/document_processor.py:224-244 | text without `{` passes through the conditional stage unchanged |
| InlineVariables.ListaAt | apps/app_carta_manifestacion/app/domain/document_processor.py:184-185 | a list placeholder match ends after its start and within the text |
| InlineVariables.ReplaceListas | apps/app_carta_manifestacion/app/domain/document_processor.py:184-192 | splicing the matches last to first equals replacing every match left to right |
| InlineVariables.ListaFilled | apps/app_carta_manifestacion/app/domain/document_processor.py:188-192 | `{{lista_alto_directores:...}}` becomes the bound list value |
| InlineVariables.GuardNeverFires | apps/app_carta_manifestacion/app/domain/document_processor.py:199-206 | no pattern source contains `\|int - 1`, so the decrement branch is dead |
| InlineVariables.ReplacementIsValue | apps/app_carta_manifestacion/app/domain/document_processor.py:205-212 | every placeholder form is replaced by the raw value |
| InlineVariables.ScalarAt | apps/app_carta_manifestacion/app/domain/document_processor.py:199-203 | a placeholder match spans at least `{{}}` |
| InlineVariables.ReplaceScalars | apps/app_carta_manifestacion/app/domain/document_processor.py:194-214 | each binding except the list substitutes its three placeholder forms, in binding order |
| InlineVariables.PlaceholderMatch | apps/app_carta_manifestacion/app/domain/document_processor.py:199-203 | `{{ NAME }}`, `{{ NAME \| int }}` and `{{ NAME \| int - 1 }}` are each matched whole, for every run of whitespace (empty included) in each `\s*` gap |
| InlineVariables.TightMatch | apps/app_carta_manifestacion/app/domain/document_processor.py:199-203 | the unspaced form `{{NAME}}` (and its filter forms) is matched whole for every name |
| InlineVariables.PlaceholderFilled | apps/app_carta_manifestacion/app/domain/document_processor.py:199-214 | each of the three forms, with any whitespace in its gaps, becomes the bound value |
| InlineVariables.LeftoverAt | apps/app_carta_manifestacion/app/domain/document_processor.py:217 | a leftover `[?{{...}}]?` match spans at least four characters |
| InlineVariables.LeftoverRemoved | apps/app_carta_manifestacion/app/domain/document_processor.py:217 | an unfilled `{{x}}` is deleted |
| InlineVariables.BracketedLeftoverRemoved | apps/app_carta_manifestacion/app/domain/document_processor.py:217 | an unfilled `[{{x}}]` is deleted with its brackets |
| InlineVariables.RemoveMarksAbsent | apps/app_carta_manifestacion/app/domain/document_processor.py:218-220 | text without `.mark` is not touched by the mark clean-up |
| InlineVariables.ReplaceVariables | apps/app_carta_manifestacion/app/domain/document_processor.py:178-222 | the result is conditionals, then lists, then scalars, then leftovers, then marks, applied in that order |
| InlineVariables.PlainTextUnchanged | apps/app_carta_manifestacion/app/domain/document_processor.py:178-244 | text without `{` and without `.mark` is returned unchanged |
| Formatting.SaveParagraphFormat | apps/app_carta_manifestacion/app/domain/document_processor.py:246-265 | the saved format has the paragraph's alignment, style and one entry per run with that run's attributes |
| Formatting.RestoreParagraphFormat | apps/app_carta_manifestacion/app/domain/document_processor.py:267-292 | alignment and style are re-applied only when truthy; run k takes saved format k up to the shorter list; colour is never restored |
| Formatting.RestoresUnique | apps/app_carta_manifestacion/app/domain/document_processor.py:267-292 | the restored paragraph is determined by the paragraph and the saved format |
| Formatting.RestoreSaved | apps/app_carta_manifestacion/app/domain/document_processor.py:246-292 | restoring a paragraph's own saved format gives the paragraph back |
| Formatting.RestoreAfterRewrite | apps/app_carta_manifestacion/app/domain/document_processor.py:152-160 | after a rewrite the single run carries the new text and the first original run's bold, italic and underline, with the original alignment and style |
| Numbering.MainRest | apps/app_carta_manifestacion/app/domain/document_processor.py:304 | a numbered-point match yields a non-empty rest without newline |
| Numbering.SubRest | apps/app_carta_manifestacion/app/domain/document_processor.py:311 | a lettered-point match yields a non-empty rest without newline |
| Numbering.MainNotSub | apps/app_carta_manifestacion/app/domain/document_processor.py:304-311 | a numbered point is never also a lettered point |
| Numbering.FixNumbering | apps/app_carta_manifestacion/app/domain/document_processor.py:294-319 | the body becomes the renumbered body, one block per block |
| Numbering.NumberedPoint | apps/app_carta_manifestacion/app/domain/document_processor.py:300-309 | the k-th numbered paragraph becomes `k. rest` |
| Numbering.LetteredPoint | apps/app_carta_manifestacion/app/domain/document_processor.py:310-319 | a lettered paragraph gets the letter counting the lettered points since the last numbered one |
| Numbering.NotAPoint | apps/app_carta_manifestacion/app/domain/document_processor.py:300-319 | every other block is left as it is |
| Numbering.MainRoundTrip | apps/app_carta_manifestacion/app/domain/document_processor.py:304-308 | `n. rest` is recognised with that rest |
| Numbering.SubRoundTrip | apps/app_carta_manifestacion/app/domain/document_processor.py:311-315 | `c. rest` is recognised with that rest |
| Generator.RewriteBodyParagraphs | apps/app_carta_manifestacion/app/domain/document_processor.py:146-160 | non-blank body paragraphs whose text changes are rewritten with their format restored; all else stays |
| Generator.RewriteTables | apps/app_carta_manifestacion/app/domain/document_processor.py:162-171 | non-blank cell paragraphs whose text changes get the new text; all else stays |
| Generator.RemoveUnderlines | apps/app_carta_manifestacion/app/domain/document_processor.py:321-334 | every run in body paragraphs and table cells gets underline off |
| Generator.CartaGenerator.ProcessTemplate | apps/app_carta_manifestacion/app/domain/document_processor.py:131-176 | a fresh document holding the template after every stage in order |
| Generator.GeneratedHasNoUnderlines | apps/app_carta_manifestacion/app/domain/document_processor.py:174-175 | no run of the output is underlined |
| Generator.NoUnderlineKeepsText | apps/app_carta_manifestacion/app/domain/document_processor.py:321-334 | clearing underlines does not change any text |
| Generator.BodyParagraphText | apps/app_carta_manifestacion/app/domain/document_processor.py:147-160 | a body paragraph's new text is the rewritten text |
| Generator.CellParagraphText | apps/app_carta_manifestacion/app/domain/document_processor.py:166-171 | a cell paragraph's new text is the rewritten text |
| Generator.GeneratedShape | apps/app_carta_manifestacion/app/domain/document_processor.py:144-176 | after the block pass the blocks are kept one for one and of the same kind |
| FileParsers.NormalizeValueIdempotent | apps/app_carta_manifestacion/app/domain/file_parsers.py:16-30 | the result is `sí`, `no` or the input, and normalising twice equals once |
| FileParsers.NormalizeValueSpellings | apps/app_carta_manifestacion/app/domain/file_parsers.py:26-30 | `si`, `Si`, `SÍ`, `sí`, `1` give `sí`; `No`, `nO`, `0` give `no`; other values are kept |
| FileParsers.Folded | apps/app_carta_manifestacion/app/domain/file_parsers.py:43 | each character is lowered and has its acute accent dropped, in place |
| FileParsers.NormalizeVariableNameIdempotent | apps/app_carta_manifestacion/app/domain/file_parsers.py:43-48 | the result is a mapped name or the original, and normalising twice equals once |
| FileParsers.NormalizeVariableNameSpellings | apps/app_carta_manifestacion/app/domain/file_parsers.py:43-48 | `Comisión` and `comision` give `comision`; `Órgano` gives `organo` |
| FileParsers.ColonSplit | apps/app_carta_manifestacion/app/domain/file_parsers.py:116 | the text splits at its first `:` and the split reassembles it; no split exactly when there is no `:` |
| FileParsers.LineSplit | apps/app_carta_manifestacion/app/domain/file_parsers.py:113-125 | a line `a:b` gives the normalised stripped `a` and the normalised stripped `b`, later colons kept |
| FileParsers.LineWithoutColon | apps/app_carta_manifestacion/app/domain/file_parsers.py:114 | a line without `:` contributes nothing |
| FileParsers.ProcessWordFile | apps/app_carta_manifestacion/app/domain/file_parsers.py:95-132 | the bindings are the line entries collected in order; a reader failure becomes one error with the Word prefix |
| FileParsers.WordLastWins | apps/app_carta_manifestacion/app/domain/file_parsers.py:127 | a later line with the same normalised name overwrites an earlier one |
| FileParsers.ProcessExcelFile | apps/app_carta_manifestacion/app/domain/file_parsers.py:51-92 | fewer than two columns give no bindings; otherwise the row entries collected in order; a reader failure becomes one error with the Excel prefix |
| Services.GetOfficeData | apps/app_carta_manifestacion/app/services.py:209-219 | a listed office gives its entry; any other name gives the blank `PERSONALIZADA` entry |
| Services.PersonalizadaListed | apps/app_carta_manifestacion/app/domain/constants.py:49-53 | the fallback is the table's own `PERSONALIZADA` entry |
| Services.Imported | apps/app_carta_manifestacion/app/services.py:92-97 | `excel` and `word` dispatch to their readers, any other type fails; imported bindings have distinct keys |
| Services.Partition | apps/app_carta_manifestacion/app/services.py:99-109 | the loop yields the variable entries and the conditional entries, in order |
| Services.PartitionGet | apps/app_carta_manifestacion/app/services.py:100-109 | a key listed as conditional is found only among the conditionals, any other key only among the variables, with its imported value |
| Services.PartitionDisjoint | apps/app_carta_manifestacion/app/services.py:100-109 | no key lands in both |
| Services.CartaService.ProcessUploadedFile | apps/app_carta_manifestacion/app/services.py:73-109 | the import's error is passed on; otherwise the result is the partition of the import |
| Services.MissingFields | apps/app_carta_manifestacion/app/services.py:129-131 | a field is reported exactly when it is required and absent or empty |
| Services.Defaulted | apps/app_carta_manifestacion/app/services.py:137-139 | filling defaults keeps the keys distinct |
| Services.DefaultedGet | apps/app_carta_manifestacion/app/services.py:137-139 | a name already bound keeps its value, a listed unbound name gets `""`, any other key is unchanged |
| Services.FileName | apps/app_carta_manifestacion/app/services.py:154 | `Carta_Manifestacion_` + the client name with each space turned into `_` + `_` + date + `.docx` |
| Services.CartaService.GenerateDocument | apps/app_carta_manifestacion/app/services.py:111-159 | missing fields fail with the list in required order and change nothing; otherwise defaults are filled in place, the merged bindings (conditionals win) generate the letter and the file name, and a generation failure yields the error message |
| Services.CartaService.CalculateRequiredVariables | apps/app_carta_manifestacion/app/services.py:161-182 | the loop yields every variable not listed under a conditional that is `no` or absent |
| Services.NotRequiredWhenOff | apps/app_carta_manifestacion/app/services.py:176-180 | a variable listed under a conditional that is off is never required |
| Services.AllRequiredWhenOn | apps/app_carta_manifestacion/app/services.py:176-182 | with every conditional on (any value but `no`), all variables are required |
| Services.ExpertoUnbound | apps/app_carta_manifestacion/app/domain/constants.py:70 | an absent `experto` drops its two variables |
| Cache.NewEntry | backend/app/utils/cache.py:13-22 | an entry is still live at set time + ttl and expired one second later |
| Cache.Live | backend/app/utils/cache.py:85-93 | the live entries are exactly those not expired, with their values |
| Cache.TTLCache.Get | backend/app/utils/cache.py:36-55 | answers a live value; an expired key is deleted; otherwise nothing changes |
| Cache.TTLCache.Set | backend/app/utils/cache.py:57-67 | replaces the key's entry, other keys keep theirs |
| Cache.TTLCache.Delete | backend/app/utils/cache.py:69-78 | removes the key when present, no-op otherwise |
| Cache.TTLCache.Clear | backend/app/utils/cache.py:80-83 | empties the cache |
| Cache.TTLCache.CleanupExpired | backend/app/utils/cache.py:85-93 | exactly the live entries remain |
| Cache.LookupAfterSet | backend/app/utils/cache.py:57-67 | after set, the key answers its value up to set time + ttl and nothing after; other keys answer as before |
| Cache.ExpiryUnobservable | backend/app/utils/cache.py:47-55 | deleting expired entries never changes what a lookup answers |
| Cache.DeleteIdempotent | backend/app/utils/cache.py:76-78 | deleting twice is deleting once |
| AppService.Out | backend/app/services/app_service.py:50-56 | the reported app carries the app's id and name and the given password flag |
| AppService.IsAppAvailable | backend/app/services/app_service.py:64-93 | available exactly when enabled and every schedule window holds `now`, both bounds inclusive |
| AppService.CatalogMembers | backend/app/services/app_service.py:42-56 | an app is in the catalog exactly when it is available, reporting a password exactly when it has a hash |
| AppService.CatalogLength | backend/app/services/app_service.py:48-56 | the catalog lists no more apps than the query returned |
| AppService.AvailableApps | backend/app/services/app_service.py:48-56 | the loop builds the catalog in query order |
| AppService.GetPublicCatalog | backend/app/services/app_service.py:21-61 | a cache hit is returned without change; a miss builds the catalog and stores it under `public_catalog` with the ttl |
| AppService.InvalidateCatalogCache | backend/app/services/app_service.py:96-98 | only the catalog key is removed |
| Registry.Created | backend/app/routers/apps.py:166-176 | a created app has the requested id and no password hash |
| Registry.AppTable.CheckAppAccess | backend/app/routers/apps.py:79-110 | unknown id is 404; non-password mode or no hash grants; otherwise the checker's answer |
| Registry.AppTable.CreateApp | backend/app/routers/apps.py:141-177 | an existing id fails with 400 and changes nothing; otherwise the app is inserted, reported without password, and the catalog invalidated |
| Registry.AppTable.UpdateApp | backend/app/routers/apps.py:181-221 | unknown id is 404; an explicit null for `name`, `path`, `enabled` or `access_mode` fails the commit with a server error and changes neither the table nor the cache; otherwise only the given fields change and the catalog is invalidated |
| Registry.UpdateFields | backend/app/routers/apps.py:197-210 | for a committable request, each field takes the request's value when given (null included, for the nullable columns) and keeps its own otherwise |
| Registry.UpdateIdempotent | backend/app/routers/apps.py:197-210 | applying the same update twice equals once |
| Registry.AppTable.DeleteApp | backend/app/routers/apps.py:225-248 | unknown id is 404; otherwise the id is gone, schedules are kept, and the catalog is invalidated |
| Registry.AppTable.SetAppPassword | backend/app/routers/apps.py:252-290 | unknown id is 404; otherwise the hash is stored, the mode becomes password, and the catalog is invalidated |
| Registry.AppTable.RemoveAppPassword | backend/app/routers/apps.py:294-329 | unknown id is 404; otherwise the hash is cleared, password mode becomes public, and the catalog is invalidated |
| Registry.PasswordModeWithoutHashIsOpen | backend/app/routers/apps.py:102-110 | an app switched to password mode without a hash still grants access |
| Registry.SetPasswordGuards | backend/app/routers/apps.py:102-110 | after a password is set, access is the checker's answer for that hash |
| Registry.RemovePasswordOpens | backend/app/routers/apps.py:308-322 | after removal access is granted, removal is idempotent, and public or sso modes are kept |
| Registry.SetThenRemove | backend/app/routers/apps.py:268-322 | setting then removing a password leaves the app public with no hash |
| Registry.AppTable.GetAppSchedule | backend/app/routers/schedules.py:53-83 | unknown app is 404; otherwise the app's schedule or none |
| Registry.AppTable.CreateOrUpdateSchedule | backend/app/routers/schedules.py:87-138 | unknown app is 404; an existing schedule is overwritten under its id; otherwise one new schedule with a new id; the catalog is invalidated |
| Registry.AppTable.DeleteSchedule | backend/app/routers/schedules.py:142-165 | no schedule is 404; otherwise the app has no schedule and the catalog is invalidated |
| Registry.AppTable.SeedApps | backend/app/main.py:69-120 | a non-empty table or no registry leaves the table; otherwise every entry is inserted when all are complete and distinct, or nothing is |
| Registry.SeededAppsGet | backend/app/main.py:105-115 | a seeded app has the entry's fields, tags joined by `,`, public mode and enabled defaulting to true |
| Registry.SeededAppsKeys | backend/app/main.py:104-116 | exactly the registry's ids are seeded |
| RateLimit.Recent | backend/app/main.py:176-179 | the kept instants are all within the window and no more than before |
| RateLimit.RecentMembers | backend/app/main.py:176-179 | an instant is kept exactly when it was stored and is within the window |
| RateLimit.RecentOrdered | backend/app/main.py:176-179 | kept instants stay in order |
| RateLimit.RecentIdempotent | backend/app/main.py:176-179 | cutting twice at the same instant is cutting once |
| RateLimit.RateLimiter.Admit | backend/app/main.py:157-191 | disabled or unguarded paths pass untouched; otherwise the client's instants are cut, refused at the limit without recording, else recorded; no stored list exceeds the limit; other clients unchanged |
| Stats.GetStatsSummary | backend/app/routers/stats.py:53-112 | days outside 1..365 fail; otherwise the apps with counts in order with their sums, and the total over all apps |
| Stats.ListedMembers | backend/app/routers/stats.py:100-106 | an app is listed exactly when it has a count row, with its own sum |
| Stats.TotalIsSumOfListed | backend/app/routers/stats.py:77-98 | the summary total is the sum of the listed totals |
| Stats.GetAppTimeSeries | backend/app/routers/stats.py:116-182 | days outside 1..365 fail; an unknown app is 404; otherwise one point per day from the cutoff to today, ascending |
| Stats.CountOnRow | backend/app/routers/stats.py:164-173 | a day with a row gets that row's count |
| Stats.CountOnNoRow | backend/app/routers/stats.py:164-173 | a day without a row counts 0 |

## Left out

- Reading and writing `.docx`, `.xlsx` and YAML files. The document body, the sheet rows, the paragraph texts and the registry entries are parameters. A reader's exception is a `Failure` parameter.
- The time a letter is generated is the formatted date string `today`. The generation step's load and save exceptions are a `failure` parameter.
- Block text in the block pass is the concatenation of the paragraph's run texts. The source reads every XML descendant's text.
- Python's `\s` and `strip()` are modelled with the full whitespace set. `\w` is modelled for ASCII and Latin-1 only; later characters are treated as non-word. `\d` in the numbering pattern (document_processor.py:304) is modelled as the ASCII digits; Python also accepts other Unicode decimal digits. `upper()` and `lower()` are modelled on ASCII and Latin-1, which covers every comparison the core makes.
- Numbering: the letter for point n is the code point `'a' + n - 1` while that is below the surrogate range (U+D800); from there on the model gives U+FFFD, where the source's `chr` would give the surrogate or later code point.
- Generator.RewriteTables: each cell of a row is rewritten once. python-docx lists a horizontally merged cell once per grid column it spans, so the source rewrites that cell's paragraphs again; this differs only when a bound value itself brings back template syntax.
- Formatting: the style is restored by name. The saved name is the paragraph's own style, so the document defines it. The model applies any name as is, where the source's bare `except: pass` (document_processor.py:272-276) would keep the current style if the assignment failed.
- The backslash escapes that `re.sub` applies to replacement values are not modelled. Values are taken to contain no `\`.
- `calculate_required_variables` returns a set. The source returns `list(set)`, whose order Python does not fix.
- `verify_template_exists`, `extract_variables_from_template`, `validate_access` and `send_telemetry_event` are file, stub or network wrappers.
- The cache lock, the async handlers and every other form of concurrency are left out. Operations run one at a time.
- `created_at`/`updated_at` timestamps and the usage-event log are left out.
- Admin session checks (401), request validation details (field patterns, password length) and the 422 message text are left out.
- bcrypt: `set_app_password` takes the hash as given, and `verify_password` is a parameter.
- Schedules are held as at most one per app, keyed by app id. The admin operations only ever keep one row per app, and the source's `scalar_one_or_none()` (schedules.py:81, 117) would raise on a second row, which the model cannot hold. Schedule ids come from a counter; SQLite row-id reuse is not modelled.
- Seeding is all-or-nothing: the source commits once at the end, so a failure leaves the table unchanged. A missing or unreadable registry is `None`. Missing tags are the empty list.
- Statistics dates are day numbers, not ISO date strings. The second clock read in the time series is taken to be the same day as the first.
- InlineVariables.PlainTextUnchanged: stated for text without any `{`, a stronger precondition than the source's absence of `{{`, `{%` and `.mark`.
- InlineConditionals.ProcessConditionals: condition names are matched literally. The source puts them into its patterns unescaped (document_processor.py:228, 235), so a name holding a regular-expression metacharacter matches differently there or raises `re.error`, where the model still matches it as written.
- Cache, RateLimit: instants are integers. The source compares `time()` floats (backend/app/utils/cache.py:18-22, backend/app/main.py:173); whole-second instants lose sub-second differences, and only their order and differences are modelled.
- InlineVariables.PlaceholderMatch, InlineVariables.PlaceholderFilled: stated for names that do not start with whitespace when the placeholder has spaces. Imported names are stripped (file_parsers.py:72, 118), so no bound name starts with whitespace.
- Services.Defaulted: its own contract says only that keys stay distinct. What it binds is stated by `Services.DefaultedGet`.
