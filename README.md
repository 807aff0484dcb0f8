# filament-translations core, modelled in Dafny

This project models the three parts of the `filament-translations` Laravel package that hold its logic.

- **The scan writer (`SaveScan`).** It soft-deletes every row of the `translations` table in one transaction. It then reconciles each translation key found in the code base:
  - A grouped key `namespace::group.key` or `group.key` is split into a (namespace, group, key) triple. A key without a `.` makes the transaction roll back.
  - A flat literal becomes (`*`, `*`, literal).
  - An existing row, soft-deleted or not, is restored unless its line is an array, and its texts are kept.
  - A missing row is inserted live, with one text per configured locale. For a locale with no line the model stores the title-cased key that the code evidently intends, not the key itself that it stores as written (see Findings).
- **The bulk AI service (`AiTranlsationService`).** It chooses the target locales and refuses a source locale that is among them. It builds a structured-output schema: one object per record index, with one string field per target locale. It calls the AI client and writes each answer (or `''`) back into every record, saving once per target locale.
- **The single-record action (`HasAiTranslationAction` trait).**
  - The action is disabled unless all four AI settings are filled in, and a tooltip says so.
  - The locale options map each locale to its upper-cased form.
  - The action works out which attributes are translatable, drops `slug` and the attributes that are empty in the source locale, and builds a schema of one object per target locale with one string field per attribute.
  - It merges only the non-empty answers and saves the record once.

The table and the records are classes whose methods update their fields. The scan, the write-back and the merge are loops proved against specification functions. The lemmas are stated about those functions.

Things outside the package become parameters:
- the translator's lines, `lines(key, locale)`, which gives a text, an array (`Group`) or nothing;
- the configured locales;
- the settings row;
- the AI client, which returns an answer or `None` when it throws.

Files:
- `wrappers.dfy`: `Option` and `Result`.
- `php.dfy`: PHP's `empty`, `strtoupper`, `str_replace` of one character, `Str::title`, `(string)$n`.
- `locales.dfy`: target selection and de-duplication.
- `schema.dfy`: `StringSchema` and `ObjectSchema`.
- `save_scan.dfy`, `ai_service.dfy`, `ai_trait.dfy`: the three core files.

## Model

| member | source | states |
|---|---|---|
| SaveScan.ParseFailsIffNoDot | src/Services/SaveScan.php:41 | a grouped key can be destructured exactly when it contains a `.` |
| SaveScan.Explode2Spec | src/Services/SaveScan.php:41-42 | `explode` with limit 2 gives the whole string when the separator does not occur, else the text before its first occurrence and everything after it |
| SaveScan.ParsePlain | src/Services/SaveScan.php:41-45 | `g.k` whose `g` has no `.` and no `::` gives namespace `*`, group `g`, key `k`; the key may hold further dots |
| SaveScan.ParseNamespaced | src/Services/SaveScan.php:41-48 | `ns::g.k` gives (`ns`, `g`, `k`) when `ns` has no `.`, no `::` and does not end in `:`, and `g` has no `.` (so `a:b::g.k` is (`a:b`, `g`, `k`)); the split at the first `.` comes first, so the key may hold further dots (`pkg::a.b.c` is (`pkg`, `a`, `b.c`)) |
| SaveScan.Explode2 | src/Services/SaveScan.php:41-42 | `explode` with limit 2 yields one or two parts (the parts themselves are stated by Explode2Spec) |
| SaveScan.ParseGroupedKey | src/Services/SaveScan.php:41-48 | the triple of a grouped key, None when it has no `.` (its properties are those of ParseFailsIffNoDot, ParsePlain and ParseNamespaced) |
| SaveScan.LookupKey | src/Services/SaveScan.php:95-103 | the key a row is looked up by: `key` for the `*` group, `group.key` for the `*` namespace, else `namespace::group.key` (the LookupKey lemmas say when it rebuilds the scanned key) |
| SaveScan.IsCurrentTransForTranslationArray | src/Services/SaveScan.php:93-104 | a row's line is an array exactly when its lookup key's line in the application locale is one |
| SaveScan.LookupKeyInvertsNamespacedParse | src/Services/SaveScan.php:93-104 | when the parsed triple has a group other than `*` and a namespace other than `*`, the key used for the array check is the scanned key itself |
| SaveScan.LookupKeyInvertsPlainParse | src/Services/SaveScan.php:93-104 | when `g` has no `.`, no `::` and is not `*`, `g.k` parses and its lookup key is `g.k` again |
| SaveScan.LookupKeyDropsStarNamespace | src/Services/SaveScan.php:99-100 | for a group `g` without `.` and any key `k`, `*::g.k` parses to (`*`, `g`, `k`), whose lookup key is not `*::g.k` |
| SaveScan.LookupKeyDropsStarGroup | src/Services/SaveScan.php:95-97 | for every key, `*.k` has the `*` group and is looked up by `k` alone, which is not `*.k` |
| SaveScan.LocaleText | src/Services/SaveScan.php:77-78 | the corrected text of one locale: the line itself, `''` for an array line, and for a missing line a text of the key's length with no `.` or `_` (the fallback) |
| SaveScan.LocaleTextAsWritten | src/Services/SaveScan.php:77-78 | the text of one locale as written: the line, `''` for an array line, the key itself for a missing line (shown by FallbackIgnoredAsWritten) |
| SaveScan.NewText | src/Services/SaveScan.php:74-79 | the `text` of a new row: one corrected locale text per configured locale, looked up under the bare key part (`welcome` for `messages.welcome`), not the grouped key, as line 77 does (its loop is BuildText) |
| SaveScan.Fallback | src/Services/SaveScan.php:77 | the corrected fallback text has the key's length; `.` and `_` become spaces and every other non-letter is kept; every letter stays the same letter, a leading one upper-cased |
| SaveScan.FallbackIgnoredAsWritten | src/Services/SaveScan.php:77 | as written, a key with no line is stored as the key itself, which differs from the title-cased fallback whenever the key starts lower-case or holds `.` or `_` |
| SaveScan.FallbackIgnoredExample | src/Services/SaveScan.php:77 | `welcome` is stored as `welcome` as written, and would be `Welcome` by the corrected fallback |
| SaveScan.MissingLineUsesFallback | src/Services/SaveScan.php:77-78 | in the corrected model, a missing line yields the title-cased key, with no `.` or `_` |
| SaveScan.BuildText | src/Services/SaveScan.php:74-79 | the new row's `text` has exactly the configured locales as keys; each holds the line, `''` for an array line, else the corrected fallback (see Findings) |
| SaveScan.MarkAllDeleted | src/Services/SaveScan.php:34-38 | every row is soft-deleted, no row is added or removed, and every row keeps its texts |
| SaveScan.Reconcile | src/Services/SaveScan.php:58-91 | one `createOrUpdate`: an existing row is restored unless its line is an array and keeps its texts; a missing one is inserted live with its new texts (its properties are those of ReconcileExpected and ScanAt) |
| SaveScan.ReconcileAll | src/Services/SaveScan.php:40-54 | `createOrUpdate` applied to each triple in turn (its outcome is stated by ReconcileAllIsExpected and ReconcileAllAppend) |
| SaveScan.ReconcileExpected | src/Services/SaveScan.php:58-91 | one `createOrUpdate` takes the all-at-once outcome for a set of triples to the outcome for that set plus the triple |
| SaveScan.ReconcileAllIsExpected | src/Services/SaveScan.php:40-54 | reconciling triples one by one equals the declarative outcome for their set, so order and repeats do not matter |
| SaveScan.ReconcileAllAppend | src/Services/SaveScan.php:40-54 | reconciling the grouped triples and then the literals is reconciling their concatenation |
| SaveScan.ParseAll | src/Services/SaveScan.php:40-50 | all grouped keys parse, or none is taken; when they do, the triples correspond index by index |
| SaveScan.FlatTriples | src/Services/SaveScan.php:52-54 | each flat literal `s` becomes (`*`, `*`, `s`), in order |
| SaveScan.ScanTriples | src/Services/SaveScan.php:40-54 | the scan aborts exactly when a grouped key has no `.`; otherwise it visits the grouped triples, then the literal triples |
| SaveScan.ScanResult | src/Services/SaveScan.php:20-56 | the table after a scan, None when the transaction rolls back (its properties are those of the scan lemmas below) |
| SaveScan.ScanIsExpected | src/Services/SaveScan.php:33-55 | the table after a scan is the declarative outcome for the found triples over the all-deleted table |
| SaveScan.ScanAt | src/Services/SaveScan.php:33-91 | per triple: not found means soft-deleted with texts kept; found and existing means deleted iff its line is an array, texts kept; found and new means a live row with new texts |
| SaveScan.UnmatchedStaySoftDeleted | src/Services/SaveScan.php:34-38 | no row is ever removed; new rows come only from found triples; every row not found is soft-deleted |
| SaveScan.RestoreDependsOnArrayLine | src/Services/SaveScan.php:69-90 | a found triple ends soft-deleted exactly when it already had a row and its line is an array |
| SaveScan.ExistingTextsUntouched | src/Services/SaveScan.php:69-72 | a scan never changes the texts of an existing row |
| SaveScan.NewRowsGetLocaleTexts | src/Services/SaveScan.php:73-85 | a newly inserted row holds one text per configured locale: the translator line of its bare key part (`welcome` for `messages.welcome`, not the grouped key), or the corrected fallback when there is none |
| SaveScan.RescanInsertsNothing | src/Services/SaveScan.php:58-91 | scanning the same keys again inserts no row and changes no text |
| SaveScan.ScanKeepsSettled | src/Services/SaveScan.php:33-55 | a table already settled for the found triples is left exactly as it is |
| SaveScan.TwoScansSettle | src/Services/SaveScan.php:33-55 | after two scans with the same keys the table is settled |
| SaveScan.SecondScanIsFixpoint | src/Services/SaveScan.php:20-56 | from the second scan on, rescanning the same keys changes nothing |
| SaveScan.NewArrayRowHiddenByRescan | src/Services/SaveScan.php:80-89 | a newly inserted row whose line is an array is live after the first scan and soft-deleted after the next, so the first scan is not a fixpoint |
| SaveScan.ScanAbortsIffKeyWithoutDot | src/Services/SaveScan.php:33-55 | the transaction rolls back exactly when a grouped key lacks a `.` |
| SaveScan.TranslationTable.SoftDeleteAll | src/Services/SaveScan.php:34-38 | every row becomes soft-deleted, and texts and keys are unchanged |
| SaveScan.TranslationTable.CreateOrUpdate | src/Services/SaveScan.php:58-91 | the table becomes `Reconcile` of the old table for the triple |
| SaveScan.TranslationTable.ReconcileGrouped | src/Services/SaveScan.php:40-50 | it succeeds exactly when every grouped key parses, and the table is then the reconciliation of their triples |
| SaveScan.TranslationTable.ReconcileLiterals | src/Services/SaveScan.php:52-54 | the table becomes the reconciliation of the literal triples |
| SaveScan.TranslationTable.Save | src/Services/SaveScan.php:20-56 | it succeeds exactly when no grouped key lacks `.`; on success the table is the scan result; on failure it is unchanged (rollback) |
| Php.Empty | src/Traits/HasAiTranslation.php:36-49 | PHP's `empty()` on a string or null holds exactly for null, `""` and `"0"` |
| Php.ToUpper | src/Traits/HasAiTranslation.php:101 | upper-casing keeps the length, leaves no lower-case letter, leaves every other character as it is, and keeps every character the same letter (or the same non-letter) |
| Php.ToUpperIdempotent | src/Traits/HasAiTranslation.php:101 | upper-casing twice equals upper-casing once |
| Php.ReplaceChar | src/Services/SaveScan.php:77 | `replace` of one character keeps the length and puts the replacement exactly where the character was, leaving every other position as it is |
| Php.TitleFrom | src/Services/SaveScan.php:77 | title-casing keeps the length and every non-letter, keeps every letter the same letter, and cases the first letter by the state: lowered after a letter, upper-cased otherwise |
| Php.TitleFromCasing | src/Services/SaveScan.php:77 | at every later position, a letter right after a letter is lowered, and a letter right after a character that is neither a letter nor case-ignorable (space, digit, hyphen) is upper-cased |
| Php.Title | src/Services/SaveScan.php:77 | `Str::title` is title-casing from the start of the string, where nothing precedes, so a leading letter is upper-cased (its properties are those of TitleFrom and TitleFromCasing) |
| Php.TitleFromIdempotent | src/Services/SaveScan.php:77 | title-casing twice equals title-casing once |
| Php.NatToString | src/Services/AiTranlsationService.php:70-72 | a record index is written as a non-empty string of decimal digits |
| Php.NatToStringReadsBack | src/Services/AiTranlsationService.php:70-72 | reading the digits of an index back as a decimal number gives the index |
| Php.NatToStringInjective | src/Services/AiTranlsationService.php:70-72 | different indices give different strings |
| Locales.SelectTargets | src/Services/AiTranlsationService.php:21-25 | the target list: every supported locale but the source when "all targets" is chosen, else the chosen locale alone (its properties are those of AllTargetsAreOtherSupported, SingleTarget and RejectedIff) |
| Locales.Without | src/Services/AiTranlsationService.php:22 | the filter keeps exactly the elements other than the source, and returns the list unchanged when the source is absent |
| Locales.WithoutAppend | src/Services/AiTranlsationService.php:22 | the filter distributes over concatenation, so the order of supported locales is kept |
| Locales.AllTargetsAreOtherSupported | src/Services/AiTranlsationService.php:21-22 | "all targets" holds every supported locale except the source, and nothing else |
| Locales.SingleTarget | src/Services/AiTranlsationService.php:23-25 | without "all targets" the target list is exactly the chosen locale |
| Locales.RejectedIff | src/Services/AiTranlsationService.php:27-30 | the request is refused exactly when a single target was chosen and it equals the source |
| Locales.AllTargetsExample | src/Traits/HasAiTranslation.php:113-117 | with `en`, `ar`, `fr` supported and source `en`, the targets are `ar`, `fr` |
| Locales.Dedupe | src/Services/AiTranlsationService.php:62-67 | keyed assignment keeps each target locale exactly once: no locale is lost, none is added, none is repeated |
| Locales.DedupeFirstOccurrenceOrder | src/Services/AiTranlsationService.php:62-67 | the distinct locales come in the order of their first occurrence in the target list |
| AiTranslationService.ProviderArgument | src/Services/AiTranlsationService.php:85-92 | an unset provider defaults to `openai`; a falsy name gives no provider; a truthy name is passed on as is |
| AiTranslationService.LocaleField | src/Services/AiTranlsationService.php:63-66 | the string field of one target locale, named after the locale (collected by LocaleFields) |
| AiTranslationService.RecordSchema | src/Services/AiTranlsationService.php:60-74 | the object for one record: named by its index, one string field per distinct target locale |
| AiTranslationService.ServiceSchema | src/Services/AiTranlsationService.php:58-82 | the whole schema: one record object per index (its shape is ServiceSchemaShape) |
| AiTranslationService.ServiceSchemaShape | src/Services/AiTranlsationService.php:58-82 | one object per record, named by its index; each holds one string field per distinct target locale, with no name repeated |
| AiTranslationService.RecordNamesDistinct | src/Services/AiTranlsationService.php:70-72 | two different record indices name two different schema objects |
| AiTranslationService.AnswerFor | src/Services/AiTranlsationService.php:117-121 | the text written for a record and a locale: the answer when there is one, else `''` |
| AiTranslationService.WriteBack | src/Services/AiTranlsationService.php:117-122 | after the write-back every target locale holds the answer or `''`; every other locale keeps its text |
| AiTranslationService.WriteBackStep | src/Services/AiTranlsationService.php:119-122 | writing one more target locale is one map update |
| AiTranslationService.Texts | src/Services/AiTranlsationService.php:58-59 | the payload holds each record's texts at its index |
| AiTranslationService.BuildLangProperties | src/Services/AiTranlsationService.php:60-67 | the inner loop gives one string field per distinct target locale, in first-occurrence order |
| AiTranslationService.WriteBackRecord | src/Services/AiTranlsationService.php:119-122 | one record's texts become its write-back, and it is saved once per target locale |
| AiTranslationService.TranslationRecord.SetTranslation | src/Services/AiTranlsationService.php:120 | exactly one locale's text is set |
| AiTranslationService.TranslationRecord.Save | src/Services/AiTranlsationService.php:121 | saving changes no text and counts one save |
| AiTranslationService.RequestFor | src/Services/AiTranlsationService.php:85-109 | the client request: provider argument, model and prompt with their defaults, the key, the schema for the records, the locales and the payload |
| AiTranslationService.BuildPayloadAndSchema | src/Services/AiTranlsationService.php:56-82 | the payload is the records' texts, and the schema is the service schema for that many records and those targets |
| AiTranslationService.SaveTranslations | src/Services/AiTranlsationService.php:114-125 | each record's texts become its write-back, and it is saved once per target locale |
| AiTranslationService.PerformAiTranslation | src/Services/AiTranlsationService.php:54-112 | it succeeds exactly when there are records and the client answers; then every record is written back; otherwise none is touched |
| AiTranslationService.HandleAiTranslation | src/Services/AiTranlsationService.php:17-51 | refused exactly when the source is a target; failed exactly when there are no records or the client throws; on completion every record is written back; otherwise nothing changes |
| HasAiTranslation.IsAiTranslationDisabled | src/Traits/HasAiTranslation.php:36-49 | the action is enabled exactly when a settings row exists and provider, key, model and prompt are all set and neither `""` nor `"0"` |
| HasAiTranslation.AiTranslationTooltip | src/Traits/HasAiTranslation.php:54-61 | there is a tooltip exactly when the action is disabled, and it asks for the AI settings to be completed |
| HasAiTranslation.LocaleOptions | src/Traits/HasAiTranslation.php:97-103 | the options are keyed by exactly the supported locales, each labelled with its upper-cased form |
| HasAiTranslation.LocaleOptionsAreUppercase | src/Traits/HasAiTranslation.php:97-103 | each label has the locale's length and no lower-case letter, leaves every other character as it is, and keeps every character the same letter (or the same non-letter) |
| HasAiTranslation.GetTranslatableAttributes | src/Traits/HasAiTranslation.php:274-287 | the resource's own list wins over the model's `translatable` property; with neither there is an error |
| HasAiTranslation.GetTranslation | src/Traits/HasAiTranslation.php:140 | `getTranslation` without locale fallback: the stored text of that attribute and locale, or none |
| HasAiTranslation.KeepFilled | src/Traits/HasAiTranslation.php:138-141 | the filter keeps exactly the attributes whose source-locale translation is not empty |
| HasAiTranslation.KeepFilledAppend | src/Traits/HasAiTranslation.php:138-141 | the filter distributes over concatenation, so attribute order is kept |
| HasAiTranslation.FilterAttributes | src/Traits/HasAiTranslation.php:132-141 | the attributes to translate: `slug` dropped, then those empty in the source locale (its properties are FilteredAttributes) |
| HasAiTranslation.FilteredAttributes | src/Traits/HasAiTranslation.php:131-141 | an attribute is translated exactly when it is declared, is not `slug` and is filled in the source locale; order is kept |
| HasAiTranslation.AttributeField | src/Traits/HasAiTranslation.php:197-200 | the string field of one attribute, named after the attribute |
| HasAiTranslation.LocaleObject | src/Traits/HasAiTranslation.php:195-207 | the object of one target locale, named after it, with one attribute field per attribute in order (its shape is TraitSchemaShape) |
| HasAiTranslation.TraitSchema | src/Traits/HasAiTranslation.php:193-215 | the schema: one object per target locale with one string field per attribute (its shape is TraitSchemaShape) |
| HasAiTranslation.TraitSchemaShape | src/Traits/HasAiTranslation.php:192-215 | one object per target locale, in order and named after it; each holds exactly one string field per attribute, named after it |
| HasAiTranslation.BuildSchema | src/Traits/HasAiTranslation.php:192-215 | the nested loops build exactly that schema |
| HasAiTranslation.SourceData | src/Traits/HasAiTranslation.php:153 | the data sent holds exactly the record's cells of the chosen attributes, each with the record's text |
| HasAiTranslation.RequestFor | src/Traits/HasAiTranslation.php:217-243 | the client request: the settings row's provider (none when it is empty), model, key and prompt, the schema, the locales and the source data |
| HasAiTranslation.Writes | src/Traits/HasAiTranslation.php:255-256 | the answer is set and not empty for that locale and attribute, the condition under which Merge overwrites a cell |
| HasAiTranslation.Merge | src/Traits/HasAiTranslation.php:251-268 | a cell of a chosen attribute and target locale with a non-empty answer holds that answer; every other cell is unchanged |
| HasAiTranslation.MergeLocale | src/Traits/HasAiTranslation.php:254-264 | one locale's inner loop as a function on the translations (its properties are MergeLocaleCell) |
| HasAiTranslation.MergeAll | src/Traits/HasAiTranslation.php:253-265 | the nested loops as a function on the translations (its properties are MergeAllCell and MergeAllIsMerge) |
| HasAiTranslation.MergeLocaleCell | src/Traits/HasAiTranslation.php:254-264 | after one locale's inner loop a cell holds the answer exactly when it is that locale, a chosen attribute and a non-empty answer; every other cell is as before |
| HasAiTranslation.MergeAllCell | src/Traits/HasAiTranslation.php:253-265 | after the nested loops a cell holds the answer exactly when it is a chosen attribute, a target locale and a non-empty answer; every other cell is as before |
| HasAiTranslation.MergeAllIsMerge | src/Traits/HasAiTranslation.php:253-265 | the nested loops compute the declarative merge |
| HasAiTranslation.TranslatableRecord.SetTranslation | src/Traits/HasAiTranslation.php:258-262 | exactly one (attribute, locale) cell is set |
| HasAiTranslation.TranslatableRecord.Save | src/Traits/HasAiTranslation.php:267 | saving changes no translation and counts one save |
| HasAiTranslation.SetLocaleTranslations | src/Traits/HasAiTranslation.php:254-264 | the inner loop leaves the record as the one-locale merge, and does not save |
| HasAiTranslation.SaveTranslations | src/Traits/HasAiTranslation.php:251-268 | the record's translations become the merge of the answer, and it is saved exactly once |
| HasAiTranslation.Plan | src/Traits/HasAiTranslation.php:110-163 | how the action ends before the client call, or the call it makes (its properties are the Plan lemmas below) |
| HasAiTranslation.PlanRejectedIff | src/Traits/HasAiTranslation.php:110-125 | the action is refused exactly when the source locale is among the targets |
| HasAiTranslation.PlanAttributesUnknownIff | src/Traits/HasAiTranslation.php:128 | it ends in the exception exactly when it is not refused and neither the resource nor the model declares the attributes |
| HasAiTranslation.PlanNothingToTranslateIff | src/Traits/HasAiTranslation.php:131-149 | it warns exactly when no declared attribute other than `slug` is filled in the source locale |
| HasAiTranslation.PlanAiFailedIff | src/Traits/HasAiTranslation.php:217-227 | before the call it fails exactly when there is something to translate but no settings row |
| HasAiTranslation.PlanCall | src/Traits/HasAiTranslation.php:151-163 | the client is called with the filtered attributes, the chosen targets (none of them the source), and the schema and source data built from them |
| HasAiTranslation.HandleAiTranslation | src/Traits/HasAiTranslation.php:108-185 | it ends as the plan says when the plan stops; when the plan calls the client it redirects exactly when the client answers, the record then holding the merge of the answer and saved once; in every other case the record is untouched |

## Left out

- Scanning the code base for keys is not modelled: the `Scan` class, `File::exists` and the configured paths. The grouped keys and flat literals it returns are parameters of `Save`.
- SaveScan.BuildText: for a locale with no line it stores the corrected, title-cased fallback. The code as written stores the key itself (see Findings). The as-written text is SaveScan.LocaleTextAsWritten.
- SaveScan.LocaleTextAsWritten: `Lang::get` at src/Services/SaveScan.php:77 consults the fallback locale only when its `fallback:` argument is truthy. The title-cased text passed there is falsy exactly for the keys `""` and `"0"` (grouped keys `messages.` and `messages.0`), and for those the code reads the requested locale alone. The model reads `lines`, which includes the fallback locale, for every key.
- SaveScan.NewRowsGetLocaleTexts: the same holds for every new row of the scan: it states the corrected fallback, not the key that the code as written stores.
- The triple lookup of `createOrUpdate` compares strings exactly. A database collation that compares case-insensitively (the MySQL default) would match rows whose keys differ only in case; that is not modelled.
- The `deleted_at` timestamp is not modelled (`Carbon::now`). A row keeps only the flag "soft-deleted".
- The translator (`Lang::get`, `trans`, `__`) together with its fallback-locale lookup is a parameter `lines(key, locale)`. The key's default-locale line answers the array check.
- Configuration (`filament-translations.locals`, `app.locale`, `app.supported_locales` and the AI settings) is passed in as values.
- The Prism client and the network are a parameter: a function from the request to an answer, or `None` when it throws.
- The prompt strings, `json_encode` of the payload, and `Provider::tryFrom`'s mapping of a name to an enum case are not modelled. The provider name is carried as a string.
- Notifications, the redirect to the referrer, and the Filament wiring are not modelled. This covers `getAiTranslationAction`, `getTranslationFormSchema` with its reactive checkbox, `getTranslationActionLabel` and `getTranslationModalDescription`. They only build UI objects or return constant text.
- PHP's loose `!=` and `in_array` are modelled as string equality. PHP 8 compares two numeric strings by value, which locale codes are not.
- `strtoupper` and `Str::title` are modelled on ASCII letters only. Multibyte case mapping is not modelled.
- AiTranslationService.SaveTranslations: requires the record objects to be distinct. The same object listed twice would be written twice, and the model does not cover that aliasing.
- AiTranslationService.HandleAiTranslation: returns `Completed` where the source falls off the end of the function and returns `null`.
- AiTranslationService.PerformAiTranslation: the answer is modelled as strings by index and locale. Answers of other types are not modelled, and neither is a database failure part-way through the saves, which would leave earlier saves in place.
- HasAiTranslation.HandleAiTranslation: an answer that is not an array (a `TypeError`, which escapes the `catch`) is not modelled.
- HasAiTranslation.SourceData: keeps the raw translations of the chosen attributes rather than the `toArray()` rendering of the record.
- HasAiTranslation.Merge: answers are strings. A `null` answer is modelled as absent, and answers of other types are not modelled.
- `config/filament-translations.php`, the two `AiTranslateAction` classes, `Key.php`, `text-column.blade.php` and `UserSeed.php` are not part of this model. They configure, call or display the core.

## Findings

| source | as written | input that shows it | evidently intended | confidence | as-written member | corrected member |
|---|---|---|---|---|---|---|
| src/Services/SaveScan.php:77 | the title-cased key is passed as `fallback:`, but that parameter of `Translator::get` is the boolean "use the fallback locale", so a key with no line comes back as the key itself | grouped key `messages.welcome` with no line in any locale: the row's text is `welcome` in every locale | the title-cased key with `.` and `_` turned into spaces, `Welcome` | not executed; medium, because it rests on the framework's `Translator::get` signature, which is not part of this model | SaveScan.LocaleTextAsWritten (shown by SaveScan.FallbackIgnoredAsWritten and SaveScan.FallbackIgnoredExample) | SaveScan.LocaleText (shown by SaveScan.MissingLineUsesFallback) |
