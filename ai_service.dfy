/**
 * Bulk AI translation of translation rows (`AiTranlsationService`): choose the target
 * locales, refuse a request whose source locale is among them, build the structured-output
 * schema (one object per record index, one string field per target locale) and the payload
 * (each record's texts), ask the AI client, and write its answer back into every record's
 * `text`, one target locale at a time.
 *
 * Line numbers in the comments of this module refer to `src/Services/AiTranlsationService.php`.
 */
module AiTranslationService {
  import opened Wrappers
  import opened Php
  import opened Locales
  import opened Schema

  /** A translation row as the service sees it: its texts per locale, and how often it was saved. */
  class TranslationRecord {
    var text: map<string, string>
    var saves: nat

    constructor (text: map<string, string>)
      ensures this.text == text && saves == 0
    {
      this.text := text;
      saves := 0;
    }

    /** `setTranslation($locale, $value)`: set the text of one locale. */
    method SetTranslation(locale: string, value: string)
      modifies this
      ensures text == old(text)[locale := value] && saves == old(saves)
    {
      text := text[locale := value];
    }

    /** `save()`: persist the row. */
    method Save()
      modifies this
      ensures text == old(text) && saves == old(saves) + 1
    {
      saves := saves + 1;
    }
  }

  /** The AI settings read from configuration; None where the key is not set. */
  datatype ServiceConfig = ServiceConfig(provider: Option<string>, apiKey: Option<string>, model: Option<string>, prompt: Option<string>)

  const DefaultProvider := "openai"
  const DefaultModel := "gpt-3.5-turbo"
  const DefaultPrompt := "You are a helpful assistant that translates texts from one language to another. You always respond in a JSON format that strictly adheres to the provided schema. Do not include any additional text or explanations outside of the JSON structure."

  /**
   * Lines 85 and 90-92: the provider name handed to `Provider::tryFrom`, defaulting to
   * `openai`; None when the configured name is falsy, in which case `null` is passed.
   */
  function ProviderArgument(cfg: ServiceConfig): (r: Option<string>)
    ensures cfg.provider.None? ==> r == Some(DefaultProvider)
    ensures r.Some? ==> r.value != "" && r.value != "0"
    ensures cfg.provider.Some? && cfg.provider.value != "" && cfg.provider.value != "0" ==> r == cfg.provider
    ensures cfg.provider.Some? && Empty(cfg.provider) ==> r.None?
  {
    var name := cfg.provider.GetOr(DefaultProvider);
    if Empty(Some(name)) then None else Some(name)
  }

  /** The structured answer of the AI client: record index to locale to text. */
  type Answer = map<nat, map<string, string>>

  /** Everything the AI client is called with (the prompt text itself is not modelled). */
  datatype Request = Request(
    provider: Option<string>, model: string, apiKey: Option<string>, systemPrompt: string,
    schema: Schema, sourceLocale: string, targetLocales: seq<string>, payload: seq<map<string, string>>)

  /** The AI client: an answer, or None when the call throws. */
  type AiClient = Request -> Option<Answer>

  /** Lines 63-66: the string field for one target locale. */
  function LocaleField(locale: string): Schema {
    StringSchema(locale, "Translation for the " + locale + " language")
  }

  function LocaleFields(locales: seq<string>): (r: seq<Schema>)
    ensures |r| == |locales|
    ensures forall k :: 0 <= k < |locales| ==> r[k] == LocaleField(locales[k])
  {
    seq(|locales|, k requires 0 <= k < |locales| => LocaleField(locales[k]))
  }

  /**
   * Lines 60-74: the object for record `index`. The fields are keyed by locale, so a
   * repeated target locale yields one field, at the place it first occurs.
   */
  function RecordSchema(index: nat, targets: seq<string>): Schema {
    ObjectSchema(NatToString(index), "Translation for the translation key:" + NatToString(index), LocaleFields(Dedupe(targets)), [])
  }

  /** Lines 58-82: the whole schema for `count` records. */
  function ServiceSchema(count: nat, targets: seq<string>): Schema {
    ObjectSchema("translations", "Structured translation data of the texts",
      seq(count, i requires 0 <= i < count => RecordSchema(i, targets)), [])
  }

  /**
   * The schema has one object per record index, named after the index, and each object
   * has exactly one string field per target locale: its field names are the target
   * locales without repetition.
   */
  lemma ServiceSchemaShape(count: nat, targets: seq<string>, i: nat)
    requires i < count
    ensures var props := ServiceSchema(count, targets).properties;
      && |props| == count
      && props[i].ObjectSchema? && props[i].name == NatToString(i)
      && AllStrings(props[i].properties)
      && (forall l :: l in Names(props[i].properties) <==> l in targets)
      && (forall a, b :: 0 <= a < b < |props[i].properties| ==> props[i].properties[a].name != props[i].properties[b].name)
  {
    var fields := ServiceSchema(count, targets).properties[i].properties;
    assert fields == LocaleFields(Dedupe(targets));
    assert Names(fields) == Dedupe(targets);
  }

  /** Different records get differently named objects in the schema. */
  lemma RecordNamesDistinct(count: nat, targets: seq<string>, a: nat, b: nat)
    requires a < b < count
    ensures ServiceSchema(count, targets).properties[a].name != ServiceSchema(count, targets).properties[b].name
  {
    NatToStringInjective(a, b);
  }

  /** Lines 117-121: the text written for record `index` and locale `locale`: the answer, or `''`. */
  function AnswerFor(ai: Answer, index: nat, locale: string): string {
    if index in ai && locale in ai[index] then ai[index][locale] else ""
  }

  /**
   * The texts of record `index` after the write-back: every target locale holds the
   * answer (or `''`), every other locale keeps what it had.
   */
  function WriteBack(text: map<string, string>, ai: Answer, index: nat, targets: seq<string>): (r: map<string, string>)
    ensures forall l :: l in targets ==> l in r && r[l] == AnswerFor(ai, index, l)
    ensures forall l :: l !in targets ==> (l in r <==> l in text) && (l in text ==> r[l] == text[l])
  {
    text + map l | l in targets :: AnswerFor(ai, index, l)
  }

  lemma WriteBackStep(text: map<string, string>, ai: Answer, index: nat, targets: seq<string>, j: nat)
    requires j < |targets|
    ensures WriteBack(text, ai, index, targets[..j + 1])
         == WriteBack(text, ai, index, targets[..j])[targets[j] := AnswerFor(ai, index, targets[j])]
  {
    assert targets[..j + 1] == targets[..j] + [targets[j]];
    var a := WriteBack(text, ai, index, targets[..j + 1]);
    var b := WriteBack(text, ai, index, targets[..j])[targets[j] := AnswerFor(ai, index, targets[j])];
    assert a.Keys == b.Keys;
  }

  /** No record object occurs twice in the list. */
  predicate Distinct(records: seq<TranslationRecord>) {
    forall i, j :: 0 <= i < j < |records| ==> records[i] != records[j]
  }

  /** The data sent for translation: each record's texts, by index. */
  function Texts(records: seq<TranslationRecord>): (r: seq<map<string, string>>)
    reads set k | 0 <= k < |records| :: records[k]
    ensures |r| == |records|
    ensures forall i :: 0 <= i < |records| ==> r[i] == records[i].text
  {
    seq(|records|, i reads records requires 0 <= i < |records| => records[i].text)
  }

  /** The request built for the given record texts (lines 85-109). */
  function RequestFor(texts: seq<map<string, string>>, source: string, targets: seq<string>, cfg: ServiceConfig): Request {
    Request(ProviderArgument(cfg), cfg.model.GetOr(DefaultModel), cfg.apiKey, cfg.prompt.GetOr(DefaultPrompt),
      ServiceSchema(|texts|, targets), source, targets, texts)
  }

  /**
   * Lines 62-67: one string field per target locale; assigning by locale key keeps a
   * repeated locale once, at its first position.
   */
  method BuildLangProperties(targets: seq<string>) returns (langProperties: seq<Schema>)
    ensures langProperties == LocaleFields(Dedupe(targets))
  {
    langProperties := [];
    var j := 0;
    while j < |targets|
      invariant 0 <= j <= |targets|
      invariant langProperties == LocaleFields(Dedupe(targets[..j]))
    {
      var l := targets[j];
      assert targets[..j + 1] == targets[..j] + [l];
      assert targets[..j + 1][..j] == targets[..j];
      assert Names(langProperties) == Dedupe(targets[..j]);
      if l !in Names(langProperties) {
        langProperties := langProperties + [LocaleField(l)];
      }
      j := j + 1;
    }
    assert targets[..j] == targets;
  }

  /** Lines 56-75: the loops that fill the payload and the per-record schema objects. */
  method BuildPayloadAndSchema(records: seq<TranslationRecord>, targets: seq<string>)
    returns (payload: seq<map<string, string>>, schema: Schema)
    ensures |payload| == |records| && forall i :: 0 <= i < |records| ==> payload[i] == records[i].text
    ensures schema == ServiceSchema(|records|, targets)
  {
    payload := [];
    var properties: seq<Schema> := [];
    var i := 0;
    while i < |records|
      invariant 0 <= i <= |records|
      invariant |payload| == i && forall k :: 0 <= k < i ==> payload[k] == records[k].text
      invariant |properties| == i && forall k :: 0 <= k < i ==> properties[k] == RecordSchema(k, targets)
    {
      payload := payload + [records[i].text];
      var langProperties := BuildLangProperties(targets);
      properties := properties + [ObjectSchema(NatToString(i), "Translation for the translation key:" + NatToString(i), langProperties, [])];
      i := i + 1;
    }
    schema := ObjectSchema("translations", "Structured translation data of the texts", properties, []);
  }

  /** Lines 119-122: the inner loop, for one record: set each target locale's text and save. */
  method WriteBackRecord(record: TranslationRecord, ai: Answer, index: nat, targets: seq<string>)
    modifies record
    ensures record.text == WriteBack(old(record.text), ai, index, targets)
    ensures record.saves == old(record.saves) + |targets|
  {
    var j := 0;
    while j < |targets|
      invariant 0 <= j <= |targets|
      invariant record.text == WriteBack(old(record.text), ai, index, targets[..j])
      invariant record.saves == old(record.saves) + j
    {
      WriteBackStep(old(record.text), ai, index, targets, j);
      record.SetTranslation(targets[j], AnswerFor(ai, index, targets[j]));
      record.Save();
      j := j + 1;
    }
    assert targets[..j] == targets;
  }

  /**
   * Lines 114-125: for every record and every target locale, set the text to the answer
   * (or `''`) and save the record.
   */
  method SaveTranslations(records: seq<TranslationRecord>, ai: Answer, targets: seq<string>)
    requires Distinct(records)
    modifies set k | 0 <= k < |records| :: records[k]
    ensures forall i :: 0 <= i < |records| ==> records[i].text == WriteBack(old(records[i].text), ai, i, targets)
    ensures forall i :: 0 <= i < |records| ==> records[i].saves == old(records[i].saves) + |targets|
  {
    var i := 0;
    while i < |records|
      invariant 0 <= i <= |records|
      invariant forall k :: 0 <= k < i ==> records[k].text == WriteBack(old(records[k].text), ai, k, targets)
      invariant forall k :: 0 <= k < i ==> records[k].saves == old(records[k].saves) + |targets|
      invariant forall k :: i <= k < |records| ==> records[k].text == old(records[k].text) && records[k].saves == old(records[k].saves)
    {
      WriteBackRecord(records[i], ai, i, targets);
      i := i + 1;
    }
  }

  /** No record's texts or save count differ from the state at `old`. */
  twostate predicate Untouched(records: seq<TranslationRecord>)
    reads set k | 0 <= k < |records| :: records[k]
  {
    forall i :: 0 <= i < |records| ==> records[i].text == old(records[i].text) && records[i].saves == old(records[i].saves)
  }

  /** Every record got the answer written back for every target locale, saved once per locale. */
  twostate predicate WrittenBack(records: seq<TranslationRecord>, ai: Answer, targets: seq<string>)
    reads set k | 0 <= k < |records| :: records[k]
  {
    forall i :: 0 <= i < |records| ==>
      records[i].text == WriteBack(old(records[i].text), ai, i, targets) && records[i].saves == old(records[i].saves) + |targets|
  }

  /**
   * Lines 54-112: build the schema and payload, call the AI client, and write its answer
   * back. With no records the payload and schema variables are never assigned, so reading
   * them throws before the call. When the call throws, no record is touched.
   */
  method PerformAiTranslation(records: seq<TranslationRecord>, source: string, targets: seq<string>, cfg: ServiceConfig, ai: AiClient)
    returns (ok: bool)
    requires Distinct(records)
    modifies set k | 0 <= k < |records| :: records[k]
    ensures ok <==> |records| > 0 && ai(RequestFor(old(Texts(records)), source, targets, cfg)).Some?
    ensures ok ==> WrittenBack(records, ai(RequestFor(old(Texts(records)), source, targets, cfg)).value, targets)
    ensures !ok ==> Untouched(records)
  {
    if records == [] {
      return false;
    }
    var payload, schema := BuildPayloadAndSchema(records, targets);
    assert payload == Texts(records);
    var request := Request(ProviderArgument(cfg), cfg.model.GetOr(DefaultModel), cfg.apiKey,
      cfg.prompt.GetOr(DefaultPrompt), schema, source, targets, payload);
    var response := ai(request);
    if response.None? {
      return false;
    }
    SaveTranslations(records, response.value, targets);
    ok := true;
  }

  /** How `handleAiTranslation` ends: it returns `false` on the first two, nothing on the last. */
  datatype Outcome = Rejected | AiFailed | Completed

  /**
   * Lines 17-51: choose the targets, refuse when the source is among them, otherwise
   * translate; an exception from the AI call is reported and ends the request.
   */
  method HandleAiTranslation(records: seq<TranslationRecord>, supported: seq<string>, source: string,
                             target: string, targetAll: bool, cfg: ServiceConfig, ai: AiClient)
    returns (outcome: Outcome)
    requires Distinct(records)
    modifies set k | 0 <= k < |records| :: records[k]
    ensures var targets := SelectTargets(supported, source, target, targetAll);
      && (outcome == Rejected <==> source in targets)
      && (outcome == AiFailed <==> source !in targets && (|records| == 0 || ai(RequestFor(old(Texts(records)), source, targets, cfg)).None?))
      && (outcome == Completed ==> WrittenBack(records, ai(RequestFor(old(Texts(records)), source, targets, cfg)).value, targets))
    ensures outcome != Completed ==> Untouched(records)
  {
    var targets := SelectTargets(supported, source, target, targetAll);
    if source in targets {
      return Rejected;
    }
    var ok := PerformAiTranslation(records, source, targets, cfg, ai);
    outcome := if ok then Completed else AiFailed;
  }
}
