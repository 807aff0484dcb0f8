/**
 * Single-record AI translation (`HasAiTranslationAction`): whether the action is
 * available, the locale options of its form, and the translation itself: choose the
 * target locales, refuse when the source is among them, keep the translatable attributes
 * that are not `slug` and are filled in the source locale, build a schema of one object per
 * target locale holding one string field per attribute, call the AI client, and merge
 * the non-empty answers into the record, which is saved once.
 *
 * Line numbers in the comments of this module refer to `src/Traits/HasAiTranslation.php`.
 */
module HasAiTranslation {
  import opened Wrappers
  import opened Php
  import opened Locales
  import opened Schema

  /** The AI settings row (`SiteSetting`); a column may be null. */
  datatype SiteSettings = SiteSettings(provider: Option<string>, apiKey: Option<string>, model: Option<string>, prompt: Option<string>)

  /** A setting counts as filled in when it is set to something other than `""` and `"0"`. */
  predicate Filled(v: Option<string>) {
    v.Some? && v.value != "" && v.value != "0"
  }

  /**
   * Lines 36-49: the action is disabled when one of the four settings is empty. `empty`
   * reads a property of a missing row without complaint, so no row at all also disables it.
   * So it is enabled exactly when a row exists and all four settings are filled in.
   */
  function IsAiTranslationDisabled(row: Option<SiteSettings>): (r: bool)
    ensures !r <==> row.Some? && Filled(row.value.provider) && Filled(row.value.apiKey) && Filled(row.value.model) && Filled(row.value.prompt)
  {
    match row
    case None => true
    case Some(s) => Empty(s.provider) || Empty(s.apiKey) || Empty(s.model) || Empty(s.prompt)
  }

  const TooltipMessage := "Lütfen Yapay Zeka ayarlarını Site Ayarları sayfasından tamamlayınız."

  /** Lines 54-61: the tooltip asks for the settings to be completed exactly when the action is disabled. */
  function AiTranslationTooltip(row: Option<SiteSettings>): (r: Option<string>)
    ensures r.Some? <==> IsAiTranslationDisabled(row)
    ensures r.Some? ==> r.value == TooltipMessage
  {
    if IsAiTranslationDisabled(row) then Some(TooltipMessage) else None
  }

  /** Lines 97-103: `array_combine` of the supported locales with their upper-cased forms. */
  function LocaleOptions(supported: seq<string>): (r: map<string, string>)
    ensures r.Keys == set l | l in supported
    ensures forall l :: l in r ==> r[l] == ToUpper(l)
  {
    map l | l in supported :: ToUpper(l)
  }

  /**
   * Each option label is its locale upper-cased: same length, no lower-case letter left,
   * every character the same letter (or the same non-letter) as before.
   */
  lemma LocaleOptionsAreUppercase(supported: seq<string>, l: string)
    requires l in supported
    ensures l in LocaleOptions(supported)
    ensures |LocaleOptions(supported)[l]| == |l|
    ensures forall i :: 0 <= i < |l| ==> !IsLower(LocaleOptions(supported)[l][i])
    ensures forall i :: 0 <= i < |l| && !IsLower(l[i]) ==> LocaleOptions(supported)[l][i] == l[i]
    ensures forall i :: 0 <= i < |l| ==> LowerChar(LocaleOptions(supported)[l][i]) == LowerChar(l[i])
  {
  }

  // ---------------------------------------------------------------------------
  // The record and its translations

  /** A translation of one attribute in one locale, keyed by (attribute, locale). */
  type Translations = map<(string, string), string>

  /** `getTranslation($attribute, $locale, false)`: the stored text, or None. */
  function GetTranslation(tr: Translations, attribute: string, locale: string): Option<string> {
    if (attribute, locale) in tr then Some(tr[(attribute, locale)]) else None
  }

  /** The record being edited (`$this->record`): its translations and how often it was saved. */
  class TranslatableRecord {
    var translations: Translations
    var saves: nat

    constructor (translations: Translations)
      ensures this.translations == translations && saves == 0
    {
      this.translations := translations;
      saves := 0;
    }

    /** `setTranslation($attribute, $locale, $value)`. */
    method SetTranslation(attribute: string, locale: string, value: string)
      modifies this
      ensures translations == old(translations)[(attribute, locale) := value] && saves == old(saves)
    {
      translations := translations[(attribute, locale) := value];
    }

    /** `save()`: persist the record. */
    method Save()
      modifies this
      ensures translations == old(translations) && saves == old(saves) + 1
    {
      saves := saves + 1;
    }
  }

  // ---------------------------------------------------------------------------
  // Which attributes are translated

  const AttributesUnknownMessage := "Translatable attributes could not be determined. Please override getTranslatableAttributes() method."

  /**
   * Lines 274-287: the resource's own attribute list if it declares one, else the model's
   * `translatable` property; with neither, an exception.
   */
  function GetTranslatableAttributes(resourceAttributes: Option<seq<string>>, modelTranslatable: Option<seq<string>>): (r: Result<seq<string>, string>)
    ensures r.Err? <==> resourceAttributes.None? && modelTranslatable.None?
    ensures resourceAttributes.Some? ==> r == Ok(resourceAttributes.value)
    ensures resourceAttributes.None? && modelTranslatable.Some? ==> r == Ok(modelTranslatable.value)
  {
    if resourceAttributes.Some? then Ok(resourceAttributes.value)
    else if modelTranslatable.Some? then Ok(modelTranslatable.value)
    else Err(AttributesUnknownMessage)
  }

  /** Lines 138-141: keep the attributes whose source-locale translation is not empty, in order. */
  function KeepFilled(attributes: seq<string>, tr: Translations, source: string): (r: seq<string>)
    ensures forall a :: a in r <==> a in attributes && !Empty(GetTranslation(tr, a, source))
    ensures |r| <= |attributes|
    decreases |attributes|
  {
    if attributes == [] then []
    else
      var rest := KeepFilled(attributes[..|attributes| - 1], tr, source);
      var a := attributes[|attributes| - 1];
      assert attributes == attributes[..|attributes| - 1] + [a];
      if Empty(GetTranslation(tr, a, source)) then rest else rest + [a]
  }

  lemma {:induction false} KeepFilledAppend(a: seq<string>, b: seq<string>, tr: Translations, source: string)
    ensures KeepFilled(a + b, tr, source) == KeepFilled(a, tr, source) + KeepFilled(b, tr, source)
    decreases |b|
  {
    if b == [] {
      assert a + b == a;
    } else {
      var b' := b[..|b| - 1];
      assert (a + b)[..|a + b| - 1] == a + b';
      assert (a + b)[|a + b| - 1] == b[|b| - 1];
      KeepFilledAppend(a, b', tr, source);
    }
  }

  /** Lines 132-141: drop `slug`, then drop the attributes empty in the source locale. */
  function FilterAttributes(attributes: seq<string>, tr: Translations, source: string): seq<string> {
    KeepFilled(Without(attributes, "slug"), tr, source)
  }

  /**
   * The attributes sent for translation are the translatable ones other than `slug`
   * that are filled in the source locale, and the filter keeps their order.
   */
  lemma FilteredAttributes(attributes: seq<string>, more: seq<string>, tr: Translations, source: string, a: string)
    ensures a in FilterAttributes(attributes, tr, source) <==> a in attributes && a != "slug" && !Empty(GetTranslation(tr, a, source))
    ensures FilterAttributes(attributes + more, tr, source) == FilterAttributes(attributes, tr, source) + FilterAttributes(more, tr, source)
  {
    WithoutAppend(attributes, more, "slug");
    KeepFilledAppend(Without(attributes, "slug"), Without(more, "slug"), tr, source);
  }

  // ---------------------------------------------------------------------------
  // The schema and the request

  /** Lines 197-200: the string field for one attribute. */
  function AttributeField(attribute: string): Schema {
    StringSchema(attribute, "Translation for the " + attribute)
  }

  /** Lines 195-207: the object for one target locale, one string field per attribute. */
  function LocaleObject(locale: string, attributes: seq<string>): Schema {
    ObjectSchema(locale, "Translation for the " + locale + " locale",
      seq(|attributes|, j requires 0 <= j < |attributes| => AttributeField(attributes[j])), [])
  }

  /** Lines 193-215: the whole schema. */
  function TraitSchema(targets: seq<string>, attributes: seq<string>): Schema {
    ObjectSchema("translations", "Structured translation data",
      seq(|targets|, i requires 0 <= i < |targets| => LocaleObject(targets[i], attributes)), [])
  }

  /**
   * The schema has one object per target locale, named after it and in target order,
   * and each object has exactly one string field per attribute, named after it.
   */
  lemma TraitSchemaShape(targets: seq<string>, attributes: seq<string>, i: nat)
    requires i < |targets|
    ensures var props := TraitSchema(targets, attributes).properties;
      && |props| == |targets|
      && props[i].ObjectSchema? && props[i].name == targets[i]
      && AllStrings(props[i].properties)
      && Names(props[i].properties) == attributes
  {
    var fields := TraitSchema(targets, attributes).properties[i].properties;
    assert |fields| == |attributes|;
    assert forall j :: 0 <= j < |attributes| ==> fields[j] == AttributeField(attributes[j]);
  }

  /** Lines 193-208: the nested loops that build the schema. */
  method BuildSchema(targets: seq<string>, attributes: seq<string>) returns (schema: Schema)
    ensures schema == TraitSchema(targets, attributes)
  {
    var properties: seq<Schema> := [];
    var i := 0;
    while i < |targets|
      invariant 0 <= i <= |targets|
      invariant |properties| == i && forall k :: 0 <= k < i ==> properties[k] == LocaleObject(targets[k], attributes)
    {
      var subProperties: seq<Schema> := [];
      var j := 0;
      while j < |attributes|
        invariant 0 <= j <= |attributes|
        invariant |subProperties| == j && forall k :: 0 <= k < j ==> subProperties[k] == AttributeField(attributes[k])
      {
        subProperties := subProperties + [AttributeField(attributes[j])];
        j := j + 1;
      }
      properties := properties + [ObjectSchema(targets[i], "Translation for the " + targets[i] + " locale", subProperties, [])];
      i := i + 1;
    }
    schema := ObjectSchema("translations", "Structured translation data", properties, []);
  }

  /** `Arr::only($record->toArray(), $attributes)`: the record's data for the chosen attributes. */
  function SourceData(tr: Translations, attributes: seq<string>): (r: Translations)
    ensures forall c :: c in r <==> c in tr && c.0 in attributes
    ensures forall c :: c in r ==> r[c] == tr[c]
  {
    map c | c in tr && c.0 in attributes :: tr[c]
  }

  /** The structured answer: locale to attribute to text. */
  type Answer = map<string, map<string, string>>

  /** Everything the AI client is called with (the prompt text itself is not modelled). */
  datatype Request = Request(
    provider: Option<string>, model: Option<string>, apiKey: Option<string>, systemPrompt: Option<string>,
    schema: Schema, sourceLocale: string, targetLocales: seq<string>, sourceData: Translations)

  /** The AI client: an answer, or None when the call throws. */
  type AiClient = Request -> Option<Answer>

  /** Lines 217-243: the request for the given settings row. */
  function RequestFor(s: SiteSettings, schema: Schema, source: string, targets: seq<string>, data: Translations): Request {
    Request(if Empty(s.provider) then None else s.provider, s.model, s.apiKey, s.prompt, schema, source, targets, data)
  }

  // ---------------------------------------------------------------------------
  // Merging the answer

  /** Lines 255-256: the answer holds a non-empty text for (`locale`, `attribute`). */
  predicate Writes(ai: Answer, locale: string, attribute: string) {
    locale in ai && attribute in ai[locale] && !Empty(Some(ai[locale][attribute]))
  }

  /** The translations after the merge of lines 253-265. */
  function Merge(tr: Translations, ai: Answer, attributes: seq<string>, targets: seq<string>): (r: Translations)
    ensures forall a, l :: a in attributes && l in targets && Writes(ai, l, a) ==> GetTranslation(r, a, l) == Some(ai[l][a])
    ensures forall a, l :: !(a in attributes && l in targets && Writes(ai, l, a)) ==> GetTranslation(r, a, l) == GetTranslation(tr, a, l)
  {
    var cells := set a, l | a in attributes && l in targets && Writes(ai, l, a) :: (a, l);
    tr + map c | c in cells :: ai[c.1][c.0]
  }

  /** Two translation maps with the same translation everywhere are equal. */
  lemma SameTranslations(x: Translations, y: Translations)
    requires forall a, l :: GetTranslation(x, a, l) == GetTranslation(y, a, l)
    ensures x == y
  {
    forall c ensures (c in x <==> c in y) && (c in x ==> x[c] == y[c]) {
      assert GetTranslation(x, c.0, c.1) == GetTranslation(y, c.0, c.1);
    }
  }

  /** The inner loop of lines 254-264 as a function: the attributes of one locale, in order. */
  function MergeLocale(tr: Translations, ai: Answer, attributes: seq<string>, l: string): Translations
    decreases |attributes|
  {
    if attributes == [] then tr
    else
      var before := MergeLocale(tr, ai, attributes[..|attributes| - 1], l);
      var a := attributes[|attributes| - 1];
      if Writes(ai, l, a) then before[(a, l) := ai[l][a]] else before
  }

  /** The outer loop of lines 253-265 as a function: the target locales, in order. */
  function MergeAll(tr: Translations, ai: Answer, attributes: seq<string>, targets: seq<string>): Translations
    decreases |targets|
  {
    if targets == [] then tr
    else MergeLocale(MergeAll(tr, ai, attributes, targets[..|targets| - 1]), ai, attributes, targets[|targets| - 1])
  }

  lemma {:induction false} MergeLocaleCell(tr: Translations, ai: Answer, attributes: seq<string>, l: string, a: string, l': string)
    ensures GetTranslation(MergeLocale(tr, ai, attributes, l), a, l')
         == if a in attributes && l' == l && Writes(ai, l, a) then Some(ai[l][a]) else GetTranslation(tr, a, l')
    decreases |attributes|
  {
    if attributes != [] {
      var init := attributes[..|attributes| - 1];
      assert attributes == init + [attributes[|attributes| - 1]];
      MergeLocaleCell(tr, ai, init, l, a, l');
    }
  }

  lemma {:induction false} MergeAllCell(tr: Translations, ai: Answer, attributes: seq<string>, targets: seq<string>, a: string, l: string)
    ensures GetTranslation(MergeAll(tr, ai, attributes, targets), a, l)
         == if a in attributes && l in targets && Writes(ai, l, a) then Some(ai[l][a]) else GetTranslation(tr, a, l)
    decreases |targets|
  {
    if targets != [] {
      var init := targets[..|targets| - 1];
      var last := targets[|targets| - 1];
      assert targets == init + [last];
      MergeAllCell(tr, ai, attributes, init, a, l);
      MergeLocaleCell(MergeAll(tr, ai, attributes, init), ai, attributes, last, a, l);
    }
  }

  /** The loops compute the merge: the answers of chosen cells, everything else as it was. */
  lemma MergeAllIsMerge(tr: Translations, ai: Answer, attributes: seq<string>, targets: seq<string>)
    ensures MergeAll(tr, ai, attributes, targets) == Merge(tr, ai, attributes, targets)
  {
    forall a, l ensures GetTranslation(MergeAll(tr, ai, attributes, targets), a, l) == GetTranslation(Merge(tr, ai, attributes, targets), a, l) {
      MergeAllCell(tr, ai, attributes, targets, a, l);
    }
    SameTranslations(MergeAll(tr, ai, attributes, targets), Merge(tr, ai, attributes, targets));
  }

  /** Lines 254-264: the inner loop, for one target locale. */
  method SetLocaleTranslations(record: TranslatableRecord, ai: Answer, attributes: seq<string>, l: string)
    modifies record
    ensures record.translations == MergeLocale(old(record.translations), ai, attributes, l)
    ensures record.saves == old(record.saves)
  {
    var j := 0;
    while j < |attributes|
      invariant 0 <= j <= |attributes|
      invariant record.translations == MergeLocale(old(record.translations), ai, attributes[..j], l)
      invariant record.saves == old(record.saves)
    {
      var a := attributes[j];
      assert attributes[..j + 1][..j] == attributes[..j];
      if l in ai && a in ai[l] && !Empty(Some(ai[l][a])) {
        record.SetTranslation(a, l, ai[l][a]);
      }
      j := j + 1;
    }
    assert attributes[..j] == attributes;
  }

  /**
   * Lines 251-268: set each (attribute, locale) whose answer is present and non-empty,
   * then save the record once.
   */
  method SaveTranslations(record: TranslatableRecord, ai: Answer, attributes: seq<string>, targets: seq<string>)
    modifies record
    ensures record.translations == Merge(old(record.translations), ai, attributes, targets)
    ensures record.saves == old(record.saves) + 1
  {
    ghost var original := record.translations;
    var i := 0;
    while i < |targets|
      invariant 0 <= i <= |targets|
      invariant record.translations == MergeAll(original, ai, attributes, targets[..i])
      invariant record.saves == old(record.saves)
    {
      assert targets[..i + 1][..i] == targets[..i];
      SetLocaleTranslations(record, ai, attributes, targets[i]);
      i := i + 1;
    }
    assert targets[..i] == targets;
    MergeAllIsMerge(original, ai, attributes, targets);
    record.Save();
  }

  // ---------------------------------------------------------------------------
  // The action

  /** The submitted form: source locale, "all targets" checkbox, chosen target. */
  datatype FormData = FormData(sourceLocale: string, targetAll: bool, targetLocale: string)

  /**
   * How `handleAiTranslation` ends: `false` after a refusal, a warning or a failed call;
   * an exception escaping when the attributes cannot be determined; a redirect on success.
   */
  datatype Outcome = Rejected | AttributesUnknown(message: string) | NothingToTranslate | AiFailed | Redirected

  /**
   * Where the action is headed before the AI call: it stops with an outcome, or it calls
   * the client with this request and merges `attributes` into `targets`.
   */
  datatype Step = Stop(outcome: Outcome) | Call(attributes: seq<string>, targets: seq<string>, request: Request)

  /**
   * Lines 110-163 and 217-243: choose and check the targets, find and filter the
   * attributes, build the schema and read the settings. Everything from the schema on is
   * inside the try block, so a missing settings row (reading its provider throws) ends in
   * `false`.
   */
  function Plan(data: FormData, supported: seq<string>, resourceAttributes: Option<seq<string>>,
                modelTranslatable: Option<seq<string>>, tr: Translations, settings: Option<SiteSettings>): Step
  {
    var source := data.sourceLocale;
    var targets := SelectTargets(supported, source, data.targetLocale, data.targetAll);
    if source in targets then Stop(Rejected)
    else match GetTranslatableAttributes(resourceAttributes, modelTranslatable)
      case Err(e) => Stop(AttributesUnknown(e))
      case Ok(declared) =>
        var attributes := FilterAttributes(declared, tr, source);
        if attributes == [] then Stop(NothingToTranslate)
        else if settings.None? then Stop(AiFailed)
        else Call(attributes, targets, RequestFor(settings.value, TraitSchema(targets, attributes), source, targets, SourceData(tr, attributes)))
  }

  /** The plan refuses exactly when the source locale is among the targets. */
  lemma PlanRejectedIff(data: FormData, supported: seq<string>, resourceAttributes: Option<seq<string>>,
                         modelTranslatable: Option<seq<string>>, tr: Translations, settings: Option<SiteSettings>)
    ensures var p := Plan(data, supported, resourceAttributes, modelTranslatable, tr, settings);
      var source := data.sourceLocale;
      var targets := SelectTargets(supported, source, data.targetLocale, data.targetAll);
      var declared := GetTranslatableAttributes(resourceAttributes, modelTranslatable);
      p == Stop(Rejected) <==> source in targets
  {
  }

  /** The plan ends in the exception exactly when neither the resource nor the model declares the attributes. */
  lemma PlanAttributesUnknownIff(data: FormData, supported: seq<string>, resourceAttributes: Option<seq<string>>,
                                  modelTranslatable: Option<seq<string>>, tr: Translations, settings: Option<SiteSettings>)
    ensures var p := Plan(data, supported, resourceAttributes, modelTranslatable, tr, settings);
      var source := data.sourceLocale;
      var targets := SelectTargets(supported, source, data.targetLocale, data.targetAll);
      var declared := GetTranslatableAttributes(resourceAttributes, modelTranslatable);
      p.Stop? && p.outcome.AttributesUnknown? <==> source !in targets && declared.Err?
  {
  }

  /** The plan warns exactly when no declared attribute other than `slug` is filled in the source locale. */
  lemma PlanNothingToTranslateIff(data: FormData, supported: seq<string>, resourceAttributes: Option<seq<string>>,
                                   modelTranslatable: Option<seq<string>>, tr: Translations, settings: Option<SiteSettings>)
    ensures var p := Plan(data, supported, resourceAttributes, modelTranslatable, tr, settings);
      var source := data.sourceLocale;
      var targets := SelectTargets(supported, source, data.targetLocale, data.targetAll);
      var declared := GetTranslatableAttributes(resourceAttributes, modelTranslatable);
      p == Stop(NothingToTranslate) <==> source !in targets && declared.Ok? && FilterAttributes(declared.value, tr, source) == []
  {
  }

  /** Before the call, the plan fails exactly when there is something to translate but no settings row. */
  lemma PlanAiFailedIff(data: FormData, supported: seq<string>, resourceAttributes: Option<seq<string>>,
                         modelTranslatable: Option<seq<string>>, tr: Translations, settings: Option<SiteSettings>)
    ensures var p := Plan(data, supported, resourceAttributes, modelTranslatable, tr, settings);
      var source := data.sourceLocale;
      var targets := SelectTargets(supported, source, data.targetLocale, data.targetAll);
      var declared := GetTranslatableAttributes(resourceAttributes, modelTranslatable);
      p == Stop(AiFailed) <==> source !in targets && declared.Ok? && FilterAttributes(declared.value, tr, source) != [] && settings.None?
  {
  }

  /**
   * When the plan calls the client, it does so for the filtered attributes and the chosen
   * targets, none of them the source, with the schema and source data built from them.
   */
  lemma PlanCall(data: FormData, supported: seq<string>, resourceAttributes: Option<seq<string>>,
                 modelTranslatable: Option<seq<string>>, tr: Translations, settings: Option<SiteSettings>)
    ensures var p := Plan(data, supported, resourceAttributes, modelTranslatable, tr, settings);
      var source := data.sourceLocale;
      var targets := SelectTargets(supported, source, data.targetLocale, data.targetAll);
      var declared := GetTranslatableAttributes(resourceAttributes, modelTranslatable);
      p.Call? ==>
        && settings.Some? && declared.Ok?
        && p.targets == targets && p.attributes == FilterAttributes(declared.value, tr, source)
        && p.attributes != [] && source !in p.targets
        && p.request == RequestFor(settings.value, TraitSchema(targets, p.attributes), source, targets, SourceData(tr, p.attributes))
  {
  }


  /**
   * Lines 108-185: follow the plan; when it calls the client, a call that throws ends in
   * `false`, and an answer is merged into the record, which is saved once.
   */
  method HandleAiTranslation(record: TranslatableRecord, data: FormData, supported: seq<string>,
                             resourceAttributes: Option<seq<string>>, modelTranslatable: Option<seq<string>>,
                             settings: Option<SiteSettings>, ai: AiClient)
    returns (outcome: Outcome)
    modifies record
    ensures var p := Plan(data, supported, resourceAttributes, modelTranslatable, old(record.translations), settings);
      && (p.Stop? ==> outcome == p.outcome)
      && (p.Call? ==> (outcome == Redirected <==> ai(p.request).Some?) && (outcome != Redirected ==> outcome == AiFailed))
      && (p.Call? && outcome == Redirected ==>
            && record.translations == Merge(old(record.translations), ai(p.request).value, p.attributes, p.targets)
            && record.saves == old(record.saves) + 1)
    ensures outcome != Redirected ==> record.translations == old(record.translations) && record.saves == old(record.saves)
  {
    ghost var p := Plan(data, supported, resourceAttributes, modelTranslatable, record.translations, settings);
    var source := data.sourceLocale;
    var targets := SelectTargets(supported, source, data.targetLocale, data.targetAll);
    if source in targets {
      assert p == Stop(Rejected);
      return Rejected;
    }
    var declared := GetTranslatableAttributes(resourceAttributes, modelTranslatable);
    if declared.Err? {
      assert p == Stop(AttributesUnknown(declared.error));
      return AttributesUnknown(declared.error);
    }
    var attributes := FilterAttributes(declared.value, record.translations, source);
    if attributes == [] {
      assert p == Stop(NothingToTranslate);
      return NothingToTranslate;
    }
    var sourceData := SourceData(record.translations, attributes);
    var schema := BuildSchema(targets, attributes);
    if settings.None? {
      assert p == Stop(AiFailed);
      return AiFailed;
    }
    var request := RequestFor(settings.value, schema, source, targets, sourceData);
    assert p == Call(attributes, targets, request);
    var response := ai(request);
    if response.None? {
      return AiFailed;
    }
    SaveTranslations(record, response.value, attributes, targets);
    outcome := Redirected;
  }
}
