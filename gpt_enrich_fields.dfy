/**
 * The simulated AI enrichment of gpt_enrich_fields.py: a culture record is copied, completed
 * with defaults and population data, and every prompt field that is empty (or every prompt
 * field, when forced) receives generated placeholder content.
 */
module GptEnrichFields {
  import opened Wrappers
  import opened Strings
  import opened Values

  const CultureNameKey: string := "culture_name"
  const LanguageTagKey: string := "language_tag"
  const SourceKey: string := "source"
  const UndeterminedTag: string := "und"
  const SimulatedSource: string := "AI Enrichment (Simulated)"

  /** The `PROMPTS` keys, in dictionary order. */
  const PromptFields: seq<string> := [
    "summary", "greetings", "taboos", "gestures", "religion", "gender_roles",
    "communication_style", "clothing", "estimated_speakers", "primary_regions"
  ]

  /** Each `PROMPTS` template as the text before and after its one `{culture_name}` placeholder. */
  const PromptTemplates: seq<(string, string)> := [
    ("Provide a concise summary of the culture of ", "."),
    ("Describe common greetings in ", "."),
    ("What are common taboos in ", "?"),
    ("Explain common gestures in ", "."),
    ("Describe the main religious practices and beliefs in ", "."),
    ("Discuss traditional and modern gender roles in ", "."),
    ("Describe the typical communication style in ", " (e.g., direct/indirect, high/low context)."),
    ("Describe traditional and common modern clothing styles in ", "."),
    ("Roughly how many people speak ", " worldwide?"),
    ("List the countries where ", " is most commonly spoken.")
  ]

  predicate Distinct(keys: seq<string>) {
    forall i, j :: 0 <= i < j < |keys| ==> keys[i] != keys[j]
  }

  /** The prompt field names differ from each other. */
  lemma PromptFieldsDistinct()
    ensures |PromptFields| == |PromptTemplates| == 10
    ensures Distinct(PromptFields)
  {
    var f := PromptFields;
    assert f[0][0] == 's' && f[1][0] == 'g' && f[2][0] == 't' && f[3][0] == 'g' && f[4][0] == 'r';
    assert f[5][0] == 'g' && f[6][0] == 'c' && f[7][0] == 'c' && f[8][0] == 'e' && f[9][0] == 'p';
    assert f[1][1] == 'r' && f[3][1] == 'e' && f[5][1] == 'e' && f[3][2] == 's' && f[5][2] == 'n';
    assert f[6][1] == 'o' && f[7][1] == 'l';
  }

  /** The three bookkeeping keys differ from each other and from every prompt field. */
  lemma BookkeepingKeysDistinct()
    ensures forall i :: 0 <= i < |PromptFields| ==>
      PromptFields[i] != CultureNameKey && PromptFields[i] != LanguageTagKey && PromptFields[i] != SourceKey
    ensures CultureNameKey != LanguageTagKey && CultureNameKey != SourceKey && LanguageTagKey != SourceKey
  {
    var f := PromptFields;
    assert CultureNameKey[0] == 'c' && CultureNameKey[1] == 'u';
    assert LanguageTagKey[0] == 'l' && SourceKey[0] == 's' && SourceKey[1] == 'o';
    assert f[0][0] == 's' && f[0][1] == 'u' && f[6][0] == 'c' && f[6][1] == 'o' && f[7][1] == 'l';
    assert forall i :: 0 <= i < |f| && i != 0 && i != 6 && i != 7 ==> f[i][0] != 'c' && f[i][0] != 'l' && f[i][0] != 's';
  }

  /** `prompt_template.format(culture_name=...)`. */
  function Prompt(template: (string, string), cultureName: string): string {
    template.0 + cultureName + template.1
  }

  /**
   * `generate_field_content`: the placeholder text standing in for the model's answer. It names
   * the field first and quotes the prompt last, so it is never empty.
   */
  function GenerateFieldContent(field: string, prompt: string, cultureName: string): (r: string)
    ensures StartsWith(r, "AI generated content for " + field) && EndsWith(r, "'" + prompt + "'") && r != []
  {
    var head := "AI generated content for " + field;
    var tail := "'" + prompt + "'";
    var r := head + (" in " + cultureName + " based on prompt: ") + tail;
    assert r[..|head|] == head;
    assert r[|r| - |tail|..] == tail;
    r
  }

  /** The copy after the defaults for `culture_name` and `language_tag`. */
  function WithDefaults(cultureName: string, existing: Record): (r: Record)
    ensures r.Keys == existing.Keys + {CultureNameKey, LanguageTagKey}
    ensures forall k :: k in existing && k != CultureNameKey && k != LanguageTagKey ==> r[k] == existing[k]
  {
    BookkeepingKeysDistinct();
    var d := if TruthyField(existing, CultureNameKey) then existing else existing[CultureNameKey := Str(cultureName)];
    if TruthyField(d, LanguageTagKey) then d else d[LanguageTagKey := Str(UndeterminedTag)]
  }

  /** `.lower()` on the language tag succeeds only for a string (the `"und"` default is one). */
  predicate LanguageTagIsText(d: Record) {
    LanguageTagKey in d && d[LanguageTagKey].Str?
  }

  /** The record before the prompt loop: defaults, then the population entry of the lower-cased name. */
  function BaseRecord(cultureName: string, existing: Record, populationData: map<string, Record>): Record {
    var d := WithDefaults(cultureName, existing);
    var key := Lower(cultureName);
    if key in populationData then d + populationData[key] else d
  }

  /** The generated content for each of `fields`, the `i`-th prompted with `templates[i]`. */
  function ContentsFor(fields: seq<string>, templates: seq<(string, string)>, cultureName: string): (r: seq<string>)
    requires |fields| <= |templates|
    ensures |r| == |fields|
  {
    seq(|fields|, i requires 0 <= i < |fields| => GenerateFieldContent(fields[i], Prompt(templates[i], cultureName), cultureName))
  }

  function PromptContents(cultureName: string): (r: seq<string>)
    ensures |r| == |PromptFields|
  {
    ContentsFor(PromptFields, PromptTemplates, cultureName)
  }

  /** One pass of the prompt loop, for field `i` of `fields`. */
  function FillStep(d: Record, fields: seq<string>, i: nat, contents: seq<string>, forceEnrich: bool): Record
    requires i < |fields| <= |contents|
  {
    if forceEnrich || !TruthyField(d, fields[i]) then d[fields[i] := Str(contents[i])] else d
  }

  /** The record after the first `n` passes of the loop over `fields`. */
  function Fill(d: Record, fields: seq<string>, n: nat, contents: seq<string>, forceEnrich: bool): Record
    requires n <= |fields| <= |contents|
  {
    if n == 0 then d else FillStep(Fill(d, fields, n - 1, contents, forceEnrich), fields, n - 1, contents, forceEnrich)
  }

  function WithSource(d: Record): Record {
    if SourceKey in d then d else d[SourceKey := Str(SimulatedSource)]
  }

  /**
   * `enrich_culture_with_ai`, as a value: `None` where `.lower()` would raise because the
   * language tag is a truthy non-string.
   */
  function Enriched(cultureName: string, existing: Record, populationData: map<string, Record>, forceEnrich: bool)
    : (r: Option<Record>)
    ensures r.None? <==> TruthyField(existing, LanguageTagKey) && !existing[LanguageTagKey].Str?
  {
    var d := WithDefaults(cultureName, existing);
    CultureNameDefault(cultureName, existing);
    if !LanguageTagIsText(d) then None
    else
      Some(WithSource(Fill(BaseRecord(cultureName, existing, populationData), PromptFields, |PromptFields|,
                           PromptContents(cultureName), forceEnrich)))
  }

  /**
   * The loop over `PROMPTS.items()` in `enrich_culture_with_ai`, given the keys and the templates
   * (the caller passes `PromptFields` and `PromptTemplates`).
   */
  method FillPrompts(base: Record, fields: seq<string>, templates: seq<(string, string)>, cultureName: string,
                     forceEnrich: bool) returns (enrichedData: Record)
    requires |fields| <= |templates|
    ensures enrichedData == Fill(base, fields, |fields|, ContentsFor(fields, templates, cultureName), forceEnrich)
  {
    enrichedData := base;
    ghost var contents := ContentsFor(fields, templates, cultureName);
    for i := 0 to |fields|
      invariant enrichedData == Fill(base, fields, i, contents, forceEnrich)
    {
      var field := fields[i];
      if forceEnrich || field !in enrichedData || !Truthy(enrichedData[field]) {
        var prompt := templates[i].0 + cultureName + templates[i].1;
        enrichedData := enrichedData[field := Str(GenerateFieldContent(field, prompt, cultureName))];
      }
    }
  }

  /** `enrich_culture_with_ai`: the caller's record is a value, so the function works on a copy. */
  method EnrichCultureWithAi(cultureName: string, existingData: Record, populationData: map<string, Record>,
                             forceEnrich: bool) returns (r: Option<Record>)
    ensures r == Enriched(cultureName, existingData, populationData, forceEnrich)
  {
    BookkeepingKeysDistinct();
    var enrichedData := existingData;
    if CultureNameKey !in enrichedData || !Truthy(enrichedData[CultureNameKey]) {
      enrichedData := enrichedData[CultureNameKey := Str(cultureName)];
    }
    if LanguageTagKey !in enrichedData || !Truthy(enrichedData[LanguageTagKey]) {
      enrichedData := enrichedData[LanguageTagKey := Str(UndeterminedTag)];
    }
    assert enrichedData == WithDefaults(cultureName, existingData);
    if !enrichedData[LanguageTagKey].Str? {
      return None;
    }
    var cultureKey := Lower(cultureName);
    if cultureKey in populationData {
      enrichedData := enrichedData + populationData[cultureKey];
    }
    assert enrichedData == BaseRecord(cultureName, existingData, populationData);
    enrichedData := FillPrompts(enrichedData, PromptFields, PromptTemplates, cultureName, forceEnrich);
    if SourceKey !in enrichedData {
      enrichedData := enrichedData[SourceKey := Str(SimulatedSource)];
    }
    r := Some(enrichedData);
  }

  /** The loop adds exactly the fields it visits. */
  lemma {:induction false} FillKeys(d: Record, fields: seq<string>, n: nat, contents: seq<string>, forceEnrich: bool)
    requires n <= |fields| <= |contents|
    ensures Fill(d, fields, n, contents, forceEnrich).Keys == d.Keys + (set j | 0 <= j < n :: fields[j])
  {
    if n > 0 {
      FillKeys(d, fields, n - 1, contents, forceEnrich);
      assert (set j | 0 <= j < n :: fields[j]) == (set j | 0 <= j < n - 1 :: fields[j]) + {fields[n - 1]};
    }
  }

  /** A key the loop does not visit keeps its presence and its value. */
  lemma {:induction false} FillKeepsOthers(d: Record, fields: seq<string>, n: nat, contents: seq<string>,
                                           forceEnrich: bool, k: string)
    requires n <= |fields| <= |contents|
    requires forall j :: 0 <= j < n ==> fields[j] != k
    ensures var r := Fill(d, fields, n, contents, forceEnrich);
      (k in r <==> k in d) && (k in d ==> r[k] == d[k])
  {
    if n > 0 {
      FillKeepsOthers(d, fields, n - 1, contents, forceEnrich, k);
    }
  }

  /**
   * After `n` passes over distinct fields, field `j < n` holds its content when forced or when
   * it was missing or empty, and its old value otherwise.
   */
  lemma {:induction false} FillField(d: Record, fields: seq<string>, n: nat, contents: seq<string>,
                                     forceEnrich: bool, j: nat)
    requires j < n <= |fields| <= |contents| && Distinct(fields)
    ensures var r := Fill(d, fields, n, contents, forceEnrich);
      fields[j] in r
      && r[fields[j]] == if forceEnrich || !TruthyField(d, fields[j]) then Str(contents[j]) else d[fields[j]]
  {
    if j == n - 1 {
      FillKeepsOthers(d, fields, n - 1, contents, forceEnrich, fields[j]);
    } else {
      FillField(d, fields, n - 1, contents, forceEnrich, j);
    }
  }

  /** A prompt field is rewritten iff enrichment is forced or the field was missing or empty. */
  lemma PromptFieldRewrittenIff(cultureName: string, existing: Record, populationData: map<string, Record>,
                                forceEnrich: bool, j: nat)
    requires j < |PromptFields|
    requires Enriched(cultureName, existing, populationData, forceEnrich).Some?
    ensures var base := BaseRecord(cultureName, existing, populationData);
      var r := Enriched(cultureName, existing, populationData, forceEnrich).value;
      PromptFields[j] in r
      && r[PromptFields[j]] == if forceEnrich || !TruthyField(base, PromptFields[j])
                               then Str(GenerateFieldContent(PromptFields[j], Prompt(PromptTemplates[j], cultureName), cultureName))
                               else base[PromptFields[j]]
  {
    PromptFieldsDistinct();
    BookkeepingKeysDistinct();
    FillField(BaseRecord(cultureName, existing, populationData), PromptFields, |PromptFields|, PromptContents(cultureName), forceEnrich, j);
  }

  /** After enrichment every prompt field is filled. */
  lemma PromptFieldsFilled(cultureName: string, existing: Record, populationData: map<string, Record>,
                           forceEnrich: bool)
    requires Enriched(cultureName, existing, populationData, forceEnrich).Some?
    ensures var r := Enriched(cultureName, existing, populationData, forceEnrich).value;
      forall j :: 0 <= j < |PromptFields| ==> TruthyField(r, PromptFields[j])
  {
    forall j | 0 <= j < |PromptFields|
      ensures TruthyField(Enriched(cultureName, existing, populationData, forceEnrich).value, PromptFields[j])
    {
      PromptFieldRewrittenIff(cultureName, existing, populationData, forceEnrich, j);
    }
  }

  /** The result's keys: the input's, the two defaults, the population entry's, the prompt fields and `source`. */
  lemma EnrichedKeys(cultureName: string, existing: Record, populationData: map<string, Record>, forceEnrich: bool)
    requires Enriched(cultureName, existing, populationData, forceEnrich).Some?
    ensures var pop := if Lower(cultureName) in populationData then populationData[Lower(cultureName)].Keys else {};
      Enriched(cultureName, existing, populationData, forceEnrich).value.Keys
        == existing.Keys + {CultureNameKey, LanguageTagKey, SourceKey} + pop + (set j | 0 <= j < |PromptFields| :: PromptFields[j])
  {
    FillKeys(BaseRecord(cultureName, existing, populationData), PromptFields, |PromptFields|, PromptContents(cultureName), forceEnrich);
  }

  /** An existing `source`, even an empty one, is kept; the simulated source is added only when absent. */
  lemma SourceAddedOnlyWhenAbsent(cultureName: string, existing: Record, populationData: map<string, Record>,
                                  forceEnrich: bool)
    requires Enriched(cultureName, existing, populationData, forceEnrich).Some?
    ensures var base := BaseRecord(cultureName, existing, populationData);
      var r := Enriched(cultureName, existing, populationData, forceEnrich).value;
      SourceKey in r && r[SourceKey] == if SourceKey in base then base[SourceKey] else Str(SimulatedSource)
  {
    BookkeepingKeysDistinct();
    FillKeepsOthers(BaseRecord(cultureName, existing, populationData), PromptFields, |PromptFields|,
                    PromptContents(cultureName), forceEnrich, SourceKey);
  }

  /** A non-empty `culture_name` is kept and an empty or missing one is filled in, before the population entry. */
  lemma CultureNameDefault(cultureName: string, existing: Record)
    ensures WithDefaults(cultureName, existing)[CultureNameKey]
      == if TruthyField(existing, CultureNameKey) then existing[CultureNameKey] else Str(cultureName)
    ensures WithDefaults(cultureName, existing)[LanguageTagKey]
      == if TruthyField(existing, LanguageTagKey) then existing[LanguageTagKey] else Str(UndeterminedTag)
  {
    PromptFieldsDistinct();
  }

  /**
   * A key that is neither a prompt field nor `source` holds the population entry's value when
   * that entry has it, and otherwise the value after the two defaults.
   */
  lemma EnrichedOtherKeys(cultureName: string, existing: Record, populationData: map<string, Record>,
                          forceEnrich: bool, k: string)
    requires Enriched(cultureName, existing, populationData, forceEnrich).Some?
    requires k !in PromptFields && k != SourceKey
    ensures var d := WithDefaults(cultureName, existing);
      var pop := if Lower(cultureName) in populationData then populationData[Lower(cultureName)] else map[];
      var r := Enriched(cultureName, existing, populationData, forceEnrich).value;
      (k in r <==> k in d || k in pop)
      && (k in r ==> r[k] == if k in pop then pop[k] else d[k])
  {
    FillKeepsOthers(BaseRecord(cultureName, existing, populationData), PromptFields, |PromptFields|,
                    PromptContents(cultureName), forceEnrich, k);
  }
}
