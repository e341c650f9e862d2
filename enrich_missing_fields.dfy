/**
 * The enrichment scaffold: for each required field a manifest entry lacks, the question to ask
 * about it.
 */
module EnrichMissingFields {
  import opened Strings
  import opened Values
  import opened Seqs

  const CultureNameKey: string := "culture_name"
  const RegionKey: string := "region"
  const CommunicationStyleKey: string := "communication_style"
  const SocialNormsKey: string := "social_norms"

  /** `REQUIRED_FIELDS`, in order. */
  const RequiredFields: seq<string> := [CultureNameKey, RegionKey, "language_tags", CommunicationStyleKey, SocialNormsKey]

  /** The required fields whose value is missing or falsy, in order (the `missing` comprehension). */
  function Missing(entry: Record): (missing: seq<string>)
    ensures forall f :: f in missing <==> f in RequiredFields && !TruthyField(entry, f)
  {
    Filter(RequiredFields, f => !TruthyField(entry, f))
  }

  /** `entry.get(key, default)` rendered into an f-string. */
  function GetText(entry: Record, key: string, default: string): string {
    if key in entry then Repr(entry[key]) else default
  }

  /** The question for one missing field. */
  function PromptFor(entry: Record, field: string): string {
    if field == CommunicationStyleKey then
      "Describe typical communication style for " + GetText(entry, CultureNameKey, "this culture") + "."
    else if field == SocialNormsKey then
      "What are key social norms in " + GetText(entry, RegionKey, "this region") + "?"
    else
      "Please provide " + field + "."
  }

  /** One question for each of `fields`. */
  function PromptsOver(entry: Record, fields: seq<string>): map<string, string> {
    map f | f in fields :: PromptFor(entry, f)
  }

  /** The scaffold `enrich_entry` returns: one question per missing field. */
  function Prompts(entry: Record): map<string, string> {
    PromptsOver(entry, Missing(entry))
  }

  lemma PromptsOverSnoc(entry: Record, fields: seq<string>, field: string)
    ensures PromptsOver(entry, fields + [field]) == PromptsOver(entry, fields)[field := PromptFor(entry, field)]
  {
  }

  /** `enrich_entry`: the loop over the missing fields filling `prompts`. */
  method EnrichEntry(entry: Record) returns (prompts: map<string, string>)
    ensures prompts == Prompts(entry)
  {
    var missing := Missing(entry);
    prompts := map[];
    for i := 0 to |missing|
      invariant prompts == PromptsOver(entry, missing[..i])
    {
      var field := missing[i];
      if field == CommunicationStyleKey {
        prompts := prompts[field := "Describe typical communication style for " + GetText(entry, CultureNameKey, "this culture") + "."];
      } else if field == SocialNormsKey {
        prompts := prompts[field := "What are key social norms in " + GetText(entry, RegionKey, "this region") + "?"];
      } else {
        prompts := prompts[field := "Please provide " + field + "."];
      }
      TakeSnoc(missing, i);
      PromptsOverSnoc(entry, missing[..i], field);
    }
    assert missing[..|missing|] == missing;
  }

  /** A field gets a question exactly when it is required and missing or falsy. */
  lemma PromptKeysIff(entry: Record, f: string)
    ensures f in Prompts(entry) <==> f in RequiredFields && !TruthyField(entry, f)
  {
  }

  /** The `communication_style` question names the culture, or "this culture" when the key is absent. */
  lemma CommunicationPromptNamesCulture(entry: Record)
    requires CommunicationStyleKey in Prompts(entry)
    ensures var p := Prompts(entry)[CommunicationStyleKey];
      var name := if CultureNameKey in entry then Repr(entry[CultureNameKey]) else "this culture";
      OccursAt(p, name, |"Describe typical communication style for "|) && EndsWith(p, ".")
  {
  }

  /** The `social_norms` question names the region, not the culture; "this region" when absent. */
  lemma SocialNormsPromptNamesRegion(entry: Record, other: Record)
    requires SocialNormsKey in Prompts(entry) && SocialNormsKey in Prompts(other)
    requires (RegionKey in entry <==> RegionKey in other) && (RegionKey in entry ==> entry[RegionKey] == other[RegionKey])
    ensures Prompts(entry)[SocialNormsKey] == Prompts(other)[SocialNormsKey]
    ensures var p := Prompts(entry)[SocialNormsKey];
      var region := if RegionKey in entry then Repr(entry[RegionKey]) else "this region";
      OccursAt(p, region, |"What are key social norms in "|) && EndsWith(p, "?")
  {
  }

  /** Every other missing field gets "Please provide {field}." */
  lemma OtherPromptsGeneric(entry: Record, f: string)
    requires f in Prompts(entry) && f != CommunicationStyleKey && f != SocialNormsKey
    ensures Prompts(entry)[f] == "Please provide " + f + "."
  {
  }

  /** An entry with all five fields filled gets no questions (and `main` then writes nothing). */
  lemma CompleteEntryNoPrompts(entry: Record)
    requires forall f :: f in RequiredFields ==> TruthyField(entry, f)
    ensures Prompts(entry) == map[]
  {
    assert Missing(entry) == [];
  }
}
