/**
 * The script-side pipeline of scripts/segment_by_culture.py: its copy of the culture
 * segmenter, the section splitter applied inside one culture, the rule-based enrichment,
 * the confidence tier of an enrichment and the language-services lookup.
 */
module SegmentByCulture {
  import opened Wrappers
  import opened Strings
  import opened Seqs
  import CultureSegmenter

  // ---------------------------------------------------------------------------------------
  // Known cultures and the segmenter copy
  // ---------------------------------------------------------------------------------------

  /** The set `load_known_cultures` builds from the lines of its file. */
  function KnownCulturesFrom(fileLines: seq<string>): (known: set<string>)
    ensures "" !in known
    ensures forall l :: l in fileLines && Strip(l) != "" ==> Upper(Strip(l)) in known
    ensures forall k :: k in known ==> exists l :: l in fileLines && Strip(l) != "" && k == Upper(Strip(l))
  {
    set l | l in fileLines && Strip(l) != "" :: Upper(Strip(l))
  }

  /**
   * The script's `segment_cultures`: the same index loop as utils.py (it only adds logging),
   * run with the script's own set of known cultures. It computes the same fold as the
   * utils.py segmenter, and, for a set produced by the loader, the declarative segmentation.
   */
  method SegmentCultures(text: string, knownCultures: set<string>)
    returns (segments: seq<CultureSegmenter.RawSegment>)
    ensures segments == CultureSegmenter.SegmentFold(SplitLines(text), CultureSegmenter.CultureRules(knownCultures))
    ensures "" !in knownCultures ==>
      segments == CultureSegmenter.Segmentation(SplitLines(text), CultureSegmenter.CultureRules(knownCultures))
  {
    var lines := SplitLines(text);
    segments := CultureSegmenter.SegmentLines(lines, CultureSegmenter.CultureRules(knownCultures));
    if "" !in knownCultures {
      CultureSegmenter.CultureRulesTruthy(knownCultures);
      CultureSegmenter.FoldIsSegmentation(lines, CultureSegmenter.CultureRules(knownCultures));
    }
  }

  /**
   * With the cultures the loader reads from a file, the loop's segments are the declarative
   * segmentation: the loader never yields the empty name, which would make every blank line a title.
   */
  lemma LoadedCulturesSegmentation(text: string, fileLines: seq<string>)
    ensures var rules := CultureSegmenter.CultureRules(KnownCulturesFrom(fileLines));
      CultureSegmenter.SegmentFold(SplitLines(text), rules) == CultureSegmenter.Segmentation(SplitLines(text), rules)
  {
    var known := KnownCulturesFrom(fileLines);
    CultureSegmenter.CultureRulesTruthy(known);
    CultureSegmenter.FoldIsSegmentation(SplitLines(text), CultureSegmenter.CultureRules(known));
  }

  // ---------------------------------------------------------------------------------------
  // Sections inside one culture
  // ---------------------------------------------------------------------------------------

  datatype Section = Section(section: string, content: string)

  /** A section before it is rendered: its name and the lines it collected. */
  datatype Group = Group(name: string, lines: seq<string>)

  /** The label of the lines that precede every header. */
  const Uncategorized: string := "Uncategorized"

  /** The headings recognised by their stripped text alone. */
  const SectionHeadings: seq<string> := [
    "Orientation", "Economy", "Marriage and Family", "Religion and Expressive Culture",
    "Kinship", "Political Organization", "Socialization", "Health", "Death and Afterlife"
  ]

  /**
   * A title-cased line of 5 to 8 words, or one of the fixed headings. A listed heading is
   * always a header; any other header has 5 to 8 words and an upper-case first letter.
   */
  predicate IsSectionHeader(line: string)
    ensures Strip(line) in SectionHeadings ==> IsSectionHeader(line)
    ensures IsSectionHeader(line) && Strip(line) !in SectionHeadings ==>
      5 <= WordCount(line) <= 8 && exists i :: 0 <= i < |line| && IsAsciiUpper(line[i])
  {
    TitleCasedHasUpper(line);
    (IsTitleCased(line) && 5 <= WordCount(line) <= 8) || Strip(line) in SectionHeadings
  }

  predicate IsBodyLine(line: string) {
    !IsSectionHeader(line)
  }

  /** The group pending when the loop ends or meets a header: emitted only if it collected lines. */
  function Flush(name: string, content: seq<string>): (r: seq<Group>)
    ensures content == [] ==> r == []
    ensures content != [] ==> r == [Group(name, content)]
  {
    if content == [] then [] else [Group(name, content)]
  }

  /**
   * The groups the loop emits from line `i` on, with `name` and `content` pending, for the
   * header classifier `header`.
   */
  function GroupsFrom(lines: seq<string>, header: string -> bool, i: nat, name: string, content: seq<string>)
    : seq<Group>
    requires i <= |lines|
    decreases |lines| - i
  {
    if i == |lines| then Flush(name, content)
    else if header(lines[i]) then
      Flush(name, content) + GroupsFrom(lines, header, i + 1, Strip(lines[i]), [])
    else GroupsFrom(lines, header, i + 1, name, content + [lines[i]])
  }

  function Groups(lines: seq<string>): seq<Group> {
    GroupsFrom(lines, IsSectionHeader, 0, Uncategorized, [])
  }

  function RenderSection(g: Group): Section {
    Section(g.name, Join("\n", g.lines))
  }

  function RenderSections(gs: seq<Group>): (r: seq<Section>)
    ensures |r| == |gs| && forall k :: 0 <= k < |gs| ==> r[k] == RenderSection(gs[k])
  {
    seq(|gs|, k requires 0 <= k < |gs| => RenderSection(gs[k]))
  }

  /** The lines of all groups, in order. */
  function LinesOf(gs: seq<Group>): seq<string> {
    if gs == [] then [] else gs[0].lines + LinesOf(gs[1..])
  }

  /** `segment_sections`: the loop over the lines of one culture's content. */
  method SegmentSections(content: string) returns (sections: seq<Section>)
    ensures sections == RenderSections(Groups(SplitLines(content)))
  {
    var lines := SplitLines(content);
    sections := [];
    var currentSection := Uncategorized;
    var currentContent: seq<string> := [];
    ghost var emitted: seq<Group> := [];
    for i := 0 to |lines|
      invariant sections == RenderSections(emitted)
      invariant emitted + GroupsFrom(lines, IsSectionHeader, i, currentSection, currentContent) == Groups(lines)
    {
      var line := lines[i];
      if IsSectionHeader(line) {
        ConcatAssoc(emitted, Flush(currentSection, currentContent),
          GroupsFrom(lines, IsSectionHeader, i + 1, Strip(line), []));
        if currentContent != [] {
          RenderSectionsSnoc(emitted, Group(currentSection, currentContent));
          sections := sections + [Section(currentSection, Join("\n", currentContent))];
        }
        emitted := emitted + Flush(currentSection, currentContent);
        currentSection := Strip(line);
        currentContent := [];
      } else {
        currentContent := currentContent + [line];
      }
    }
    if currentContent != [] {
      RenderSectionsSnoc(emitted, Group(currentSection, currentContent));
      sections := sections + [Section(currentSection, Join("\n", currentContent))];
    }
    emitted := emitted + Flush(currentSection, currentContent);
  }

  lemma RenderSectionsSnoc(gs: seq<Group>, g: Group)
    ensures RenderSections(gs + [g]) == RenderSections(gs) + [RenderSection(g)]
  {
  }

  lemma {:induction false} LinesOfAppend(a: seq<Group>, b: seq<Group>)
    ensures LinesOf(a + b) == LinesOf(a) + LinesOf(b)
  {
    if a == [] {
      assert a + b == b;
    } else {
      assert (a + b)[1..] == a[1..] + b;
      LinesOfAppend(a[1..], b);
    }
  }

  /** `body` keeps exactly the lines `header` rejects. */
  ghost predicate Complement(header: string -> bool, body: string -> bool) {
    forall l :: body(l) == !header(l)
  }

  /** Filtering a line list that starts at `lines[i]`. */
  lemma FilterAt(lines: seq<string>, body: string -> bool, i: nat)
    requires i < |lines|
    ensures Filter(lines[i..], body)
         == (if body(lines[i]) then [lines[i]] else []) + Filter(lines[i + 1..], body)
  {
    assert lines[i..][1..] == lines[i + 1..];
  }

  /** The lines of a flushed group are the pending lines. */
  lemma LinesOfFlush(name: string, content: seq<string>)
    ensures LinesOf(Flush(name, content)) == content
  {
    if content != [] {
      assert [Group(name, content)][1..] == [];
    }
  }

  /** At a header the pending lines are emitted, then the groups after it follow. */
  lemma {:induction false} ConserveAtHeader(lines: seq<string>, header: string -> bool, body: string -> bool,
                                             i: nat, name: string, content: seq<string>)
    requires i < |lines| && header(lines[i]) && Complement(header, body)
    requires LinesOf(GroupsFrom(lines, header, i + 1, Strip(lines[i]), [])) == [] + Filter(lines[i + 1..], body)
    ensures LinesOf(GroupsFrom(lines, header, i, name, content)) == content + Filter(lines[i..], body)
  {
    var rest := GroupsFrom(lines, header, i + 1, Strip(lines[i]), []);
    LinesOfAppend(Flush(name, content), rest);
    LinesOfFlush(name, content);
    FilterAt(lines, body, i);
  }

  /** A body line joins the pending lines. */
  lemma {:induction false} ConserveAtBody(lines: seq<string>, header: string -> bool, body: string -> bool,
                                           i: nat, name: string, content: seq<string>)
    requires i < |lines| && !header(lines[i]) && Complement(header, body)
    requires LinesOf(GroupsFrom(lines, header, i + 1, name, content + [lines[i]]))
          == (content + [lines[i]]) + Filter(lines[i + 1..], body)
    ensures LinesOf(GroupsFrom(lines, header, i, name, content)) == content + Filter(lines[i..], body)
  {
    FilterAt(lines, body, i);
  }

  /**
   * Conservation: the groups hold the pending lines followed by exactly the non-header lines,
   * in order; no line is lost or repeated.
   */
  lemma {:induction false} GroupsConserveLines(lines: seq<string>, header: string -> bool, body: string -> bool,
                                                i: nat, name: string, content: seq<string>)
    requires i <= |lines| && Complement(header, body)
    ensures LinesOf(GroupsFrom(lines, header, i, name, content)) == content + Filter(lines[i..], body)
    decreases |lines| - i
  {
    if i == |lines| {
      assert lines[i..] == [];
      LinesOfFlush(name, content);
    } else if header(lines[i]) {
      GroupsConserveLines(lines, header, body, i + 1, Strip(lines[i]), []);
      ConserveAtHeader(lines, header, body, i, name, content);
    } else {
      GroupsConserveLines(lines, header, body, i + 1, name, content + [lines[i]]);
      ConserveAtBody(lines, header, body, i, name, content);
    }
  }

  /** Every emitted group collected at least one line. */
  lemma {:induction false} GroupsNonEmpty(lines: seq<string>, header: string -> bool, i: nat, name: string,
                                          content: seq<string>)
    requires i <= |lines|
    ensures forall g :: g in GroupsFrom(lines, header, i, name, content) ==> g.lines != []
    decreases |lines| - i
  {
    if i < |lines| {
      if header(lines[i]) {
        GroupsNonEmpty(lines, header, i + 1, Strip(lines[i]), []);
      } else {
        GroupsNonEmpty(lines, header, i + 1, name, content + [lines[i]]);
      }
    }
  }

  /** With lines pending, the first emitted group is the pending one, under its current name. */
  lemma {:induction false} PendingComesFirst(lines: seq<string>, header: string -> bool, i: nat, name: string,
                                             content: seq<string>)
    requires i <= |lines| && content != []
    ensures var gs := GroupsFrom(lines, header, i, name, content);
      gs != [] && gs[0].name == name && content <= gs[0].lines
    decreases |lines| - i
  {
    if i < |lines| && !header(lines[i]) {
      PendingComesFirst(lines, header, i + 1, name, content + [lines[i]]);
    }
  }

  /** Every group is named after the pending name or after a stripped header line. */
  lemma {:induction false} GroupNames(lines: seq<string>, header: string -> bool, i: nat, name: string,
                                      content: seq<string>)
    requires i <= |lines|
    ensures forall g :: g in GroupsFrom(lines, header, i, name, content) ==>
      g.name == name || exists j :: i <= j < |lines| && header(lines[j]) && g.name == Strip(lines[j])
    decreases |lines| - i
  {
    if i < |lines| {
      if header(lines[i]) {
        GroupNames(lines, header, i + 1, Strip(lines[i]), []);
      } else {
        GroupNames(lines, header, i + 1, name, content + [lines[i]]);
      }
    }
  }

  lemma {:induction false} LineOfGroup(gs: seq<Group>, g: Group, l: string)
    requires g in gs && l in g.lines
    ensures l in LinesOf(gs)
  {
    if gs[0] != g {
      LineOfGroup(gs[1..], g, l);
    }
  }

  /** Every non-header line of the text lands in exactly one section, in order. */
  lemma SectionsKeepBodyLines(lines: seq<string>)
    ensures LinesOf(Groups(lines)) == Filter(lines, IsBodyLine)
  {
    GroupsConserveLines(lines, IsSectionHeader, IsBodyLine, 0, Uncategorized, []);
    assert lines[0..] == lines;
  }

  /** No header line is part of any section. */
  lemma SectionsHaveNoHeaders(lines: seq<string>)
    ensures forall g, l :: g in Groups(lines) && l in g.lines ==> !IsSectionHeader(l)
  {
    var gs := Groups(lines);
    SectionsKeepBodyLines(lines);
    forall g, l | g in gs && l in g.lines
      ensures !IsSectionHeader(l)
    {
      LineOfGroup(gs, g, l);
    }
  }

  /** No section is empty: a header directly followed by another header emits nothing. */
  lemma SectionsNotEmpty(lines: seq<string>)
    ensures forall g :: g in Groups(lines) ==> g.lines != []
  {
    GroupsNonEmpty(lines, IsSectionHeader, 0, Uncategorized, []);
  }

  /** Each section is labelled "Uncategorized" or by a stripped header line of the text. */
  lemma SectionNames(lines: seq<string>)
    ensures forall g :: g in Groups(lines) ==>
      g.name == Uncategorized
      || exists j :: 0 <= j < |lines| && IsSectionHeader(lines[j]) && g.name == Strip(lines[j])
  {
    GroupNames(lines, IsSectionHeader, 0, Uncategorized, []);
  }

  /** Text that does not open with a header starts with an "Uncategorized" section. */
  lemma LeadingTextUncategorized(lines: seq<string>)
    requires lines != [] && !IsSectionHeader(lines[0])
    ensures Groups(lines) != [] && Groups(lines)[0].name == Uncategorized
  {
    assert [] + [lines[0]] == [lines[0]];
    assert Groups(lines) == GroupsFrom(lines, IsSectionHeader, 1, Uncategorized, [lines[0]]);
    PendingComesFirst(lines, IsSectionHeader, 1, Uncategorized, [lines[0]]);
  }

  /** A header directly followed by another header emits nothing for the first one. */
  lemma HeaderAfterHeaderEmitsNothing(lines: seq<string>, header: string -> bool, i: nat, name: string,
                                      content: seq<string>)
    requires i + 1 < |lines| && header(lines[i]) && header(lines[i + 1])
    ensures GroupsFrom(lines, header, i, name, content)
         == Flush(name, content) + GroupsFrom(lines, header, i + 2, Strip(lines[i + 1]), [])
  {
    assert GroupsFrom(lines, header, i + 1, Strip(lines[i]), [])
        == [] + GroupsFrom(lines, header, i + 2, Strip(lines[i + 1]), []);
  }

  /** "Marriage and Family" is not title-cased; it is a header only because it is listed. */
  lemma ListedHeadingNotTitleCased()
    ensures !IsTitleCased("Marriage and Family") && IsSectionHeader("Marriage and Family")
  {
    var s := "Marriage and Family";
    assert IsAsciiLower(s[9]) && !IsAsciiLetter(s[8]);
    assert Strip(s) == s by {
      StripUnchanged(s);
    }
    assert SectionHeadings[2] == s;
  }

  // ---------------------------------------------------------------------------------------
  // Enrichment and confidence
  // ---------------------------------------------------------------------------------------

  /** The four enrichment keys. */
  const RegionKey: string := "Region"
  const LanguageKey: string := "Language(s)"
  const EthnicityKey: string := "Ethnicity/Group"
  const TagsKey: string := "Tags"

  const DefaultEnrichment: map<string, string> := map[
    RegionKey := "Unknown", LanguageKey := "Unknown", EthnicityKey := "Unknown", TagsKey := "culture"
  ]

  /** One enrichment rule: the text it matches and the fields it may set. */
  datatype Rule = Rule(pattern: string, region: Option<string>, language: Option<string>,
                       ethnicity: Option<string>, tags: Option<string>)

  /** The value a rule carries for an enrichment key. */
  function RuleField(rule: Rule, key: string): Option<string> {
    if key == RegionKey then rule.region
    else if key == LanguageKey then rule.language
    else if key == EthnicityKey then rule.ethnicity
    else if key == TagsKey then rule.tags
    else None
  }

  /** `rule["match"].upper() in title.upper()`. */
  predicate RuleMatches(rule: Rule, title: string) {
    Contains(Upper(title), Upper(rule.pattern))
  }

  predicate HasEnrichmentKeys(e: map<string, string>) {
    e.Keys == DefaultEnrichment.Keys
  }

  /** `enrichment.update(...)` for one matching rule: a field the rule omits keeps its value. */
  function ApplyRule(e: map<string, string>, rule: Rule): (r: map<string, string>)
    requires HasEnrichmentKeys(e)
    ensures HasEnrichmentKeys(r)
    ensures forall key :: key in r ==> r[key] == RuleField(rule, key).GetOr(e[key])
  {
    e[RegionKey := rule.region.GetOr(e[RegionKey])]
     [LanguageKey := rule.language.GetOr(e[LanguageKey])]
     [EthnicityKey := rule.ethnicity.GetOr(e[EthnicityKey])]
     [TagsKey := rule.tags.GetOr(e[TagsKey])]
  }

  /** The enrichment after the loop has visited `rules` in order. */
  function EnrichWith(title: string, rules: seq<Rule>): (e: map<string, string>)
    ensures HasEnrichmentKeys(e)
  {
    if rules == [] then DefaultEnrichment
    else
      var prev := EnrichWith(title, rules[..|rules| - 1]);
      var last := rules[|rules| - 1];
      if RuleMatches(last, title) then ApplyRule(prev, last) else prev
  }

  /** `enrich_culture`: start from the defaults and apply every matching rule in list order. */
  method EnrichCulture(title: string, rules: seq<Rule>) returns (enrichment: map<string, string>)
    ensures enrichment == EnrichWith(title, rules)
  {
    enrichment := DefaultEnrichment;
    for i := 0 to |rules|
      invariant enrichment == EnrichWith(title, rules[..i])
    {
      EnrichStep(title, rules, i);
      if RuleMatches(rules[i], title) {
        enrichment := ApplyRule(enrichment, rules[i]);
      }
    }
    assert rules[..|rules|] == rules;
  }

  /** One more rule visited by the loop. */
  lemma EnrichStep(title: string, rules: seq<Rule>, i: nat)
    requires i < |rules|
    ensures EnrichWith(title, rules[..i + 1])
         == if RuleMatches(rules[i], title) then ApplyRule(EnrichWith(title, rules[..i]), rules[i])
            else EnrichWith(title, rules[..i])
  {
    assert rules[..i + 1][..i] == rules[..i];
  }

  /** The last matching rule that sets a key decides its value. */
  lemma {:induction false} LaterRuleWins(title: string, rules: seq<Rule>, key: string, j: nat)
    requires key in DefaultEnrichment
    requires j < |rules| && RuleMatches(rules[j], title) && RuleField(rules[j], key).Some?
    requires forall k :: j < k < |rules| && RuleMatches(rules[k], title) ==> RuleField(rules[k], key).None?
    ensures EnrichWith(title, rules)[key] == RuleField(rules[j], key).value
  {
    if j < |rules| - 1 {
      var init := rules[..|rules| - 1];
      LaterRuleWins(title, init, key, j);
    }
  }

  /** A key no matching rule sets keeps its default. */
  lemma {:induction false} UnsetKeyKeepsDefault(title: string, rules: seq<Rule>, key: string)
    requires key in DefaultEnrichment
    requires forall k :: 0 <= k < |rules| && RuleMatches(rules[k], title) ==> RuleField(rules[k], key).None?
    ensures EnrichWith(title, rules)[key] == DefaultEnrichment[key]
  {
    if rules != [] {
      UnsetKeyKeepsDefault(title, rules[..|rules| - 1], key);
    }
  }

  /** With no matching rule the enrichment is exactly the defaults. */
  lemma {:induction false} NoMatchGivesDefaults(title: string, rules: seq<Rule>)
    requires forall k :: 0 <= k < |rules| ==> !RuleMatches(rules[k], title)
    ensures EnrichWith(title, rules) == DefaultEnrichment
  {
    if rules != [] {
      NoMatchGivesDefaults(title, rules[..|rules| - 1]);
    }
  }

  /** Some enrichment value lower-cases to "unknown". */
  predicate HasUnknown(enrichment: map<string, string>) {
    exists key :: key in enrichment && Lower(enrichment[key]) == "unknown"
  }

  /** `confidence_score`: an unknown field wins, then short content, then "high". */
  function ConfidenceScore(enrichment: map<string, string>, content: string): (r: string)
    ensures r == "low" <==> HasUnknown(enrichment)
    ensures r == "medium" <==> !HasUnknown(enrichment) && |content| < 300
    ensures r == "high" <==> !HasUnknown(enrichment) && |content| >= 300
  {
    if HasUnknown(enrichment) then "low"
    else if |content| < 300 then "medium"
    else "high"
  }

  /** A title that no rule matches always scores "low", whatever its content. */
  lemma NoMatchIsLow(title: string, rules: seq<Rule>, content: string)
    requires forall k :: 0 <= k < |rules| ==> !RuleMatches(rules[k], title)
    ensures ConfidenceScore(EnrichWith(title, rules), content) == "low"
  {
    NoMatchGivesDefaults(title, rules);
    assert Lower(DefaultEnrichment[RegionKey]) == "unknown";
  }

  // ---------------------------------------------------------------------------------------
  // Language services
  // ---------------------------------------------------------------------------------------

  /** `enrich_language_services`: the entry stored under the lower-cased culture, else `{}`. */
  function EnrichLanguageServices(services: map<string, map<string, string>>, culture: string)
    : (entry: map<string, string>)
    ensures Lower(culture) !in services ==> entry == map[]
    ensures Lower(culture) in services ==> entry == services[Lower(culture)]
  {
    if Lower(culture) in services then services[Lower(culture)] else map[]
  }

  /** The lookup does not depend on the case of the culture name. */
  lemma LanguageServicesIgnoreCase(services: map<string, map<string, string>>, culture: string)
    ensures EnrichLanguageServices(services, Upper(culture)) == EnrichLanguageServices(services, culture)
    ensures EnrichLanguageServices(services, Lower(culture)) == EnrichLanguageServices(services, culture)
  {
    LowerOfUpper(culture);
    LowerIdempotent(culture);
  }
}
