/**
 * The language-tag lookup of the stub generator and its splitting of a language list into names.
 */
module GenerateCultureStubs {
  import opened Wrappers
  import opened Strings
  import Seqs

  /** The tag returned for a language the table does not list (BCP 47 "undetermined"). */
  const UndeterminedTag: string := "und"

  /**
   * `LANGUAGE_TAG_MAP`, as the entries of its dict display in source order. The display lists
   * `"tibetan"` twice; a dict display keeps the last value for a repeated key (`DictGet`).
   * It is written in three parts so that the verifier can enumerate each.
   */
  const LanguageTagEntries: seq<(string, string)> := TagEntriesA + TagEntriesB + TagEntriesC

  const TagEntriesA: seq<(string, string)> := [
    ("english", "en"), ("spanish", "es"), ("french", "fr"), ("japanese", "ja"),
    ("chinese", "zh"), ("arabic", "ar"), ("portuguese", "pt"), ("german", "de"),
    ("russian", "ru"), ("korean", "ko"), ("italian", "it"), ("dutch", "nl"),
    ("swedish", "sv"), ("norwegian", "no"), ("danish", "da"), ("finnish", "fi"),
    ("greek", "el"), ("hebrew", "he"), ("hindi", "hi"), ("indonesian", "id"),
    ("malay", "ms"), ("thai", "th"), ("turkish", "tr"), ("vietnamese", "vi"),
    ("bengali", "bn"), ("punjabi", "pa"), ("urdu", "ur"), ("persian", "fa"),
    ("swahili", "sw"), ("amharic", "am"), ("hausa", "ha"), ("yoruba", "yo")
  ]

  const TagEntriesB: seq<(string, string)> := [
    ("igbo", "ig"), ("somali", "so"), ("kurdish", "ku"), ("ukrainian", "uk"),
    ("polish", "pl"), ("romanian", "ro"), ("hungarian", "hu"), ("czech", "cs"),
    ("slovak", "sk"), ("bulgarian", "bg"), ("serbian", "sr"), ("croatian", "hr"),
    ("bosnian", "bs"), ("albanian", "sq"), ("georgian", "ka"), ("armenian", "hy"),
    ("azerbaijani", "az"), ("kazakh", "kk"), ("uzbek", "uz"), ("mongolian", "mn"),
    ("tibetan", "bo"), ("burmese", "my"), ("khmer", "km"), ("lao", "lo"),
    ("tagalog", "tl"), ("cebuano", "ceb"), ("malagasy", "mg"), ("nepali", "ne"),
    ("sinhala", "si"), ("tamil", "ta"), ("telugu", "te"), ("kannada", "kn")
  ]

  const TagEntriesC: seq<(string, string)> := [
    ("malayalam", "ml"), ("gujarati", "gu"), ("marathi", "mr"), ("oriya", "or"),
    ("assamese", "as"), ("sindhi", "sd"), ("pashto", "ps"), ("balochi", "bal"),
    ("uyghur", "ug"), ("tibetan", "bo"), ("zulu", "zu"), ("xhosa", "xh"),
    ("afrikaans", "af"), ("sesotho", "st"), ("tswana", "tn"), ("shona", "sn"),
    ("kikuyu", "ki"), ("luganda", "lg"), ("kinyarwanda", "rw"), ("kirundi", "rn"),
    ("lingala", "ln"), ("wolof", "wo"), ("fulani", "ff"), ("manding", "man"),
    ("ewe", "ee"), ("akan", "ak"), ("ga", "gaa"), ("twi", "tw")
  ]

  /** `d.get(key)` for the dict a display with these entries builds: the last entry for `key` wins. */
  function DictGet(entries: seq<(string, string)>, key: string): Option<string> {
    if entries == [] then None
    else if entries[|entries| - 1].0 == key then Some(entries[|entries| - 1].1)
    else DictGet(entries[..|entries| - 1], key)
  }

  /** The lookup finds nothing exactly when no entry has the key, and otherwise the last entry's value. */
  lemma {:induction false} DictGetLast(entries: seq<(string, string)>, key: string)
    ensures var r := DictGet(entries, key);
      (r.None? <==> forall i :: 0 <= i < |entries| ==> entries[i].0 != key)
      && (r.Some? ==> exists i :: LastEntryFor(entries, key, i) && entries[i].1 == r.value)
  {
    if entries != [] {
      var n := |entries| - 1;
      if entries[n].0 != key {
        DictGetLast(entries[..n], key);
        assert forall i :: 0 <= i < n ==> entries[..n][i] == entries[i];
        var r := DictGet(entries[..n], key);
        if r.Some? {
          var i :| LastEntryFor(entries[..n], key, i) && entries[..n][i].1 == r.value;
          assert LastEntryFor(entries, key, i);
        }
      } else {
        assert LastEntryFor(entries, key, n);
      }
    }
  }

  /** Entry `i` is the last one with this key. */
  predicate LastEntryFor(entries: seq<(string, string)>, key: string, i: int) {
    0 <= i < |entries| && entries[i].0 == key && forall j :: i < j < |entries| ==> entries[j].0 != key
  }

  /** No tag in the table is `"und"` or empty. */
  lemma {:induction false} TagsAreDetermined()
    ensures forall i :: 0 <= i < |LanguageTagEntries| ==>
      LanguageTagEntries[i].1 != UndeterminedTag && LanguageTagEntries[i].1 != ""
  {
    assert forall i :: 0 <= i < |TagEntriesA| ==> TagEntriesA[i].1 != UndeterminedTag && TagEntriesA[i].1 != "";
    assert forall i :: 0 <= i < |TagEntriesB| ==> TagEntriesB[i].1 != UndeterminedTag && TagEntriesB[i].1 != "";
    assert forall i :: 0 <= i < |TagEntriesC| ==> TagEntriesC[i].1 != UndeterminedTag && TagEntriesC[i].1 != "";
  }

  /** Both `"tibetan"` entries carry `"bo"`, so the repeated key is harmless. */
  lemma TibetanListedTwiceAlike()
    ensures TagEntriesB[20] == TagEntriesC[9] == ("tibetan", "bo")
    ensures DictGet(LanguageTagEntries, "tibetan") == Some("bo")
  {
    DictGetAppend(TagEntriesA + TagEntriesB, TagEntriesC, "tibetan");
    DictGetLast(TagEntriesC, "tibetan");
    assert forall j :: 10 <= j < |TagEntriesC| ==> TagEntriesC[j].0 != "tibetan";
  }

  /** A key the later entries define is looked up there; otherwise in the earlier ones. */
  lemma {:induction false} DictGetAppend(a: seq<(string, string)>, b: seq<(string, string)>, key: string)
    ensures DictGet(a + b, key) == if DictGet(b, key).Some? then DictGet(b, key) else DictGet(a, key)
    decreases |b|
  {
    if b == [] {
      assert a + b == a;
    } else {
      var n := |b| - 1;
      assert (a + b)[..|a + b| - 1] == a + b[..n];
      if b[n].0 != key {
        DictGetAppend(a, b[..n], key);
      }
    }
  }

  /** The lookup key: lower-cased, cut at the first `(`, trimmed. */
  function CleanedName(languageName: string): string {
    Strip(SplitChar(Lower(languageName), '(')[0])
  }

  /**
   * `get_language_tag`: the table's tag for the cleaned name, `"und"` when it has none. The tag
   * is never empty, and it is `"und"` or the tag of a table entry for the cleaned name.
   */
  function GetLanguageTag(languageName: string): (r: string)
    ensures r != ""
    ensures r == UndeterminedTag
         || exists i :: 0 <= i < |LanguageTagEntries| && LanguageTagEntries[i] == (CleanedName(languageName), r)
  {
    DictGetLast(LanguageTagEntries, CleanedName(languageName));
    match DictGet(LanguageTagEntries, CleanedName(languageName))
    case Some(tag) => if tag != "" then tag else UndeterminedTag
    case None => UndeterminedTag
  }

  /** The tag is the table's entry for the cleaned name when it lists one, `"und"` exactly otherwise. */
  lemma UndeterminedIff(languageName: string)
    ensures var key := CleanedName(languageName);
      var r := GetLanguageTag(languageName);
      (r == UndeterminedTag <==> forall i :: 0 <= i < |LanguageTagEntries| ==> LanguageTagEntries[i].0 != key)
      && (r != UndeterminedTag ==> exists i :: LastEntryFor(LanguageTagEntries, key, i) && LanguageTagEntries[i].1 == r)
  {
    TagsAreDetermined();
    DictGetLast(LanguageTagEntries, CleanedName(languageName));
  }

  /** Names that agree up to ASCII case get the same tag. */
  lemma CaseInsensitive(a: string, b: string)
    requires Lower(a) == Lower(b)
    ensures GetLanguageTag(a) == GetLanguageTag(b)
  {
  }

  /** In particular upper-casing a name does not change its tag. */
  lemma UpperCaseSameTag(languageName: string)
    ensures GetLanguageTag(Upper(languageName)) == GetLanguageTag(languageName)
  {
    LowerOfUpper(languageName);
  }

  /** Lower-casing commutes with concatenation. */
  lemma LowerConcat(a: string, b: string)
    ensures Lower(a + b) == Lower(a) + Lower(b)
  {
  }

  /** A parenthesised qualifier is ignored: only the text before the first `(` counts. */
  lemma ParenthesisIgnored(name: string, qualifier: string)
    requires '(' !in name
    ensures GetLanguageTag(name + "(" + qualifier) == GetLanguageTag(name)
  {
    LowerConcat(name + "(", qualifier);
    LowerConcat(name, "(");
    assert Lower("(") == "(";
    assert '(' !in Lower(name) by {
      forall i | 0 <= i < |name|
        ensures Lower(name)[i] != '('
      {
        assert name[i] != '(';
      }
    }
    SplitCharConcat(Lower(name), Lower(qualifier), '(');
    var pieces := SplitChar(Lower(name), '(');
    assert |pieces| == 1 && Join("(", pieces) == Lower(name);
  }

  /** `[p.strip() for p in pieces if p.strip()]`. */
  function StrippedNonEmpty(pieces: seq<string>): (r: seq<string>)
    ensures |r| <= |pieces|
    ensures forall i :: 0 <= i < |r| ==> r[i] != ""
  {
    if pieces == [] then []
    else
      var t := Strip(pieces[0]);
      (if t != "" then [t] else []) + StrippedNonEmpty(pieces[1..])
  }

  /** Each piece, stripped. */
  function StripAll(pieces: seq<string>): (r: seq<string>)
    ensures |r| == |pieces| && forall i :: 0 <= i < |pieces| ==> r[i] == Strip(pieces[i])
  {
    seq(|pieces|, i requires 0 <= i < |pieces| => Strip(pieces[i]))
  }

  predicate NonEmptyText(t: string) {
    t != ""
  }

  /** The comprehension is the non-empty ones among the stripped pieces, in order. */
  lemma {:induction false} StrippedNonEmptyIsFilter(pieces: seq<string>)
    ensures StrippedNonEmpty(pieces) == Seqs.Filter(StripAll(pieces), NonEmptyText)
  {
    if pieces != [] {
      StrippedNonEmptyIsFilter(pieces[1..]);
      assert StripAll(pieces)[1..] == StripAll(pieces[1..]);
    }
  }

  /** Every kept name is the strip of a piece, and is its own strip. */
  lemma {:induction false} StrippedNamesTrimmed(pieces: seq<string>)
    ensures forall i :: 0 <= i < |StrippedNonEmpty(pieces)| ==>
      Strip(StrippedNonEmpty(pieces)[i]) == StrippedNonEmpty(pieces)[i]
      && exists k :: 0 <= k < |pieces| && Strip(pieces[k]) == StrippedNonEmpty(pieces)[i]
  {
    if pieces != [] {
      StrippedNamesTrimmed(pieces[1..]);
      var t := Strip(pieces[0]);
      StripProperties(pieces[0]);
      StripUnchanged(t);
      var rest := StrippedNonEmpty(pieces[1..]);
      forall i | 0 <= i < |rest|
        ensures exists k :: 0 <= k < |pieces| && Strip(pieces[k]) == rest[i]
      {
        var k :| 0 <= k < |pieces[1..]| && Strip(pieces[1..][k]) == rest[i];
        assert pieces[k + 1] == pieces[1..][k];
      }
    }
  }

  /** Pieces that are already trimmed and non-empty are kept as they are. */
  lemma {:induction false} StrippedNonEmptyIdentity(pieces: seq<string>)
    requires forall k :: 0 <= k < |pieces| ==> pieces[k] != "" && Strip(pieces[k]) == pieces[k]
    ensures StrippedNonEmpty(pieces) == pieces
  {
    if pieces != [] {
      StrippedNonEmptyIdentity(pieces[1..]);
      assert [pieces[0]] + pieces[1..] == pieces;
    }
  }

  /**
   * The language names of a list file: comma-separated when the text has a comma, else one per
   * line; trimmed, blanks dropped.
   */
  function LanguageNames(content: string): (names: seq<string>)
    ensures forall i :: 0 <= i < |names| ==> names[i] != ""
    ensures names == Seqs.Filter(StripAll(if ',' in content then SplitChar(content, ',') else SplitLines(content)),
                                 NonEmptyText)
  {
    StrippedNonEmptyIsFilter(if ',' in content then SplitChar(content, ',') else SplitLines(content));
    if ',' in content then StrippedNonEmpty(SplitChar(content, ','))
    else StrippedNonEmpty(SplitLines(content))
  }

  /** Joining two or more clean names with commas and splitting the list gives them back. */
  lemma CommaListRoundTrip(names: seq<string>)
    requires |names| >= 2
    requires forall k :: 0 <= k < |names| ==> names[k] != "" && Strip(names[k]) == names[k] && ',' !in names[k]
    ensures LanguageNames(Join([','], names)) == names
  {
    var text := Join([','], names);
    assert text == names[0] + [','] + Join([','], names[1..]);
    assert text[|names[0]|] == ',';
    SplitJoin(names, ',');
    StrippedNonEmptyIdentity(names);
  }

  /** Clean names written one per line, without commas, are read back as they are. */
  lemma LineListRoundTrip(names: seq<string>)
    requires forall k :: 0 <= k < |names| ==>
      names[k] != "" && Strip(names[k]) == names[k] && ',' !in names[k] && '\n' !in names[k]
    ensures LanguageNames(Unlines(names)) == names
  {
    var text := Unlines(names);
    UnlinesNoComma(names);
    SplitUnlines(names, "");
    assert text + "" == text;
    if names != [] {
      UnlinesCons(names, "");
      assert text[|text| - 1] == '\n' by {
        UnlinesEndsWithNewline(names);
      }
      assert SplitChar("", '\n') == [""];
      assert (names + [""])[..|names|] == names;
    }
    StrippedNonEmptyIdentity(names);
  }

  lemma {:induction false} UnlinesNoComma(lines: seq<string>)
    requires forall k :: 0 <= k < |lines| ==> ',' !in lines[k]
    ensures ',' !in Unlines(lines)
  {
    if lines != [] {
      UnlinesNoComma(lines[1..]);
    }
  }

  lemma {:induction false} UnlinesEndsWithNewline(lines: seq<string>)
    requires lines != []
    ensures var t := Unlines(lines); t != [] && t[|t| - 1] == '\n'
  {
    if |lines| > 1 {
      UnlinesEndsWithNewline(lines[1..]);
    }
  }
}
