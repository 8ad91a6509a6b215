/**
 * The statistics the script derives from the vocabulary: `getVocabProperties`,
 * `calculateSkillStrength` and the dead-word and all-word count dictionaries
 * of `handleVocabulary`. The current time is a parameter.
 */
module Vocabulary {
  import opened Wrappers
  import opened Records
  import opened Sorting
  import opened Statistics
  import opened Dictionaries

  /** What `getVocabProperties` returns. */
  datatype VocabProperties = VocabProperties(
    averageStrength: real,
    averageAge: real,
    medianAge: real,
    zeroStrength: nat)

  /**
   * `getVocabProperties(vocab)` at time `now`: mean strength, mean and median
   * age in seconds, and the number of dead words. `average` throws on an
   * empty vocabulary (`None`).
   */
  method GetVocabProperties(vocab: seq<VocabRecord>, now: int) returns (r: Option<VocabProperties>)
    ensures r.None? <==> vocab == []
    ensures r.Some? ==> r.value == VocabProperties(
                          Average(Strengths(vocab)).value,
                          Average(Ages(vocab, now)).value,
                          MedianOf(Ages(vocab, now)).value,
                          |DeadWords(vocab)|)
  {
    var averageStrength := Average(Strengths(vocab));
    if averageStrength.None? {
      return None;
    }
    var averageAge := Average(Ages(vocab, now));
    var ages := new real[|vocab|](i requires 0 <= i < |vocab| => Age(vocab[i], now));
    assert ages[..] == Ages(vocab, now);
    var medianAge := Median(ages);
    r := Some(VocabProperties(averageStrength.value, averageAge.value, medianAge.value, |DeadWords(vocab)|));
  }

  /** The dead words are the records whose strength is exactly 0. */
  lemma {:induction false} DeadWordsCount(vocab: seq<VocabRecord>)
    ensures |DeadWords(vocab)| == multiset(Strengths(vocab))[0.0]
    ensures multiset(DeadWords(vocab)) <= multiset(vocab)
  {
    if vocab != [] {
      var init := vocab[..|vocab| - 1];
      var last := vocab[|vocab| - 1];
      DeadWordsCount(init);
      assert vocab == init + [last];
      assert Strengths(vocab) == Strengths(init) + [last.strength];
    }
  }

  /**
   * For well-formed data (strengths in [0, 1], practice times not after `now`)
   * the mean strength is in [0, 1], and the mean and median ages lie between
   * 0 and the age of the oldest record.
   */
  lemma PropertiesInRange(vocab: seq<VocabRecord>, now: int, oldest: real)
    requires vocab != []
    requires StrengthsInRange(vocab)
    requires forall i :: 0 <= i < |vocab| ==> 0.0 <= Age(vocab[i], now) <= oldest
    ensures 0.0 <= Average(Strengths(vocab)).value <= 1.0
    ensures 0.0 <= Average(Ages(vocab, now)).value <= oldest
    ensures 0.0 <= MedianOf(Ages(vocab, now)).value <= oldest
  {
    AverageWithin(Strengths(vocab), 0.0, 1.0);
    AverageWithin(Ages(vocab, now), 0.0, oldest);
    MedianWithin(Ages(vocab, now), 0.0, oldest);
  }

  /** One entry of `calculateSkillStrength`'s result. */
  datatype SkillStrength = SkillStrength(name: string, strength: real, url: string)

  /** The sort key of line 216. */
  function StrengthOf(s: SkillStrength): real
  {
    s.strength
  }

  /** Lines 209-211: the entry for skill `name` whose records are `group`. */
  function Summarize(name: string, group: seq<VocabRecord>): SkillStrength
    requires group != []
  {
    SkillStrength(name, Average(Strengths(group)).value, group[0].skillUrlTitle)
  }

  /** The strength of an entry lies within any bounds of its records' strengths. */
  lemma SummarizeWithin(name: string, group: seq<VocabRecord>, lo: real, hi: real)
    requires group != []
    requires forall i :: 0 <= i < |group| ==> lo <= group[i].strength <= hi
    ensures lo <= Summarize(name, group).strength <= hi
  {
    AverageWithin(Strengths(group), lo, hi);
  }

  lemma GroupsNonEmpty(vocab: seq<VocabRecord>, attr: Attr)
    ensures forall k :: k in Distinct(Project(vocab, attr)) ==> Select(vocab, attr, k) != []
  {
    DistinctSpec(Project(vocab, attr));
    forall k | k in Distinct(Project(vocab, attr)) ensures Select(vocab, attr, k) != [] {
      SelectNonEmpty(vocab, attr, k);
    }
  }

  /** The skill names in first-occurrence order: `Object.keys(groupBySkill)`. */
  function SkillNames(vocab: seq<VocabRecord>): seq<string>
  {
    Distinct(Project(vocab, Skill))
  }

  /** Lines 208-212: one entry per skill, in first-occurrence order, before sorting. */
  function SkillEntries(vocab: seq<VocabRecord>): (r: seq<SkillStrength>)
    ensures |r| == |SkillNames(vocab)|
  {
    var names := SkillNames(vocab);
    GroupsNonEmpty(vocab, Skill);
    seq(|names|, i requires 0 <= i < |names| => Summarize(names[i], Select(vocab, Skill, names[i])))
  }

  /** What every entry of `SkillEntries` states about its skill's records. */
  ghost predicate DescribesGroup(vocab: seq<VocabRecord>, s: SkillStrength)
  {
    var group := Select(vocab, Skill, s.name);
    && group != []
    && s.strength == Average(Strengths(group)).value
    && s.url == group[0].skillUrlTitle
  }

  lemma EntriesDescribeGroups(vocab: seq<VocabRecord>)
    ensures forall i :: 0 <= i < |SkillEntries(vocab)| ==>
      SkillEntries(vocab)[i].name == SkillNames(vocab)[i] && DescribesGroup(vocab, SkillEntries(vocab)[i])
  {
    GroupsNonEmpty(vocab, Skill);
  }

  /** Two equal elements at different positions occur at least twice. */
  lemma CountsTwice<T>(s: seq<T>, i: nat, j: nat)
    requires i < j < |s| && s[i] == s[j]
    ensures multiset(s)[s[i]] >= 2
  {
    assert s == s[..i] + [s[i]] + s[i + 1..j] + [s[j]] + s[j + 1..];
  }

  /** Entries with pairwise different names occur at most once each. */
  lemma {:induction false} DistinctNamesOnce(s: seq<SkillStrength>, x: SkillStrength)
    requires forall i, j :: 0 <= i < j < |s| ==> s[i].name != s[j].name
    ensures multiset(s)[x] <= 1
  {
    if s != [] {
      assert s == [s[0]] + s[1..];
      DistinctNamesOnce(s[1..], x);
      if s[0] == x {
        assert x !in s[1..] by {
          forall i | 1 <= i < |s| ensures s[i] != x {
            assert s[0].name != s[i].name;
          }
        }
      }
    }
  }

  /** A rearrangement of entries with pairwise different names has pairwise different names. */
  lemma PermutedNamesDistinct(entries: seq<SkillStrength>, skills: seq<SkillStrength>)
    requires multiset(skills) == multiset(entries)
    requires forall i, j :: 0 <= i < j < |entries| ==> entries[i].name != entries[j].name
    ensures forall i, j :: 0 <= i < j < |skills| ==> skills[i].name != skills[j].name
  {
    forall i, j | 0 <= i < j < |skills| ensures skills[i].name != skills[j].name {
      if skills[i].name == skills[j].name {
        assert skills[i] in multiset(entries) && skills[j] in multiset(entries);
        var p :| 0 <= p < |entries| && entries[p] == skills[i];
        var q :| 0 <= q < |entries| && entries[q] == skills[j];
        assert p == q;
        CountsTwice(skills, i, j);
        DistinctNamesOnce(entries, skills[i]);
        assert false;
      }
    }
  }

  /**
   * Any rearrangement of `SkillEntries` has exactly one entry per distinct
   * skill, and each entry carries its group's mean strength and the slug of
   * the group's first record.
   */
  lemma OneEntryPerSkill(vocab: seq<VocabRecord>, skills: seq<SkillStrength>)
    requires multiset(skills) == multiset(SkillEntries(vocab))
    ensures |skills| == |SkillNames(vocab)|
    ensures forall i, j :: 0 <= i < j < |skills| ==> skills[i].name != skills[j].name
    ensures forall k :: k in Project(vocab, Skill) <==> exists i :: 0 <= i < |skills| && skills[i].name == k
    ensures forall i :: 0 <= i < |skills| ==> DescribesGroup(vocab, skills[i])
  {
    var entries := SkillEntries(vocab);
    var names := SkillNames(vocab);
    EntriesDescribeGroups(vocab);
    DistinctSpec(Project(vocab, Skill));
    assert |skills| == |multiset(skills)| == |multiset(entries)| == |entries|;
    forall i | 0 <= i < |skills| ensures DescribesGroup(vocab, skills[i]) && skills[i].name in names {
      assert skills[i] in multiset(entries);
      var p :| 0 <= p < |entries| && entries[p] == skills[i];
    }
    PermutedNamesDistinct(entries, skills);
    forall k | k in Project(vocab, Skill) ensures exists i :: 0 <= i < |skills| && skills[i].name == k {
      var p :| 0 <= p < |names| && names[p] == k;
      assert entries[p] in multiset(skills);
      var i :| 0 <= i < |skills| && skills[i] == entries[p];
    }
  }

  /**
   * `calculateSkillStrength(vocab)`: the per-skill entries, sorted weakest
   * first by a stable sort, so entries of equal strength keep the order in
   * which their skills first occur.
   */
  method CalculateSkillStrength(vocab: seq<VocabRecord>) returns (skills: seq<SkillStrength>)
    ensures |skills| == |SkillNames(vocab)|
    ensures forall i, j :: 0 <= i < j < |skills| ==> skills[i].name != skills[j].name
    ensures forall k :: k in Project(vocab, Skill) <==> exists i :: 0 <= i < |skills| && skills[i].name == k
    ensures forall i :: 0 <= i < |skills| ==> DescribesGroup(vocab, skills[i])
    ensures SortedBy(skills, StrengthOf)
    ensures multiset(skills) == multiset(SkillEntries(vocab))
    ensures SameTies(SkillEntries(vocab), skills, StrengthOf)
  {
    var groupBySkill := GroupBy(vocab, Skill);
    var names := groupBySkill.keys;
    GroupsNonEmpty(vocab, Skill);
    DistinctSpec(Project(vocab, Skill));
    var entries := seq(|names|, i requires 0 <= i < |names| => Summarize(names[i], groupBySkill.entries[names[i]]));
    assert entries == SkillEntries(vocab);
    var a := new SkillStrength[|entries|](i requires 0 <= i < |entries| => entries[i]);
    assert a[..] == entries;
    SortBy(a, StrengthOf);
    skills := a[..];
    OneEntryPerSkill(vocab, skills);
  }

  /** Under well-formed strengths every skill's strength is in [0, 1]. */
  lemma SkillStrengthInRange(vocab: seq<VocabRecord>, s: SkillStrength)
    requires StrengthsInRange(vocab)
    requires DescribesGroup(vocab, s)
    ensures 0.0 <= s.strength <= 1.0
  {
    var group := Select(vocab, Skill, s.name);
    forall i | 0 <= i < |group| ensures 0.0 <= group[i].strength <= 1.0 {
      SelectMembers(vocab, Skill, s.name, group[i]);
    }
    AverageWithin(Strengths(group), 0.0, 1.0);
  }

  /** `deadwords.map(a => a.skill_url_title)` (lines 108-109). */
  function DeadTitles(vocab: seq<VocabRecord>): seq<string>
  {
    Project(DeadWords(vocab), SkillUrlTitle)
  }

  /** `vocab.map(a => a.skill_url_title)` (line 111). */
  function AllTitles(vocab: seq<VocabRecord>): seq<string>
  {
    Project(vocab, SkillUrlTitle)
  }

  /** A slug never has more dead words than words. */
  lemma {:induction false} DeadTitlesBounded(vocab: seq<VocabRecord>, url: string)
    ensures multiset(DeadTitles(vocab))[url] <= multiset(AllTitles(vocab))[url]
  {
    if vocab != [] {
      var init := vocab[..|vocab| - 1];
      var last := vocab[|vocab| - 1];
      DeadTitlesBounded(init, url);
      assert vocab == init + [last];
      ProjectSnoc(init, last, SkillUrlTitle);
      if last.strength == 0.0 {
        assert DeadWords(vocab) == DeadWords(init) + [last];
        ProjectSnoc(DeadWords(init), last, SkillUrlTitle);
      } else {
        assert DeadWords(vocab) == DeadWords(init);
      }
    }
  }

  /** The slug of every skill entry is the slug of one of the records. */
  lemma SlugIsCounted(vocab: seq<VocabRecord>, s: SkillStrength)
    requires DescribesGroup(vocab, s)
    ensures s.url in AllTitles(vocab)
  {
    var group := Select(vocab, Skill, s.name);
    SelectMembers(vocab, Skill, s.name, group[0]);
    var j :| 0 <= j < |vocab| && vocab[j] == group[0];
    assert AllTitles(vocab)[j] == s.url;
  }

  /** One list item of lines 127-131: the dead and all word counts of the skill's slug. */
  datatype SkillRow = SkillRow(name: string, url: string, strength: real, deadWords: nat, allWords: nat)

  /** Line 129 reads a missing slug in `deadwordsDict` as 0; line 130 reads `allwordsDict[url]` unguarded. */
  function RowFor(s: SkillStrength, deadwordsDict: Dict<nat>, allwordsDict: Dict<nat>): SkillRow
    requires s.url in allwordsDict.entries
  {
    SkillRow(s.name, s.url, s.strength, Lookup(deadwordsDict, s.url), allwordsDict.entries[s.url])
  }

  /**
   * The row of lines 127-131 for a skill whose slug occurs among the records:
   * `allwordsDict[url]` is defined, and the row shows the slug's dead-word
   * and word counts, the first at most the second.
   */
  lemma RowCounts(vocab: seq<VocabRecord>, s: SkillStrength, deadwordsDict: Dict<nat>, allwordsDict: Dict<nat>)
    requires CountsOf(deadwordsDict, DeadTitles(vocab)) && CountsOf(allwordsDict, AllTitles(vocab))
    requires s.url in AllTitles(vocab)
    ensures s.url in allwordsDict.entries
    ensures var row := RowFor(s, deadwordsDict, allwordsDict);
      && row.name == s.name && row.url == s.url && row.strength == s.strength
      && row.deadWords == multiset(DeadTitles(vocab))[s.url]
      && row.allWords == multiset(AllTitles(vocab))[s.url]
      && 1 <= row.allWords && row.deadWords <= row.allWords
  {
    LookupCount(deadwordsDict, DeadTitles(vocab), s.url);
    DeadTitlesBounded(vocab, s.url);
  }

  /** Everything `handleVocabulary` computes before it builds the panel. */
  datatype Report = Report(
    properties: VocabProperties,
    skills: seq<SkillStrength>,
    deadwordsDict: Dict<nat>,
    allwordsDict: Dict<nat>,
    rows: seq<SkillRow>,
    wordCount: nat,
    language: string)

  /** The rows of lines 127-131, one per skill, in the order of `skills`. */
  function Rows(skills: seq<SkillStrength>, deadwordsDict: Dict<nat>, allwordsDict: Dict<nat>): (rows: seq<SkillRow>)
    requires forall i :: 0 <= i < |skills| ==> skills[i].url in allwordsDict.entries
    ensures |rows| == |skills|
  {
    seq(|skills|, i requires 0 <= i < |skills| => RowFor(skills[i], deadwordsDict, allwordsDict))
  }

  /** Every row shows its skill's slug counts, whatever order the skills are in. */
  lemma RowsCounted(vocab: seq<VocabRecord>, skills: seq<SkillStrength>, deadwordsDict: Dict<nat>, allwordsDict: Dict<nat>)
    requires CountsOf(deadwordsDict, DeadTitles(vocab)) && CountsOf(allwordsDict, AllTitles(vocab))
    requires forall i :: 0 <= i < |skills| ==> DescribesGroup(vocab, skills[i])
    ensures forall i :: 0 <= i < |skills| ==> skills[i].url in allwordsDict.entries
    ensures var rows := Rows(skills, deadwordsDict, allwordsDict);
      forall i :: 0 <= i < |rows| ==>
        && rows[i].name == skills[i].name
        && rows[i].url == skills[i].url
        && rows[i].strength == skills[i].strength
        && rows[i].deadWords == multiset(DeadTitles(vocab))[skills[i].url]
        && rows[i].allWords == multiset(AllTitles(vocab))[skills[i].url]
        && 1 <= rows[i].allWords
        && rows[i].deadWords <= rows[i].allWords
  {
    forall i | 0 <= i < |skills| ensures skills[i].url in allwordsDict.entries {
      SlugIsCounted(vocab, skills[i]);
      RowCounts(vocab, skills[i], deadwordsDict, allwordsDict);
    }
    forall i | 0 <= i < |skills|
      ensures var row := RowFor(skills[i], deadwordsDict, allwordsDict);
        && row.deadWords == multiset(DeadTitles(vocab))[skills[i].url]
        && row.allWords == multiset(AllTitles(vocab))[skills[i].url]
        && 1 <= row.allWords && row.deadWords <= row.allWords
    {
      SlugIsCounted(vocab, skills[i]);
      RowCounts(vocab, skills[i], deadwordsDict, allwordsDict);
    }
  }

  /** For every slug, the dead-word dictionary reads at most what the word dictionary reads. */
  lemma DictionariesBounded(vocab: seq<VocabRecord>, deadwordsDict: Dict<nat>, allwordsDict: Dict<nat>)
    requires CountsOf(deadwordsDict, DeadTitles(vocab)) && CountsOf(allwordsDict, AllTitles(vocab))
    ensures forall url :: Lookup(deadwordsDict, url) <= Lookup(allwordsDict, url)
  {
    forall url ensures Lookup(deadwordsDict, url) <= Lookup(allwordsDict, url) {
      LookupCount(deadwordsDict, DeadTitles(vocab), url);
      LookupCount(allwordsDict, AllTitles(vocab), url);
      DeadTitlesBounded(vocab, url);
    }
  }

  /**
   * `rep` is what `handleVocabulary` computes from `data` at time `now`: the
   * properties, the sorted skills, the two count dictionaries of lines
   * 108-112 and one row per skill.
   */
  ghost predicate ReportOf(data: VocabularySet, now: int, rep: Report)
  {
    var vocab := data.vocab;
    && vocab != []
    && rep.properties == VocabProperties(
         Average(Strengths(vocab)).value,
         Average(Ages(vocab, now)).value,
         MedianOf(Ages(vocab, now)).value,
         |DeadWords(vocab)|)
    && multiset(rep.skills) == multiset(SkillEntries(vocab))
    && SortedBy(rep.skills, StrengthOf)
    && SameTies(SkillEntries(vocab), rep.skills, StrengthOf)
    && rep.wordCount == |vocab|
    && rep.properties.zeroStrength == multiset(Strengths(vocab))[0.0] <= rep.wordCount
    && CountsOf(rep.deadwordsDict, DeadTitles(vocab))
    && CountsOf(rep.allwordsDict, AllTitles(vocab))
    && Total(rep.deadwordsDict) == rep.properties.zeroStrength
    && Total(rep.allwordsDict) == rep.wordCount
    && (forall url :: Lookup(rep.deadwordsDict, url) <= Lookup(rep.allwordsDict, url))
    && |rep.rows| == |rep.skills|
    && (forall i :: 0 <= i < |rep.rows| ==>
          && rep.rows[i].name == rep.skills[i].name
          && rep.rows[i].url == rep.skills[i].url
          && rep.rows[i].strength == rep.skills[i].strength
          && rep.rows[i].deadWords == multiset(DeadTitles(vocab))[rep.skills[i].url]
          && rep.rows[i].allWords == multiset(AllTitles(vocab))[rep.skills[i].url]
          && 1 <= rep.rows[i].allWords
          && rep.rows[i].deadWords <= rep.rows[i].allWords)
    && rep.language == data.learningLanguage
  }

  /** `ReportOf`, assembled from what each step of `handleVocabulary` establishes. */
  lemma ReportOfParts(data: VocabularySet, now: int, rep: Report)
    requires data.vocab != []
    requires rep.properties == VocabProperties(
               Average(Strengths(data.vocab)).value,
               Average(Ages(data.vocab, now)).value,
               MedianOf(Ages(data.vocab, now)).value,
               |DeadWords(data.vocab)|)
    requires multiset(rep.skills) == multiset(SkillEntries(data.vocab))
    requires SortedBy(rep.skills, StrengthOf)
    requires SameTies(SkillEntries(data.vocab), rep.skills, StrengthOf)
    requires forall i :: 0 <= i < |rep.skills| ==> DescribesGroup(data.vocab, rep.skills[i])
    requires rep.wordCount == |data.vocab| && rep.language == data.learningLanguage
    requires CountsOf(rep.deadwordsDict, DeadTitles(data.vocab))
    requires CountsOf(rep.allwordsDict, AllTitles(data.vocab))
    requires forall i :: 0 <= i < |rep.skills| ==> rep.skills[i].url in rep.allwordsDict.entries
    requires rep.rows == Rows(rep.skills, rep.deadwordsDict, rep.allwordsDict)
    ensures ReportOf(data, now, rep)
  {
    var vocab := data.vocab;
    DeadWordsCount(vocab);
    RowsCounted(vocab, rep.skills, rep.deadwordsDict, rep.allwordsDict);
    DictionariesBounded(vocab, rep.deadwordsDict, rep.allwordsDict);
  }

  /**
   * `handleVocabulary` on an already parsed body, up to the point where the
   * panel is displayed. `None` is the exception `average` throws on an empty
   * vocabulary.
   */
  method HandleVocabulary(data: VocabularySet, now: int) returns (r: Option<Report>)
    ensures r.None? <==> data.vocab == []
    ensures r.Some? ==> ReportOf(data, now, r.value)
  {
    var vocab := data.vocab;
    var properties := GetVocabProperties(vocab, now);
    if properties.None? {
      return None;
    }
    var skillStrength := CalculateSkillStrength(vocab);
    var deadwordsDict := CountBy(DeadTitles(vocab));
    var allwordsDict := CountBy(AllTitles(vocab));
    RowsCounted(vocab, skillStrength, deadwordsDict, allwordsDict);
    var rows := Rows(skillStrength, deadwordsDict, allwordsDict);
    r := Some(Report(properties.value, skillStrength, deadwordsDict, allwordsDict, rows, |vocab|, data.learningLanguage));
    ReportOfParts(data, now, r.value);
  }
}
