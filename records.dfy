/**
 * The vocabulary records returned by `/vocabulary/overview`, already parsed,
 * and the projections of them that the statistics work on.
 */
module Records {

  /** One learned word: `skill`, `skill_url_title`, `strength`, `last_practiced_ms`. */
  datatype VocabRecord = VocabRecord(
    skill: string,
    skillUrlTitle: string,
    strength: real,
    lastPracticedMs: int)

  /** The parsed response body: `vocab_overview` and `learning_language`. */
  datatype VocabularySet = VocabularySet(vocab: seq<VocabRecord>, learningLanguage: string)

  /** The record attributes the script groups or counts by. */
  datatype Attr = Skill | SkillUrlTitle

  /** `v[attr]` */
  function Get(v: VocabRecord, attr: Attr): string
  {
    match attr
    case Skill => v.skill
    case SkillUrlTitle => v.skillUrlTitle
  }

  /** `vocab.map(a => a[attr])` */
  function Project(vocab: seq<VocabRecord>, attr: Attr): seq<string>
  {
    seq(|vocab|, i requires 0 <= i < |vocab| => Get(vocab[i], attr))
  }

  /** `vocab.map(v => v.strength)` */
  function Strengths(vocab: seq<VocabRecord>): seq<real>
  {
    seq(|vocab|, i requires 0 <= i < |vocab| => vocab[i].strength)
  }

  /** Seconds since the word was last practised, `(now - last_practiced_ms) / 1000`. */
  function Age(v: VocabRecord, now: int): real
  {
    (now - v.lastPracticedMs) as real / 1000.0
  }

  /** `vocab.map(v => (ahora - v.last_practiced_ms) / 1000)` */
  function Ages(vocab: seq<VocabRecord>, now: int): seq<real>
  {
    seq(|vocab|, i requires 0 <= i < |vocab| => Age(vocab[i], now))
  }

  /** Every strength lies inside [0, 1]. */
  ghost predicate StrengthsInRange(vocab: seq<VocabRecord>)
  {
    forall i :: 0 <= i < |vocab| ==> 0.0 <= vocab[i].strength <= 1.0
  }

  /** `vocab.filter(v => v.strength === 0)`: the dead words, in order. */
  function DeadWords(vocab: seq<VocabRecord>): (r: seq<VocabRecord>)
    ensures |r| <= |vocab|
    ensures forall i :: 0 <= i < |r| ==> r[i].strength == 0.0
  {
    if vocab == [] then []
    else
      var last := vocab[|vocab| - 1];
      DeadWords(vocab[..|vocab| - 1]) + if last.strength == 0.0 then [last] else []
  }
}
