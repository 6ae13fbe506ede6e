/** The label and tag-type vocabulary of the annotation tables. */
module Labels {

  const PERSON: string := "人名"
  const PLACE: string := "地名"
  const ORGANIZATION: string := "组织"
  const TIME: string := "时间"
  const SENTIMENT: string := "情感"

  /** The two values of an annotation's tag type. */
  const NAMED_ENTITY: string := "命名实体"
  const SENTIMENT_TAG: string := "情感标注"

  /** Labels whose annotations are named entities; every other label is a sentiment tag. */
  const ENTITY_LABELS: set<string> := {PERSON, PLACE, ORGANIZATION, TIME}

  /** The tag type a knowledge-base label gets when the matcher commits it. */
  function TagTypeFor(labelText: string): (t: string)
    ensures t == NAMED_ENTITY <==> labelText in ENTITY_LABELS
    ensures t == SENTIMENT_TAG <==> labelText !in ENTITY_LABELS
  {
    if labelText in ENTITY_LABELS then NAMED_ENTITY else SENTIMENT_TAG
  }
}

/**
 * The per-token rules of the automatic annotator: part-of-speech flags for
 * the four entity kinds, and the sentiment threshold for adjectives and
 * adverbs.  The sentiment scorer is an oracle; `None` stands for a call
 * that raised.
 */
module Heuristics {
  import opened Wrappers
  import opened Labels

  /** What a token would be annotated with, before the overlap check. */
  datatype Candidate = Candidate(tagType: string, labelText: string)

  /** The scorer's answer for a word: a score in [0, 1], or `None` when it raised. */
  type Scorer = string -> Option<real>

  /** Tokenizer flags whose words are scored for sentiment. */
  const SENTIMENT_FLAGS: set<string> := {"a", "ad", "d"}

  /** The entity rule: the proper-noun and time flags and their labels. */
  function EntityRule(flag: string): Option<Candidate>
  {
    if flag == "nr" then Some(Candidate(NAMED_ENTITY, PERSON))
    else if flag == "ns" then Some(Candidate(NAMED_ENTITY, PLACE))
    else if flag == "nt" then Some(Candidate(NAMED_ENTITY, ORGANIZATION))
    else if flag == "t" then Some(Candidate(NAMED_ENTITY, TIME))
    else None
  }

  /** A score far enough from neutral: above 0.6 or below 0.4. */
  predicate Polarised(score: real)
  {
    score > 0.6 || score < 0.4
  }

  /** The candidate for one token that is not a knowledge-base word.  The
      sentiment branch runs after the entity branch and would overwrite it,
      but the two sets of flags are disjoint. */
  function Classify(word: string, flag: string, score: Scorer): Option<Candidate>
  {
    var entity := EntityRule(flag);
    if flag in SENTIMENT_FLAGS && |word| > 1 then
      match score(word)
      case Some(s) => if Polarised(s) then Some(Candidate(SENTIMENT_TAG, SENTIMENT)) else entity
      case None => entity
    else entity
  }

  /** Which tokens get which candidate: each entity flag its own label, a
      scored word of more than one character the sentiment label exactly
      when its score is polarised, and nothing else gets a candidate. */
  lemma ClassifyCases(word: string, flag: string, score: Scorer)
    ensures Classify(word, flag, score) == Some(Candidate(NAMED_ENTITY, PERSON)) <==> flag == "nr"
    ensures Classify(word, flag, score) == Some(Candidate(NAMED_ENTITY, PLACE)) <==> flag == "ns"
    ensures Classify(word, flag, score) == Some(Candidate(NAMED_ENTITY, ORGANIZATION)) <==> flag == "nt"
    ensures Classify(word, flag, score) == Some(Candidate(NAMED_ENTITY, TIME)) <==> flag == "t"
    ensures Classify(word, flag, score) == Some(Candidate(SENTIMENT_TAG, SENTIMENT)) <==>
              flag in SENTIMENT_FLAGS && |word| > 1 && score(word).Some? && Polarised(score(word).value)
    ensures Classify(word, flag, score).Some? <==>
              flag in {"nr", "ns", "nt", "t"} ||
              (flag in SENTIMENT_FLAGS && |word| > 1 && score(word).Some? && Polarised(score(word).value))
  {
  }

  /** Scores in the closed band [0.4, 0.6] (so 0.4, 0.5 and 0.6 themselves),
      a scorer that raises, and single-character words all give no candidate. */
  lemma NeutralGivesNothing(word: string, flag: string, score: Scorer)
    requires flag in SENTIMENT_FLAGS
    requires |word| <= 1 || score(word).None? || 0.4 <= score(word).value <= 0.6
    ensures Classify(word, flag, score) == None
  {
  }

  /** The display table for part-of-speech flags. */
  const POS_TABLE: map<string, (string, string)> :=
    map["n" := ("名词", "primary"), "nr" := ("人名", "info"), "ns" := ("地名", "success"),
        "nt" := ("机构", "danger"), "nz" := ("其他专名", "primary"), "v" := ("动词", "success"),
        "vd" := ("副动词", "success"), "vn" := ("名动词", "success"), "a" := ("形容词", "warning"),
        "ad" := ("副形词", "warning"), "d" := ("副词", "secondary"), "m" := ("数词", "dark"),
        "q" := ("量词", "dark"), "r" := ("代词", "secondary"), "p" := ("介词", "secondary"),
        "c" := ("连词", "secondary"), "u" := ("助词", "secondary"), "xc" := ("虚词", "secondary"),
        "w" := ("标点", "light"), "x" := ("标点", "light"), "t" := ("时间", "info")]

  /** The display name and colour class of a flag; unknown flags are shown as ('其他', 'light'). */
  function PosCn(flag: string): (string, string)
  {
    if flag in POS_TABLE then POS_TABLE[flag] else ("其他", "light")
  }

  /** The display table agrees with the entity rule on person, place and time
      words, but shows organisation words as 机构 while they are labelled 组织;
      flags outside the table get the default. */
  lemma PosCnAgainstEntityRule(flag: string)
    ensures flag in {"nr", "ns", "t"} ==> PosCn(flag).0 == EntityRule(flag).value.labelText
    ensures flag == "nt" ==> PosCn(flag).0 == "机构" != EntityRule(flag).value.labelText
    ensures flag !in POS_TABLE ==> PosCn(flag) == ("其他", "light") && EntityRule(flag).None?
  {
  }
}
