/**
 * Keyword classification of dialogue and scene text (src/utils/moodAnalysis.ts):
 * the mood of a line of text, the voice settings for a mood, and the ambient
 * sound for a scene description. Each keyword regular expression
 * `\b(w1|...|wn)\b` is the whole-word test Strings.MatchesAnyWord on the
 * lower-cased text; the groups are tried in a fixed order and the first match
 * wins.
 */
module MoodAnalysis {
  import opened Types
  import opened Strings

  datatype Mood = Neutral | Happy | Angry | Sad | Surprised | Fearful | Tense | Romantic

  datatype AmbientType = NoAmbient | Water | Wind | City | Forest | Battle | Room

  /** A keyword group: the value it yields and its words. */
  datatype Group<T> = Group(value: T, words: seq<string>)

  const AngryWords: seq<string> := ["angry", "furious", "rage", "idiot", "stupid", "kill", "hate", "damn", "shut up"]
  const HappyWords: seq<string> := ["happy", "yay", "great", "awesome", "love", "haha", "lol", "smile", "cheer"]
  const SadWords: seq<string> := ["sad", "cry", "tears", "sorry", "lonely", "miss you", "hurt", "pain"]
  const SurprisedWords: seq<string> := ["whoa", "what", "huh", "no way", "seriously", "impossible"]
  const FearfulWords: seq<string> := ["scared", "afraid", "terror", "run", "danger", "help"]
  const TenseWords: seq<string> := ["wait", "listen", "quiet", "now", "hurry", "move"]
  const RomanticWords: seq<string> := ["beautiful", "darling", "kiss", "date", "love you"]

  /** The mood keyword table, in the order it is tried. */
  const MoodKeywords: seq<Group<Mood>> := [
    Group(Angry, AngryWords),
    Group(Happy, HappyWords),
    Group(Sad, SadWords),
    Group(Surprised, SurprisedWords),
    Group(Fearful, FearfulWords),
    Group(Tense, TenseWords),
    Group(Romantic, RomanticWords)
  ]

  /** The ambient keyword tests, in the order they are tried. */
  const AmbientKeywords: seq<Group<AmbientType>> := [
    Group(Water, ["boat", "ship", "ocean", "sea", "river", "water", "waves"]),
    Group(Wind, ["wind", "storm", "breeze", "sky", "mountain", "cliff"]),
    Group(City, ["city", "street", "traffic", "crowd", "market", "train"]),
    Group(Forest, ["forest", "trees", "woods", "jungle", "birds"]),
    Group(Battle, ["fight", "battle", "explosion", "gun", "sword", "punch"]),
    Group(Room, ["room", "home", "quiet", "inside", "office"])
  ]

  /** Group k's expression finds a match in `s`. */
  predicate GroupMatches<T>(table: seq<Group<T>>, k: int, s: string)
  {
    0 <= k < |table| && MatchesAnyWord(s, table[k].words)
  }

  /** Group k matches `s` and no group before it does. */
  predicate FirstToMatch<T>(table: seq<Group<T>>, k: int, s: string)
  {
    GroupMatches(table, k, s) && forall j :: 0 <= j < k ==> !GroupMatches(table, j, s)
  }

  /**
   * The first group, from position `from` on, whose expression matches `s`: its
   * index, or None when none does.
   */
  function FirstMatch<T>(table: seq<Group<T>>, s: string, from: nat): (r: Option<nat>)
    requires from <= |table|
    ensures r.Some? ==> from <= r.value < |table| && GroupMatches(table, r.value, s)
    ensures r.Some? ==> forall j :: from <= j < r.value ==> !GroupMatches(table, j, s)
    ensures r.None? ==> forall j :: from <= j < |table| ==> !GroupMatches(table, j, s)
    decreases |table| - from
  {
    if from == |table| then None
    else if MatchesAnyWord(s, table[from].words) then Some(from)
    else FirstMatch(table, s, from + 1)
  }

  /** `/!+/`, `/\?+/`: the character occurs in the text. */
  predicate Has(text: string, c: char)
  {
    c in text
  }

  /** `/[A-Z]{4,}/`: four upper-case ASCII letters in a row. */
  predicate HasCaps(text: string)
  {
    exists i :: 0 <= i <= |text| - 4 && IsCapsRun(text, i)
  }

  predicate IsCapsRun(text: string, i: int)
  {
    0 <= i <= |text| - 4 && forall k :: i <= k < i + 4 ==> 'A' <= text[k] <= 'Z'
  }

  /** The mood of text no keyword matches: the punctuation and capitals fallbacks. */
  function FallbackMood(text: string): Mood
  {
    if HasCaps(text) && Has(text, '!') then Angry
    else if Has(text, '!') && Has(text, '?') then Surprised
    else if Has(text, '?') then Tense
    else Neutral
  }

  /**
   * inferMoodFromText. Empty text is neutral; otherwise the first keyword group
   * that matches the lower-cased text decides, and only when none matches do the
   * fallbacks on the original text apply.
   */
  function InferMood(text: string): (r: Mood)
    ensures text == "" ==> r == Neutral
    ensures text != "" ==> forall k :: FirstToMatch(MoodKeywords, k, Lower(text)) ==> r == MoodKeywords[k].value
    ensures text != "" && (forall k :: 0 <= k < |MoodKeywords| ==> !GroupMatches(MoodKeywords, k, Lower(text)))
      ==> r == FallbackMood(text)
  {
    var normalized := Lower(text);
    if normalized == [] then Neutral
    else
      match FirstMatch(MoodKeywords, normalized, 0)
      case Some(k) => MoodKeywords[k].value
      case None => FallbackMood(text)
  }

  /** The keyword index of a mood in the table. */
  function MoodIndex(m: Mood): nat
  {
    match m
    case Angry => 0
    case Happy => 1
    case Sad => 2
    case Surprised => 3
    case Fearful => 4
    case Tense => 5
    case Romantic => 6
    case Neutral => 7
  }

  /**
   * A keyword mood is returned only when its group matches and no earlier group
   * does, or, for angry, surprised and tense, when no group matches and the
   * fallback gives it; neutral only for empty text or by the fallback.
   */
  lemma {:induction false} InferMoodCases(text: string)
    ensures var r, s := InferMood(text), Lower(text);
      var none := forall k :: 0 <= k < |MoodKeywords| ==> !GroupMatches(MoodKeywords, k, s);
      && (r == Neutral <==> text == "" || (none && FallbackMood(text) == Neutral))
      && (r != Neutral && !none ==> MoodIndex(r) < 7 && FirstToMatch(MoodKeywords, MoodIndex(r), s))
      && (r != Neutral && none ==> r == FallbackMood(text))
  {
    var s := Lower(text);
    if text != "" {
      var m := FirstMatch(MoodKeywords, s, 0);
      if m.Some? {
        assert MoodIndex(MoodKeywords[m.value].value) == m.value;
      }
    }
  }

  /**
   * `love` is a happy keyword tried before the romantic group: text holding the
   * word `love` and no angry keyword is happy.
   */
  lemma LoveIsHappy(text: string)
    requires ContainsWord(Lower(text), "love")
    requires !MatchesAnyWord(Lower(text), AngryWords)
    ensures InferMood(text) == Happy
  {
    assert HappyWords[4] == "love";
    assert GroupMatches(MoodKeywords, 1, Lower(text));
  }

  /**
   * The romantic keyword `love you` never decides the mood: text holding it
   * holds the happy keyword `love`, which is tried first.
   */
  lemma LoveYouNeverRomantic(text: string)
    requires ContainsWord(Lower(text), "love you")
    ensures InferMood(text) != Romantic
  {
    var s := Lower(text);
    var i :| 0 <= i <= |s| && WordAt(s, i, "love you");
    WordPrefixMatches(s, i, "love you", "love");
    assert HappyWords[4] == "love";
    assert GroupMatches(MoodKeywords, 1, s);
  }

  /** voiceSettingsForMood: defined for every mood, every value in [0, 1]; neutral is {0.45, 0.8}. */
  function VoiceSettingsForMood(mood: Mood): (v: VoiceSettings)
    ensures 0.0 <= v.stability <= 1.0 && 0.0 <= v.similarityBoost <= 1.0
    ensures mood == Neutral ==> v == VoiceSettings(0.45, 0.8)
  {
    match mood
    case Angry => VoiceSettings(0.2, 0.7)
    case Happy => VoiceSettings(0.35, 0.8)
    case Sad => VoiceSettings(0.7, 0.8)
    case Surprised => VoiceSettings(0.3, 0.75)
    case Fearful => VoiceSettings(0.4, 0.7)
    case Tense => VoiceSettings(0.45, 0.75)
    case Romantic => VoiceSettings(0.6, 0.85)
    case Neutral => VoiceSettings(0.45, 0.8)
  }

  /**
   * inferAmbientFromContext. Empty input has no ambient; otherwise the first
   * category whose words match the lower-cased text decides, and text matching
   * none has no ambient.
   */
  function InferAmbient(context: string): (r: AmbientType)
    ensures context == "" ==> r == NoAmbient
    ensures r != NoAmbient <==> context != "" && exists k :: 0 <= k < |AmbientKeywords| && GroupMatches(AmbientKeywords, k, Lower(context))
    ensures forall k :: FirstToMatch(AmbientKeywords, k, Lower(context)) ==> r == AmbientKeywords[k].value
  {
    var normalized := Lower(context);
    if normalized == [] then NoAmbient
    else
      match FirstMatch(AmbientKeywords, normalized, 0)
      case Some(k) => AmbientKeywords[k].value
      case None => NoAmbient
  }

  /** `quiet` is a room word: a context with it and no earlier category's word is a room. */
  lemma QuietIsRoom(context: string)
    requires ContainsWord(Lower(context), "quiet")
    requires forall k :: 0 <= k < 5 ==> !GroupMatches(AmbientKeywords, k, Lower(context))
    ensures InferAmbient(context) == Room
  {
    assert AmbientKeywords[5].words[2] == "quiet";
    assert GroupMatches(AmbientKeywords, 5, Lower(context));
  }
}
