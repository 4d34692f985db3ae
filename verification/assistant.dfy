/**
 * Spoken input: choosing a topic from a transcript, and the retry loop that
 * turns a series of recognition attempts into one answer. The microphone,
 * the recogniser and the spoken prompts are replaced by the sequence of
 * recognition outcomes they produce.
 *
 * The worked examples take the transcript as a parameter pinned by a
 * `requires` (`Lower(spoken) == "i love ai"`), which also covers every
 * capitalisation, and lean on one-line facts about the literals involved.
 * This keeps the verifier from unfolding `Lower` and `Words` on literals
 * wherever the example is stated.
 */
module Assistant {
  import opened Wrappers
  import opened Text

  /** The topics the voice flow offers, in the order they are tried. */
  const AvailableTags: seq<string> := [
    "Motivation", "Careers", "Technology", "Mental Health", "AI",
    "Machine Learning", "Entrepreneurship", "Startups", "Leadership",
    "Growth", "Productivity", "Life Lessons", "Networking", "GenAI"
  ]

  /**
   * The match test as written: the lower-cased tag occurs in the spoken
   * text as it was given (not lower-cased), or some lower-cased spoken word
   * occurs inside the lower-cased tag.
   */
  predicate SpokenMatches(tag: string, spoken: string) {
    || IsSubstring(Lower(tag), spoken)
    || (exists w :: w in Words(Lower(spoken)) && IsSubstring(w, Lower(tag)))
  }

  /** `tags[i]` is the first tag of the list that passes `matches`. */
  ghost predicate FirstMatchAt(tags: seq<string>, spoken: string, i: int, matches: (string, string) -> bool) {
    && 0 <= i < |tags|
    && matches(tags[i], spoken)
    && (forall j :: 0 <= j < i ==> !matches(tags[j], spoken))
  }

  /** The first tag of `tags` that passes `matches`, or the title-cased text when none does. */
  function FirstTagOr(tags: seq<string>, spoken: string, matches: (string, string) -> bool): (r: string)
    ensures r in tags || r == Title(spoken)
    ensures r != Title(spoken) ==> matches(r, spoken)
    ensures (forall i :: 0 <= i < |tags| ==> !matches(tags[i], spoken)) ==> r == Title(spoken)
    ensures (exists i :: 0 <= i < |tags| && matches(tags[i], spoken))
        ==> exists i :: FirstMatchAt(tags, spoken, i, matches) && r == tags[i]
  {
    if tags == [] then Title(spoken)
    else if matches(tags[0], spoken) then
      assert FirstMatchAt(tags, spoken, 0, matches);
      tags[0]
    else
      var r := FirstTagOr(tags[1..], spoken, matches);
      assert forall i :: 1 <= i < |tags| ==> tags[i] == tags[1..][i - 1];
      assert forall i :: FirstMatchAt(tags[1..], spoken, i, matches) ==> FirstMatchAt(tags, spoken, i + 1, matches);
      r
  }

  /** `map_spoken_to_tag`: the first offered topic that matches, else the text title-cased. */
  function MapSpokenToTag(spoken: string): (tag: string)
    ensures tag in AvailableTags || tag == Title(spoken)
    ensures tag != Title(spoken) ==> SpokenMatches(tag, spoken)
    ensures (exists i :: 0 <= i < |AvailableTags| && SpokenMatches(AvailableTags[i], spoken))
        ==> exists i :: FirstMatchAt(AvailableTags, spoken, i, SpokenMatches) && tag == AvailableTags[i]
    ensures (forall i :: 0 <= i < |AvailableTags| ==> !SpokenMatches(AvailableTags[i], spoken))
        ==> tag == Title(spoken)
  {
    FirstTagOr(AvailableTags, spoken, SpokenMatches)
  }

  /** `FirstTagOr` stops at the first tag when it matches. */
  lemma FirstTagOrHead(tags: seq<string>, spoken: string, matches: (string, string) -> bool)
    requires |tags| > 0 && matches(tags[0], spoken)
    ensures FirstTagOr(tags, spoken, matches) == tags[0]
  {
  }

  /** `FirstTagOr` passes over a first tag that does not match. */
  lemma FirstTagOrSecond(tags: seq<string>, spoken: string, matches: (string, string) -> bool)
    requires |tags| > 1 && !matches(tags[0], spoken) && matches(tags[1], spoken)
    ensures FirstTagOr(tags, spoken, matches) == tags[1]
  {
    assert tags[1..][0] == tags[1];
    FirstTagOrHead(tags[1..], spoken, matches);
  }

  /** Two tests that agree on every listed tag choose the same tag. */
  lemma {:induction false} FirstTagOrSameMatches(tags: seq<string>, spoken: string, m1: (string, string) -> bool, m2: (string, string) -> bool)
    requires forall i :: 0 <= i < |tags| ==> m1(tags[i], spoken) == m2(tags[i], spoken)
    ensures FirstTagOr(tags, spoken, m1) == FirstTagOr(tags, spoken, m2)
    decreases |tags|
  {
    if tags != [] && !m1(tags[0], spoken) {
      assert forall i :: 0 <= i < |tags[1..]| ==> tags[1..][i] == tags[i + 1];
      FirstTagOrSameMatches(tags[1..], spoken, m1, m2);
    }
  }

  // ----- Facts about the literal strings of the examples below -----

  lemma LowerOfTitledMotivation() ensures Lower("Motivation") == "motivation" { }

  lemma LowerOfCareers() ensures Lower("Careers") == "careers" { }

  lemma LetterIInMotivation() ensures IsSubstring("i", "motivation")
  {
    var m := "motivation";
    assert m[3..4] == "i";
    assert OccursAt("i", m, 3);
  }

  /** A pattern starting with a letter that `s` does not contain does not occur in `s`. */
  lemma AbsentFirstLetter(pat: string, s: string, c: char)
    requires |pat| > 0 && pat[0] == c
    requires forall i :: 0 <= i < |s| ==> s[i] != c
    ensures !IsSubstring(pat, s)
  {
    forall i | 0 <= i <= |s| - |pat|
      ensures !OccursAt(pat, s, i)
    {
      assert s[i..i + |pat|][0] == s[i];
    }
  }

  /** Neither "career" nor "love" occurs in "motivation": it has no 'c' and no 'l'. */
  lemma WordsNotInMotivation()
    ensures !IsSubstring("career", "motivation") && !IsSubstring("love", "motivation")
  {
    AbsentFirstLetter("career", "motivation", 'c');
    AbsentFirstLetter("love", "motivation", 'l');
  }

  lemma CareerInCareers() ensures IsSubstring("career", "careers")
  {
    var s := "careers";
    assert s[0..6] == "career";
    assert OccursAt("career", s, 0);
  }

  lemma WordsOfCareer()
    ensures Words("career") == ["career"]
  {
    var c := "career";
    WordsOfToken(c, []);
    assert c + [] == c;
    assert Words([]) == [];
  }

  lemma WordsOfAiAlone()
    ensures Words("ai") == ["ai"]
  {
    var ai := "ai";
    WordsOfToken(ai, []);
    assert ai + [] == ai;
    assert Words([]) == [];
  }

  lemma WordsOfAi()
    ensures Words(" ai") == ["ai"]
  {
    var s := " ai";
    WordsAfterSpace(s);
    assert s[1..] == "ai";
    WordsOfAiAlone();
  }

  lemma WordsOfLoveAiAlone()
    ensures Words("love ai") == ["love", "ai"]
  {
    var s, love := "love ai", "love";
    assert s == love + " ai";
    WordsOfToken(love, " ai");
    WordsOfAi();
  }

  lemma WordsOfLoveAi()
    ensures Words(" love ai") == ["love", "ai"]
  {
    var s := " love ai";
    WordsAfterSpace(s);
    assert s[1..] == "love ai";
    WordsOfLoveAiAlone();
  }

  lemma WordsOfILoveAi()
    ensures Words("i love ai") == ["i", "love", "ai"]
  {
    var s, i := "i love ai", "i";
    assert s == i + " love ai";
    WordsOfToken(i, " love ai");
    WordsOfLoveAi();
  }

  // ----- A short filler word selects "Motivation" -----

  lemma FillerWordMatchesMotivation(spoken: string)
    requires "i" in Words(Lower(spoken))
    ensures SpokenMatches("Motivation", spoken)
  {
    LowerOfTitledMotivation();
    LetterIInMotivation();
    var w := "i";
    assert w in Words(Lower(spoken)) && IsSubstring(w, Lower("Motivation"));
  }

  /**
   * As written, any utterance containing the word "i" is mapped to
   * "Motivation": "i" occurs inside "motivation", and that tag is tried first.
   */
  lemma FillerWordSelectsMotivation(spoken: string)
    requires "i" in Words(Lower(spoken))
    ensures MapSpokenToTag(spoken) == "Motivation"
  {
    FillerWordMatchesMotivation(spoken);
    FirstTagOrHead(AvailableTags, spoken, SpokenMatches);
  }

  /** "I love AI", which names the AI topic, is filed under "Motivation" however it is capitalised. */
  lemma ILoveAiSelectsMotivation(spoken: string)
    requires Lower(spoken) == "i love ai"
    ensures MapSpokenToTag(spoken) == "Motivation"
  {
    WordsOfILoveAi();
    assert Words(Lower(spoken))[0] == "i";
    FillerWordSelectsMotivation(spoken);
  }

  /** As written, the spoken word "career" finds the "Careers" topic. */
  lemma CareerSelectsCareers(spoken: string)
    requires Lower(spoken) == "career"
    ensures MapSpokenToTag(spoken) == "Careers"
  {
    WordsOfCareer();
    LowerOfTitledMotivation();
    LowerOfCareers();
    WordsNotInMotivation();
    CareerInCareers();
    assert !IsSubstring("motivation", spoken) by { assert |spoken| == 6; }
    assert !SpokenMatches("Motivation", spoken);
    assert SpokenMatches("Careers", spoken) by {
      assert "career" in Words(Lower(spoken));
    }
    FirstTagOrSecond(AvailableTags, spoken, SpokenMatches);
  }

  // ----- The correction: filler words select nothing -----

  /** Spoken words shorter than this ("i", "a", "to") are filler and select no topic on their own. */
  const MinContentWord := 3

  /**
   * The corrected test: as written, except that a spoken word must have at
   * least `MinContentWord` letters to match by occurring inside the tag.
   */
  predicate SpokenMatchesContentWord(tag: string, spoken: string) {
    || IsSubstring(Lower(tag), spoken)
    || (exists w :: w in Words(Lower(spoken)) && |w| >= MinContentWord && IsSubstring(w, Lower(tag)))
  }

  /** `map_spoken_to_tag` with the corrected test. */
  function MapSpokenToTagFixed(spoken: string): (tag: string)
    ensures tag in AvailableTags || tag == Title(spoken)
    ensures tag != Title(spoken) ==> SpokenMatchesContentWord(tag, spoken)
    ensures (exists i :: 0 <= i < |AvailableTags| && SpokenMatchesContentWord(AvailableTags[i], spoken))
        ==> exists i :: FirstMatchAt(AvailableTags, spoken, i, SpokenMatchesContentWord) && tag == AvailableTags[i]
    ensures (forall i :: 0 <= i < |AvailableTags| ==> !SpokenMatchesContentWord(AvailableTags[i], spoken))
        ==> tag == Title(spoken)
  {
    FirstTagOr(AvailableTags, spoken, SpokenMatchesContentWord)
  }

  /** Every spoken word has at least `MinContentWord` letters. */
  predicate NoFillerWords(spoken: string) {
    forall k :: 0 <= k < |Words(Lower(spoken))| ==> |Words(Lower(spoken))[k]| >= MinContentWord
  }

  /** The correction changes nothing for a transcript without filler words. */
  lemma FixedAgreesWithoutFillerWords(spoken: string)
    requires NoFillerWords(spoken)
    ensures MapSpokenToTagFixed(spoken) == MapSpokenToTag(spoken)
  {
    forall tag | tag in AvailableTags
      ensures SpokenMatchesContentWord(tag, spoken) == SpokenMatches(tag, spoken)
    {
      if SpokenMatches(tag, spoken) && !IsSubstring(Lower(tag), spoken) {
        var w :| w in Words(Lower(spoken)) && IsSubstring(w, Lower(tag));
        var k :| 0 <= k < |Words(Lower(spoken))| && Words(Lower(spoken))[k] == w;
      }
    }
    FirstTagOrSameMatches(AvailableTags, spoken, SpokenMatchesContentWord, SpokenMatches);
  }

  /** With the correction, the spoken word "career" still finds "Careers". */
  lemma FixedKeepsCareer(spoken: string)
    requires Lower(spoken) == "career"
    ensures MapSpokenToTagFixed(spoken) == "Careers"
  {
    WordsOfCareer();
    assert NoFillerWords(spoken);
    FixedAgreesWithoutFillerWords(spoken);
    CareerSelectsCareers(spoken);
  }

  /** With the correction, "I love AI", however capitalised, no longer selects "Motivation". */
  lemma FixedIgnoresFillerWord(spoken: string)
    requires Lower(spoken) == "i love ai"
    ensures MapSpokenToTagFixed(spoken) != "Motivation"
  {
    WordsOfILoveAi();
    LowerOfTitledMotivation();
    WordsNotInMotivation();
    assert !IsSubstring("motivation", spoken) by { assert |spoken| == 9; }
    assert !SpokenMatchesContentWord("Motivation", spoken) by {
      forall w | w in Words(Lower(spoken)) && |w| >= MinContentWord
        ensures w == "love"
      {
      }
    }
    assert Title(spoken) != "Motivation" by {
      assert |Title(spoken)| == 9;
    }
  }


  // ----- listen -----

  /** One recognition attempt: the recogniser failed (silence, noise, no service), or it heard a transcript. */
  datatype Recognition = Unrecognised | Heard(transcript: string)

  /** The outcome of attempt `i`; past the end of the list the recogniser hears nothing. */
  function OutcomeAt(outcomes: seq<Recognition>, i: nat): Recognition {
    if i < |outcomes| then outcomes[i] else Unrecognised
  }

  /** The first keyword, in list order, that occurs in the response. */
  function FirstKeyword(keywords: seq<string>, response: string): (r: Option<string>)
    ensures r.None? <==> forall i :: 0 <= i < |keywords| ==> !IsSubstring(keywords[i], response)
    ensures r.Some? ==> exists i ::
      && 0 <= i < |keywords|
      && keywords[i] == r.value
      && IsSubstring(keywords[i], response)
      && (forall j :: 0 <= j < i ==> !IsSubstring(keywords[j], response))
  {
    if keywords == [] then None
    else if IsSubstring(keywords[0], response) then Some(keywords[0])
    else
      var r := FirstKeyword(keywords[1..], response);
      assert forall i :: 1 <= i < |keywords| ==> keywords[i] == keywords[1..][i - 1];
      r
  }

  /**
   * What one attempt yields: with keywords, the first keyword found in the
   * lower-cased transcript; without, the lower-cased transcript itself.
   * No value means the attempt costs a retry.
   */
  function Attempt(keywords: seq<string>, outcome: Recognition): Option<string> {
    match outcome
    case Unrecognised => None
    case Heard(t) => if keywords == [] then Some(Lower(t)) else FirstKeyword(keywords, Lower(t))
  }

  /** Attempts `attempt` up to `maxRetries - 1`: the first one that yields a value, else none. */
  function ListenFrom(keywords: seq<string>, maxRetries: int, outcomes: seq<Recognition>, attempt: nat): (r: Option<string>)
    ensures r.Some? <==> exists i: nat :: attempt <= i < maxRetries && Attempt(keywords, OutcomeAt(outcomes, i)).Some?
    ensures r.Some? ==> exists i: nat ::
      && attempt <= i < maxRetries
      && r == Attempt(keywords, OutcomeAt(outcomes, i))
      && (forall j: nat :: attempt <= j < i ==> Attempt(keywords, OutcomeAt(outcomes, j)).None?)
    decreases maxRetries - attempt
  {
    if attempt >= maxRetries then None
    else
      match Attempt(keywords, OutcomeAt(outcomes, attempt))
      case Some(v) => Some(v)
      case None =>
        ListenFrom(keywords, maxRetries, outcomes, attempt + 1)
  }

  /**
   * `listen`: at most `maxRetries` attempts, each failed recognition and
   * each transcript without a keyword costing one; no value when they run
   * out. An empty keyword list behaves as no keywords at all.
   */
  function Listen(keywords: seq<string>, maxRetries: int, outcomes: seq<Recognition>): (r: Option<string>)
    ensures r.Some? <==> exists i: nat :: i < maxRetries && Attempt(keywords, OutcomeAt(outcomes, i)).Some?
    ensures r.Some? ==> exists i: nat ::
      && i < maxRetries
      && r == Attempt(keywords, OutcomeAt(outcomes, i))
      && (forall j: nat :: j < i ==> Attempt(keywords, OutcomeAt(outcomes, j)).None?)
    ensures keywords != [] && r.Some? ==> r.value in keywords
  {
    var r := ListenFrom(keywords, maxRetries, outcomes, 0);
    assert keywords != [] && r.Some? ==> r.value in keywords by {
      if keywords != [] && r.Some? {
        var i: nat :| i < maxRetries && r == Attempt(keywords, OutcomeAt(outcomes, i));
      }
    }
    r
  }

  /** Without keywords, the answer is the first heard transcript, lower-cased. */
  lemma ListenWithoutKeywords(maxRetries: int, outcomes: seq<Recognition>, i: nat)
    requires i < maxRetries && OutcomeAt(outcomes, i).Heard?
    requires forall j: nat :: j < i ==> OutcomeAt(outcomes, j).Unrecognised?
    ensures Listen([], maxRetries, outcomes) == Some(Lower(OutcomeAt(outcomes, i).transcript))
  {
    var r := Listen([], maxRetries, outcomes);
    assert Attempt([], OutcomeAt(outcomes, i)).Some?;
    var k: nat :| k < maxRetries && r == Attempt([], OutcomeAt(outcomes, k))
      && (forall j: nat :: j < k ==> Attempt([], OutcomeAt(outcomes, j)).None?);
  }

  /** Only the first `maxRetries` outcomes are ever consulted. */
  lemma ListenUsesAtMostMaxRetries(keywords: seq<string>, maxRetries: nat, outcomes: seq<Recognition>)
    requires maxRetries <= |outcomes|
    ensures Listen(keywords, maxRetries, outcomes) == Listen(keywords, maxRetries, outcomes[..maxRetries])
  {
    ListenFromPrefix(keywords, maxRetries, outcomes, 0);
  }

  lemma ListenFromPrefix(keywords: seq<string>, maxRetries: nat, outcomes: seq<Recognition>, attempt: nat)
    requires maxRetries <= |outcomes|
    ensures ListenFrom(keywords, maxRetries, outcomes, attempt) == ListenFrom(keywords, maxRetries, outcomes[..maxRetries], attempt)
    decreases maxRetries - attempt
  {
    if attempt < maxRetries {
      assert OutcomeAt(outcomes, attempt) == OutcomeAt(outcomes[..maxRetries], attempt);
      ListenFromPrefix(keywords, maxRetries, outcomes, attempt + 1);
    }
  }

  /** When every attempt fails, the answer is no value. */
  lemma ListenAllFailed(keywords: seq<string>, maxRetries: int, outcomes: seq<Recognition>)
    requires forall i: nat :: i < maxRetries ==> OutcomeAt(outcomes, i).Unrecognised?
    ensures Listen(keywords, maxRetries, outcomes).None?
  {
  }

  /** One attempt either answers or passes on to the next one. */
  lemma ListenFromStep(keywords: seq<string>, maxRetries: int, outcomes: seq<Recognition>, attempt: nat)
    requires attempt < maxRetries
    ensures Attempt(keywords, OutcomeAt(outcomes, attempt)).Some?
      ==> ListenFrom(keywords, maxRetries, outcomes, attempt) == Attempt(keywords, OutcomeAt(outcomes, attempt))
    ensures Attempt(keywords, OutcomeAt(outcomes, attempt)).None?
      ==> ListenFrom(keywords, maxRetries, outcomes, attempt) == ListenFrom(keywords, maxRetries, outcomes, attempt + 1)
  {
  }

  /** The inner scan of `listen`: return the first keyword found in the response. */
  method ScanKeywords(keywords: seq<string>, response: string) returns (r: Option<string>)
    ensures r == FirstKeyword(keywords, response)
  {
    var j := 0;
    while j < |keywords|
      invariant 0 <= j <= |keywords|
      invariant forall l :: 0 <= l < j ==> !IsSubstring(keywords[l], response)
    {
      if IsSubstring(keywords[j], response) {
        return Some(keywords[j]);
      }
      j := j + 1;
    }
    return None;
  }

  /** The loop of `listen` as the source writes it, with a retry counter. */
  method ListenLoop(keywords: seq<string>, maxRetries: int, outcomes: seq<Recognition>) returns (r: Option<string>)
    ensures r == Listen(keywords, maxRetries, outcomes)
  {
    var retries: nat := 0;
    while retries < maxRetries
      invariant ListenFrom(keywords, maxRetries, outcomes, retries) == Listen(keywords, maxRetries, outcomes)
      decreases maxRetries - retries
    {
      var outcome := OutcomeAt(outcomes, retries);
      ListenFromStep(keywords, maxRetries, outcomes, retries);
      if outcome.Heard? {
        var response := Lower(outcome.transcript);
        if keywords == [] {
          return Some(response);
        }
        var found := ScanKeywords(keywords, response);
        if found.Some? {
          return found;
        }
      }
      retries := retries + 1;
    }
    assert ListenFrom(keywords, maxRetries, outcomes, retries).None?;
    return None;
  }
}
