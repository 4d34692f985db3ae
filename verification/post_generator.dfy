/**
 * The prompt builder: normalises a topic, describes the length bucket, and
 * assembles the few-shot prompt from at most two matching examples. The
 * module-level corpus of the source is passed in explicitly as a `Store`,
 * and the language-model call is a function parameter.
 *
 * The worked examples take their string as a parameter pinned by a
 * `requires` (`raw == "career"`) rather than writing the literal in the
 * `ensures`, and lean on one-line facts about each literal. This keeps the
 * verifier from unfolding the string functions on literals everywhere the
 * example is stated, which is what makes such examples expensive.
 */
module PostGenerator {
  import opened Wrappers
  import opened Text
  import opened FewShot

  /** The fixed alias table, keyed by trimmed lower-case input. */
  const TagAliases: map<string, string> := map[
    "mental" := "Mental Health",
    "career" := "Careers",
    "motivation" := "Motivation",
    "inspire" := "Motivation",
    "startup" := "Entrepreneurship",
    "ai" := "Artificial Intelligence",
    "tech" := "Technology",
    "growth" := "Personal Growth",
    "health" := "Health & Wellness",
    "focus" := "Productivity",
    "learn" := "Learning",
    "jobs" := "Careers"
  ]

  /** The lookup key of a raw tag: trimmed, then lower-cased. */
  function TagKey(raw: string): string {
    Lower(Strip(raw))
  }

  /** An aliased key yields its alias; any other key is title-cased. */
  function MapToTag(raw: string): string {
    var k := TagKey(raw);
    if k in TagAliases then TagAliases[k] else Title(k)
  }

  /** Inputs that differ only in letter case normalise to the same tag. */
  lemma MapToTagIgnoresCase(a: string, b: string)
    requires Lower(a) == Lower(b)
    ensures MapToTag(a) == MapToTag(b)
  {
    StripOfLower(a);
    StripOfLower(b);
  }

  /** Surrounding whitespace does not change the normalised tag. */
  lemma MapToTagIgnoresPadding(p: string, raw: string, q: string)
    requires AllSpace(p) && AllSpace(q)
    ensures MapToTag(p + raw + q) == MapToTag(raw)
  {
    StripIgnoresPadding(p, raw, q);
  }

  /** A title-cased fallback is its own normal form: normalising it again changes nothing. */
  lemma MapToTagFallbackIsFixed(raw: string)
    requires TagKey(raw) !in TagAliases
    ensures MapToTag(MapToTag(raw)) == MapToTag(raw)
  {
    var k := TagKey(raw);
    assert MapToTag(raw) == Title(k);
    TagKeyOfTitledKey(raw);
  }

  /** Title-casing a lookup key and taking the key again gives the same key back. */
  lemma TagKeyOfTitledKey(raw: string)
    ensures TagKey(Title(TagKey(raw))) == TagKey(raw)
  {
    var k := TagKey(raw);
    StripOfLower(Strip(raw));
    StripIdempotent(raw);
    assert Strip(k) == k;
    StripOfTitle(k);
    LowerOfTitle(k);
    LowerIdempotent(Strip(raw));
  }

  /** How the lookup key of a concrete input is established: stripping, then lower-casing. */
  lemma TagKeyFrom(raw: string, k: string)
    requires Strip(raw) == raw && Lower(raw) == k
    ensures TagKey(raw) == k
  {
  }

  /** What an input maps to is decided by its lookup key alone. */
  lemma MapToTagByKey(raw: string, key: string)
    requires TagKey(raw) == key
    ensures key in TagAliases ==> MapToTag(raw) == TagAliases[key]
    ensures key !in TagAliases ==> MapToTag(raw) == Title(key)
  {
  }

  // ----- Facts about the literal strings of the examples below -----

  lemma StripOfCareer() ensures Strip("career") == "career" { StripKeepsInner("career"); }
  lemma LowerOfCareer() ensures Lower("career") == "career" { LowerOfNoUpper("career"); }
  lemma StripOfUnknownTopic() ensures Strip("unknown-topic") == "unknown-topic" { StripKeepsInner("unknown-topic"); }
  lemma LowerOfUnknownTopic() ensures Lower("unknown-topic") == "unknown-topic" { LowerOfNoUpper("unknown-topic"); }
  lemma TitleOfUnknownTopic() ensures Title("unknown-topic") == "Unknown-Topic" { }
  lemma StripOfMotivation() ensures Strip("motivation") == "motivation" { StripKeepsInner("motivation"); }
  lemma LowerOfMotivation() ensures Lower("motivation") == "motivation" { LowerOfNoUpper("motivation"); }
  lemma StripOfAI() ensures Strip("AI") == "AI" { StripKeepsInner("AI"); }
  lemma LowerOfAI() ensures Lower("AI") == "ai" { }

  lemma CareerAlias() ensures "career" in TagAliases && TagAliases["career"] == "Careers" { }
  lemma MotivationAlias() ensures "motivation" in TagAliases && TagAliases["motivation"] == "Motivation" { }
  lemma UnknownTopicNotAlias() ensures "unknown-topic" !in TagAliases { }

  // ----- Examples of normalisation -----

  /** A topic with an alias is replaced by it: "career" becomes "Careers". */
  lemma MapToTagAliasExample(raw: string)
    requires raw == "career"
    ensures MapToTag(raw) == "Careers"
  {
    StripOfCareer();
    LowerOfCareer();
    TagKeyFrom(raw, raw);
    CareerAlias();
    MapToTagByKey(raw, raw);
  }

  /** A topic with no alias is title-cased: "unknown-topic" becomes "Unknown-Topic". */
  lemma MapToTagFallbackExample(raw: string)
    requires raw == "unknown-topic"
    ensures MapToTag(raw) == "Unknown-Topic"
  {
    StripOfUnknownTopic();
    LowerOfUnknownTopic();
    TagKeyFrom(raw, raw);
    UnknownTopicNotAlias();
    MapToTagByKey(raw, raw);
    TitleOfUnknownTopic();
  }

  /** The topic "motivation" is its own alias, capitalised. */
  lemma MapToTagOfMotivation(raw: string)
    requires raw == "motivation"
    ensures MapToTag(raw) == "Motivation"
  {
    StripOfMotivation();
    LowerOfMotivation();
    TagKeyFrom(raw, raw);
    MotivationAlias();
    MapToTagByKey(raw, raw);
  }

  /** The names of the three buckets, the only lengths with a description. */
  const LengthNames: set<string> := {"Short", "Medium", "Long"}

  /** The line range promised for a bucket name; no value for any other string. */
  function GetLengthStr(length: string): (r: Option<string>)
    ensures r.Some? <==> length in LengthNames
  {
    if length == "Short" then Some("1 to 5 lines")
    else if length == "Medium" then Some("6 to 10 lines")
    else if length == "Long" then Some("11 to 15 lines")
    else None
  }

  /** The description of each bucket: the line range the generated post should have. */
  lemma GetLengthStrOfBucket(l: Length)
    ensures GetLengthStr(LengthName(l)) == Some(match l
      case Short => "1 to 5 lines"
      case Medium => "6 to 10 lines"
      case Long => "11 to 15 lines")
  {
  }

  /** Every bucket the store can produce has a description, and different buckets have different ones. */
  lemma LengthStrOfBuckets(a: Length, b: Length)
    ensures GetLengthStr(LengthName(a)).Some?
    ensures a != b ==> GetLengthStr(LengthName(a)) != GetLengthStr(LengthName(b))
  {
  }

  /** The length as the prompt shows it: a missing description is rendered as the text "None". */
  function LengthText(length: string): string {
    match GetLengthStr(length)
    case Some(s) => s
    case None => "None"
  }

  /** A length that is not a bucket name is shown as "None", as Python formats a missing value. */
  lemma LengthTextOfUnknown(length: string)
    requires length !in LengthNames
    ensures LengthText(length) == "None"
  {
  }

  /** A bucket name is shown as its line range. */
  lemma LengthTextOfBucket(l: Length)
    ensures LengthText(LengthName(l)) == GetLengthStr(LengthName(l)).value
    ensures LengthText(LengthName(l)) != "None"
  {
    GetLengthStrOfBucket(l);
  }

  const BaseHead := "\nGenerate a LinkedIn post using the below information. No preamble.\n\n1) Topic: "
  const LengthLabel := "\n2) Length: "
  const LanguageLabel := "\n3) Language: "
  const BaseTail := "\nIf Language is Hinglish then it means it is a mix of Hindi and English. \nThe script for the generated post should always be English.\n"

  /** The fixed instruction block every prompt starts with. */
  function BasePrompt(tag: string, lengthStr: string, language: string): string {
    BaseHead + tag + LengthLabel + lengthStr + LanguageLabel + language + BaseTail
  }

  const ExampleHeader := "\n4) Use the writing style as per the following examples."

  /** One example, labelled with its 1-based position. */
  function ExampleBlock(n: nat, text: string): string {
    "\n\nExample " + NatToString(n) + ":\n\n" + text
  }

  /** The base block, then, only if there are examples, the header and the first one or two of them. */
  function Prompt(store: Store, length: string, language: string, tag: string): (prompt: string)
    ensures BasePrompt(tag, LengthText(length), language) <= prompt
    ensures prompt == BasePrompt(tag, LengthText(length), language)
        <==> FilteredPosts(store.posts, length, language, tag) == []
    ensures FilteredPosts(store.posts, length, language, tag) != []
        ==> BasePrompt(tag, LengthText(length), language) + ExampleHeader <= prompt
  {
    var base := BasePrompt(tag, LengthText(length), language);
    var ex := FilteredPosts(store.posts, length, language, tag);
    if |ex| == 0 then base
    else if |ex| == 1 then base + ExampleHeader + ExampleBlock(1, ex[0].text)
    else base + ExampleHeader + ExampleBlock(1, ex[0].text) + ExampleBlock(2, ex[1].text)
  }

  /**
   * The prompt assembly as the source writes it: append the header when
   * there are examples, then walk the examples appending numbered blocks
   * and stop after the second.
   */
  method GetPrompt(store: Store, length: string, language: string, tag: string) returns (prompt: string)
    ensures prompt == Prompt(store, length, language, tag)
  {
    var base := BasePrompt(tag, LengthText(length), language);
    prompt := base;
    var examples := FilteredPosts(store.posts, length, language, tag);
    if |examples| > 0 {
      prompt := prompt + ExampleHeader;
    }
    var i := 0;
    while i < |examples|
      invariant 0 <= i <= 1 && i <= |examples|
      invariant prompt == base + (if |examples| > 0 then ExampleHeader else "")
                           + (if i == 1 then ExampleBlock(1, examples[0].text) else "")
    {
      prompt := prompt + ExampleBlock(i + 1, examples[i].text);
      if i == 1 {
        break;
      }
      i := i + 1;
    }
  }

  lemma OccursInMiddle(x: string, y: string, z: string)
    ensures OccursAt(y, x + y + z, |x|)
  {
    assert (x + y + z)[|x|..|x| + |y|] == y;
  }

  /** A substring of `s` is a substring of anything that contains `s`. */
  lemma SubstringExtend(y: string, s: string, a: string, b: string)
    requires IsSubstring(y, s)
    ensures IsSubstring(y, a + s + b)
  {
    var i :| 0 <= i <= |s| - |y| && OccursAt(y, s, i);
    assert (a + s + b)[|a| + i..|a| + i + |y|] == s[i..i + |y|];
    assert OccursAt(y, a + s + b, |a| + i);
  }

  /** The three interpolated fields of a seven-part template occur in it. */
  lemma TemplateFields(a: string, b: string, c: string, d: string, e: string, f: string, g: string)
    ensures var s := a + b + c + d + e + f + g;
      IsSubstring(b, s) && IsSubstring(d, s) && IsSubstring(f, s)
  {
    var s := a + b + c + d + e + f + g;
    assert s == a + b + (c + d + e + f + g);
    OccursInMiddle(a, b, c + d + e + f + g);
    assert s == (a + b + c) + d + (e + f + g);
    OccursInMiddle(a + b + c, d, e + f + g);
    assert s == (a + b + c + d + e) + f + g;
    OccursInMiddle(a + b + c + d + e, f, g);
  }

  /** The prompt names the topic, the length description and the language. */
  lemma PromptMentionsRequest(store: Store, length: string, language: string, tag: string)
    ensures var prompt := Prompt(store, length, language, tag);
      && IsSubstring(tag, prompt)
      && IsSubstring(LengthText(length), prompt)
      && IsSubstring(language, prompt)
  {
    var prompt := Prompt(store, length, language, tag);
    var lengthStr := LengthText(length);
    var base := BasePrompt(tag, lengthStr, language);
    TemplateFields(BaseHead, tag, LengthLabel, lengthStr, LanguageLabel, language, BaseTail);
    var rest := prompt[|base|..];
    assert prompt == [] + base + rest;
    SubstringExtend(tag, base, [], rest);
    SubstringExtend(lengthStr, base, [], rest);
    SubstringExtend(language, base, [], rest);
  }

  /** An example block quotes its text. */
  lemma BlockQuotesText(n: nat, text: string)
    ensures IsSubstring(text, ExampleBlock(n, text))
  {
    var heading := "\n\nExample " + NatToString(n) + ":\n\n";
    OccursInMiddle(heading, text, []);
    assert heading + text + [] == ExampleBlock(n, text);
  }

  /** The text of each of the first two matching posts is quoted in the prompt. */
  lemma PromptQuotesFirstTwo(store: Store, length: string, language: string, tag: string, i: nat)
    requires i < 2 && i < |FilteredPosts(store.posts, length, language, tag)|
    ensures IsSubstring(FilteredPosts(store.posts, length, language, tag)[i].text, Prompt(store, length, language, tag))
  {
    if i == 0 {
      PromptQuotesFirst(store, length, language, tag);
    } else {
      PromptQuotesSecond(store, length, language, tag);
    }
  }

  lemma PromptQuotesFirst(store: Store, length: string, language: string, tag: string)
    requires |FilteredPosts(store.posts, length, language, tag)| > 0
    ensures IsSubstring(FilteredPosts(store.posts, length, language, tag)[0].text, Prompt(store, length, language, tag))
  {
    var ex := FilteredPosts(store.posts, length, language, tag);
    var front := BasePrompt(tag, LengthText(length), language) + ExampleHeader;
    var block := ExampleBlock(1, ex[0].text);
    var after := if |ex| == 1 then [] else ExampleBlock(2, ex[1].text);
    assert Prompt(store, length, language, tag) == front + block + after;
    BlockQuotesText(1, ex[0].text);
    SubstringExtend(ex[0].text, block, front, after);
  }

  lemma PromptQuotesSecond(store: Store, length: string, language: string, tag: string)
    requires |FilteredPosts(store.posts, length, language, tag)| > 1
    ensures IsSubstring(FilteredPosts(store.posts, length, language, tag)[1].text, Prompt(store, length, language, tag))
  {
    var ex := FilteredPosts(store.posts, length, language, tag);
    var front := BasePrompt(tag, LengthText(length), language) + ExampleHeader + ExampleBlock(1, ex[0].text);
    var block := ExampleBlock(2, ex[1].text);
    assert Prompt(store, length, language, tag) == front + block + [];
    BlockQuotesText(2, ex[1].text);
    SubstringExtend(ex[1].text, block, front, []);
  }

  /** Once two posts match, later posts of the corpus no longer affect the prompt. */
  lemma PromptIgnoresLaterPosts(a: seq<Post>, b: seq<Post>, tags: seq<string>, length: string, language: string, tag: string)
    requires |FilteredPosts(a, length, language, tag)| >= 2
    ensures Prompt(Store(a + b, tags), length, language, tag) == Prompt(Store(a, tags), length, language, tag)
  {
    FilteredAppend(a, b, length, language, tag);
    var ex, exAll := FilteredPosts(a, length, language, tag), FilteredPosts(a + b, length, language, tag);
    assert |exAll| >= 2 && exAll[0] == ex[0] && exAll[1] == ex[1];
  }

  /**
   * The whole request: normalise the raw tag, build the prompt, and return
   * whatever the language model answers for it. `None` is a model call that
   * raised; the program does not catch it, so the request fails with it.
   */
  function GeneratePost(store: Store, invoke: string -> Option<string>, length: string, language: string, rawTag: string): Option<string> {
    invoke(Prompt(store, length, language, MapToTag(rawTag)))
  }

  /** A request is insensitive to the letter case and padding of its raw tag. */
  lemma GeneratePostNormalisesTag(store: Store, invoke: string -> Option<string>, length: string, language: string,
                                  p: string, a: string, q: string, b: string)
    requires AllSpace(p) && AllSpace(q) && Lower(a) == Lower(b)
    ensures GeneratePost(store, invoke, length, language, p + a + q) == GeneratePost(store, invoke, length, language, b)
  {
    MapToTagIgnoresPadding(p, a, q);
    MapToTagIgnoresCase(a, b);
  }

  /** A corpus of one post that matches the request puts that post's text in the prompt. */
  lemma PromptQuotesOnlyPost(store: Store, post: Post, length: string, language: string, tag: string)
    requires store.posts == [post] && Matches(post, length, language, tag)
    ensures IsSubstring(post.text, Prompt(store, length, language, tag))
  {
    assert FilteredPosts(store.posts, length, language, tag) == [post];
    PromptQuotesFirstTwo(store, length, language, tag, 0);
  }

  /**
   * One record {text: "Keep pushing forward!", tags: ["Motivation"],
   * language: "English", line_count: 3}: the spoken topic "motivation" finds
   * it, and the prompt quotes it and asks for 1 to 5 lines.
   */
  lemma EndToEndExample(raws: seq<RawPost>, topic: string)
    requires raws == [RawPost("Keep pushing forward!", List(["Motivation"]), "English", 3)]
    requires topic == "motivation"
    ensures Load(raws).Success?
    ensures var prompt := Prompt(Load(raws).value, "Short", "English", MapToTag(topic));
      && IsSubstring(raws[0].text, prompt)
      && IsSubstring("1 to 5 lines", prompt)
  {
    var store := Load(raws).value;
    var short, english := "Short", "English";
    MapToTagOfMotivation(topic);
    var tag := MapToTag(topic);
    var post := store.posts[0];
    assert post.length == Short && post.tags == [tag] && post.language == english;
    assert store.posts == [post];
    PromptQuotesOnlyPost(store, post, short, english, tag);
    PromptMentionsRequest(store, short, english, tag);
    assert LengthText(short) == "1 to 5 lines";
  }

  // ----- The tag the prompt is built from -----

  /**
   * As written, a tag picked from the store's own tag list is normalised
   * again: the corpus tag "AI" becomes "Artificial Intelligence", which no
   * post carries, so the post tagged "AI" is never offered as an example.
   */
  lemma CorpusTagLosesExamples(post: Post, raw: string)
    requires post == Post("AI is here.", ["AI"], "English", 2, Short) && raw == "AI"
    ensures FilteredPosts([post], "Short", "English", raw) == [post]
    ensures Prompt(Store([post], [raw]), "Short", "English", MapToTag(raw))
         == BasePrompt("Artificial Intelligence", "1 to 5 lines", "English")
  {
    var short, english := "Short", "English";
    PostFoundByItsTag(post, raw, short, english);
    MapToTagOfAI(raw);
    var tag := MapToTag(raw);
    PostMissedByAlias(post, short, english, tag);
    LengthTextOfShort(short);
  }

  lemma PostFoundByItsTag(post: Post, raw: string, length: string, language: string)
    requires post == Post("AI is here.", ["AI"], "English", 2, Short) && raw == "AI"
    requires length == "Short" && language == "English"
    ensures FilteredPosts([post], length, language, raw) == [post]
  {
    assert Matches(post, length, language, raw);
  }

  lemma PostMissedByAlias(post: Post, length: string, language: string, tag: string)
    requires post == Post("AI is here.", ["AI"], "English", 2, Short)
    requires length == "Short" && language == "English" && tag == "Artificial Intelligence"
    ensures FilteredPosts([post], length, language, tag) == []
  {
    assert !Matches(post, length, language, tag);
  }

  lemma AIAlias() ensures "ai" in TagAliases && TagAliases["ai"] == "Artificial Intelligence" { }

  lemma LengthTextOfShort(length: string)
    requires length == "Short"
    ensures LengthText(length) == "1 to 5 lines"
  {
  }

  /** The corpus tag "AI" is an alias key once lower-cased, and becomes "Artificial Intelligence". */
  lemma MapToTagOfAI(raw: string)
    requires raw == "AI"
    ensures MapToTag(raw) == "Artificial Intelligence"
  {
    StripOfAI();
    LowerOfAI();
    TagKeyFrom(raw, "ai");
    AIAlias();
    MapToTagByKey(raw, "ai");
  }

  /** The corrected choice of topic: a tag the store already knows is used as it is. */
  function ResolveTag(store: FewShotPosts, rawTag: string): (tag: string)
    ensures forall i :: 0 <= i < |store.posts| && rawTag in store.posts[i].tags ==> tag in store.posts[i].tags
    ensures !TagOfSome(store.posts, rawTag) ==> tag == MapToTag(rawTag)
  {
    if rawTag in store.uniqueTags then rawTag else MapToTag(rawTag)
  }

  /** With the correction, every tag of the store finds its posts again. */
  lemma CorpusTagKeepsExamples(store: FewShotPosts, i: nat, t: string, length: string, language: string)
    requires i < |store.posts| && t in store.posts[i].tags
    requires LengthName(store.posts[i].length) == length && Lower(store.posts[i].language) == Lower(language)
    ensures store.posts[i] in FilteredPosts(store.posts, length, language, ResolveTag(store, t))
    ensures Prompt(store, length, language, ResolveTag(store, t)) != BasePrompt(ResolveTag(store, t), LengthText(length), language)
  {
    assert TagOfSome(store.posts, t);
    assert t in GetTags(store);
  }

  /** The corrected request: as `GeneratePost` (failures included), with the topic chosen by `ResolveTag`. */
  function GeneratePostFixed(store: FewShotPosts, invoke: string -> Option<string>, length: string, language: string, rawTag: string): Option<string> {
    invoke(Prompt(store, length, language, ResolveTag(store, rawTag)))
  }

  /** For a tag no post carries, the corrected request is the request as written. */
  lemma GeneratePostFixedAgreesOnNewTags(store: FewShotPosts, invoke: string -> Option<string>, length: string, language: string, rawTag: string)
    requires !TagOfSome(store.posts, rawTag)
    ensures GeneratePostFixed(store, invoke, length, language, rawTag) == GeneratePost(store, invoke, length, language, rawTag)
  {
  }

  /** For a tag some post carries, the corrected request builds its prompt from that tag unchanged. */
  lemma GeneratePostFixedUsesCorpusTag(store: FewShotPosts, invoke: string -> Option<string>, length: string, language: string, rawTag: string)
    requires TagOfSome(store.posts, rawTag)
    ensures GeneratePostFixed(store, invoke, length, language, rawTag) == invoke(Prompt(store, length, language, rawTag))
  {
    assert rawTag in GetTags(store);
  }
}
