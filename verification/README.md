# LinkedIn post generator: a Dafny model of the prompt core

The application writes LinkedIn posts with a language model, in the style of
earlier posts. Underneath the user interface, the speech I/O and the model
calls sits a small pure core. This project models that core and proves what
it promises.

- **Example store** (`few_shot.dfy`, module `FewShot`).
  - A corpus of posts is loaded from already-parsed records.
  - Each post gets the length bucket of its line count (Short, Medium or Long).
  - A scalar tag is coerced into a one-element list.
  - The tag universe is built sorted and without duplicates. The store type
    `FewShotPosts` carries these facts as its invariant.
  - Queries are conjunctive filters. The tag must match exactly, the language
    matches ignoring case, the bucket name must match exactly, and corpus
    order is kept.
- **Prompt builder** (`post_generator.dfy`, module `PostGenerator`).
  - Tag normalisation: trim, lower-case, look the key up in the alias table,
    and otherwise title-case it.
  - The length descriptions.
  - The prompt: a fixed base block, then a header and at most the first two
    matching examples, numbered 1 and 2.
  - The module-level corpus of the source is passed in as a parameter, and so
    is the language-model call.
- **Spoken input** (`assistant.dfy`, module `Assistant`).
  - `map_spoken_to_tag` picks the first listed topic that matches the
    transcript, and otherwise returns the title-cased transcript.
  - `listen` is a bounded retry loop over a list of recognition outcomes. Each
    outcome is either a failure or a transcript. Keyword matching is done on
    the lower-cased transcript.
- **Corpus preparation** (`preprocess.dfy`, module `Preprocess`).
  - The greedy JSON-span extraction `\{.*\}` applied to model replies.
  - Metadata extraction, with its per-field defaults and its fallback record.
  - The merge `post | metadata`.
  - The union of all tags sent for unification.
  - Applying the unification answer, with identity as the default, followed
    by de-duplication.
  - The whole `process_posts` pipeline, with the model calls and the JSON
    parser as parameters.
- **Shared pieces.**
  - `text.dfy` (module `Text`) holds the Python string operations the core
    uses: `lower`, `title`, `strip`, `split()` and substring `in`.
  - `tag_order.dfy` (module `TagOrder`) holds Python's string order and
    `sorted(set(...))`.
  - `wrappers.dfy` (module `Wrappers`) holds `Option` and `Result`.

For a length other than the three bucket names, `get_length_str` returns
`None`, and the f-string of the prompt then prints the text "None". The model
follows this: `GetLengthStr` returns an `Option`, and `LengthText` renders a
missing value as "None".

An empty corpus is modelled as a load failure. With no records there is no
`line_count` column, so the frame lookup raises.

## Model

| member | source | states |
|---|---|---|
| FewShot.CategorizeLength | few_shot.py:33-39 | Short exactly when the count is below 5, Medium exactly for 5 to 10 inclusive, Long exactly above 10 |
| FewShot.Load | few_shot.py:12-23 | fails exactly for an empty corpus; otherwise one post per record, in order, with text, language and line count kept; `length` is the bucket of the line count; a scalar tag becomes a one-element list and a list is kept; the result satisfies the store invariant (sorted, duplicate-free tag universe equal to the union of the tags) |
| FewShot.AllTags | few_shot.py:22 | the concatenated tag column holds exactly the tags that some post carries |
| FewShot.GetTags | few_shot.py:41-42 | the cached universe is strictly sorted and holds exactly the tags some post carries |
| FewShot.FilteredPosts | few_shot.py:25-31 | a post is in the result iff it is in the corpus and its tags contain the tag, its language equals the requested one after lower-casing, and its bucket name equals the requested length; the result is never longer than the corpus |
| FewShot.Matches | few_shot.py:26-30 | no `ensures`; the definition of the three filter conditions: exact tag membership, languages equal after lower-casing, and the bucket name equal to the requested length |
| FewShot.FilteredAppend | few_shot.py:25-31 | filtering two parts and concatenating equals filtering the whole, so corpus order is kept |
| FewShot.FilteredFirst | few_shot.py:25-31 | the first result is the first matching post of the corpus |
| FewShot.FilteredIdempotent | few_shot.py:25-31 | filtering a filter result changes nothing |
| FewShot.TagCaseSensitiveLanguageNot | few_shot.py:27-28 | a post tagged "AI" in language "ENGLISH" is found for tag "AI" with language "english", and not for tag "ai" |
| TagOrder.SortedUnique | few_shot.py:23 | `sorted(set(xs))`: strictly increasing in Python's string order, with the same members as `xs` |
| TagOrder.StrictlySortedUnique | few_shot.py:23 | two strictly sorted lists with the same members are equal, so the universe is determined by the set of tags |
| TagOrder.StrictlySortedHasNoDuplicates | few_shot.py:23 | a strictly sorted list holds no element twice |
| Text.StripIdempotent | post_genrator.py:24 | stripping a stripped string changes nothing |
| Text.StripIgnoresPadding | post_genrator.py:24 | whitespace added on either side does not change the stripped string |
| Text.WordsOfToken | assistant.py:67 | `split()` takes a run of non-whitespace that ends at whitespace or at the end as the first word |
| PostGenerator.MapToTag | post_genrator.py:22-25 | no `ensures` of its own; its contract is stated by MapToTagByKey, MapToTagIgnoresCase and MapToTagIgnoresPadding |
| PostGenerator.MapToTagByKey | post_genrator.py:25 | an input whose lookup key is in the alias table maps to that alias; any other input maps to its title-cased key |
| PostGenerator.MapToTagIgnoresCase | post_genrator.py:22-25 | inputs equal after lower-casing map to the same tag |
| PostGenerator.MapToTagIgnoresPadding | post_genrator.py:22-25 | surrounding whitespace does not change the mapped tag |
| PostGenerator.MapToTagFallbackIsFixed | post_genrator.py:22-25 | a title-cased fallback maps to itself again |
| PostGenerator.MapToTagAliasExample | post_genrator.py:7-25 | "career" is an alias key and maps to "Careers" |
| PostGenerator.MapToTagFallbackExample | post_genrator.py:22-25 | "unknown-topic" has no alias and maps to "Unknown-Topic" |
| PostGenerator.MapToTagOfAI | post_genrator.py:7-25 | the corpus tag "AI" is lower-cased to the alias key "ai" and maps to "Artificial Intelligence" |
| PostGenerator.GetLengthStr | post_genrator.py:27-33 | there is a description exactly for "Short", "Medium" and "Long", and no value for any other string |
| PostGenerator.GetLengthStrOfBucket | post_genrator.py:27-33 | Short is described as "1 to 5 lines", Medium as "6 to 10 lines" and Long as "11 to 15 lines" |
| PostGenerator.LengthStrOfBuckets | post_genrator.py:27-33 | every bucket the store produces has a description, and different buckets have different ones |
| PostGenerator.LengthText | post_genrator.py:41-47 | no `ensures`; the length as the prompt's f-string shows it; LengthTextOfUnknown and LengthTextOfBucket state it |
| PostGenerator.LengthTextOfUnknown | post_genrator.py:41-47 | a length that is not a bucket name appears in the prompt as "None" |
| PostGenerator.LengthTextOfBucket | post_genrator.py:27-47 | a bucket name appears in the prompt as its line range, never as "None" |
| PostGenerator.Prompt | post_genrator.py:41-65 | the prompt starts with the base block; it equals the base block exactly when no post matches; when some post matches, the example header follows the base block |
| PostGenerator.GetPrompt | post_genrator.py:41-65 | the loop with its break after the second example builds exactly the closed-form prompt |
| PostGenerator.PromptMentionsRequest | post_genrator.py:44-52 | the prompt contains the topic, the length text and the language |
| PostGenerator.PromptQuotesFirstTwo | post_genrator.py:59-63 | the text of each of the first two matching posts occurs in the prompt |
| PostGenerator.PromptIgnoresLaterPosts | post_genrator.py:59-63 | once two posts match, posts added later to the corpus do not change the prompt |
| PostGenerator.GeneratePost | post_genrator.py:35-39 | no `ensures` of its own; the model's reply, or `None` when the model call raises, which the program does not catch; GeneratePostNormalisesTag and EndToEndExample state what a request depends on and what its prompt holds |
| PostGenerator.GeneratePostNormalisesTag | post_genrator.py:35-37 | a request does not depend on the case or the padding of the raw tag |
| PostGenerator.EndToEndExample | post_genrator.py:35-65 | one short English post tagged "Motivation": the topic "motivation" finds it, and the prompt quotes it and asks for "1 to 5 lines" |
| PostGenerator.CorpusTagLosesExamples | post_genrator.py:35-37 | as written, the corpus tag "AI" is re-normalised to "Artificial Intelligence", so the post tagged "AI" matches "AI" and yet the prompt is only the base block |
| PostGenerator.ResolveTag | post_genrator.py:36 | corrected topic choice: every post that carries the raw tag also carries the resolved tag, and a tag no post carries is normalised as before |
| PostGenerator.CorpusTagKeepsExamples | post_genrator.py:35-37 | with the correction, every post is found by each of its own tags, and the prompt then has examples |
| PostGenerator.GeneratePostFixed | post_genrator.py:35-39 | no `ensures`; the corrected `generate_post`, which builds the prompt from ResolveTag's topic; the two lemmas below state it |
| PostGenerator.GeneratePostFixedAgreesOnNewTags | post_genrator.py:35-39 | for a tag no post carries, the corrected request equals the request as written |
| PostGenerator.GeneratePostFixedUsesCorpusTag | post_genrator.py:35-39 | for a tag some post carries, the corrected request asks with that tag unchanged |
| Assistant.FirstTagOr | assistant.py:66-72 | the result is a listed tag or the title-cased text; a result other than the title-cased text is a matching tag; with no match it is the title-cased text; otherwise it is the first matching tag in list order |
| Assistant.SpokenMatches | assistant.py:70 | no `ensures`; the definition of the source's match test: the lower-cased topic occurs in the transcript as given, or some lower-cased spoken word occurs inside the lower-cased topic |
| Assistant.MapSpokenToTag | assistant.py:60-72 | the same facts for the fourteen offered topics and the source's match test |
| Assistant.FillerWordSelectsMotivation | assistant.py:66-71 | as written, any transcript with the word "i" maps to "Motivation" |
| Assistant.ILoveAiSelectsMotivation | assistant.py:66-71 | as written, "I love AI", however capitalised, maps to "Motivation" |
| Assistant.CareerSelectsCareers | assistant.py:66-71 | as written, the spoken word "career", however capitalised, passes over "Motivation" and maps to "Careers" |
| Assistant.FirstTagOrSameMatches | assistant.py:66-71 | two match tests that agree on every listed topic choose the same topic |
| Assistant.MapSpokenToTagFixed | assistant.py:66-72 | corrected matching, where spoken words shorter than three letters do not match by occurring inside a topic: the result is an offered topic or the title-cased text, a topic other than the fallback really matches, and it is the first that does |
| Assistant.FixedAgreesWithoutFillerWords | assistant.py:66-72 | the correction changes nothing for a transcript whose words all have at least three letters |
| Assistant.FixedKeepsCareer | assistant.py:66-72 | with the correction, "career" still maps to "Careers" |
| Assistant.FixedIgnoresFillerWord | assistant.py:66-71 | with the correction, "I love AI", however capitalised, no longer maps to "Motivation" |
| Assistant.FirstKeyword | assistant.py:45-48 | no value iff no keyword occurs in the response; otherwise the first keyword in list order that occurs |
| Assistant.ScanKeywords | assistant.py:46-48 | the keyword loop returns exactly the first keyword found |
| Assistant.Attempt | assistant.py:41-52 | no `ensures`; the definition of one pass of the retry loop: nothing for a failed recognition, the lower-cased transcript without keywords, otherwise the first keyword found in it |
| Assistant.ListenFrom | assistant.py:37-56 | from a given attempt, a value exists iff some later attempt within the budget yields one, and it is the value of the first such attempt |
| Assistant.Listen | assistant.py:32-58 | a value iff one of the first `max_retries` attempts yields one, namely the first; with keywords, the value is one of the keywords |
| Assistant.ListenLoop | assistant.py:32-58 | the retry loop with its counter returns exactly `Listen` |
| Assistant.ListenWithoutKeywords | assistant.py:51-52 | without keywords, the first heard transcript is returned lower-cased |
| Assistant.ListenUsesAtMostMaxRetries | assistant.py:37 | only the first `max_retries` outcomes are ever consulted |
| Assistant.ListenAllFailed | assistant.py:53-58 | when every attempt fails to recognise, the answer is no value |
| Preprocess.JsonSpan | preproces.py:82-86 | a span exists iff some `{` comes before some `}`; it starts with `{`, ends with `}`, and covers every other match |
| Preprocess.JsonSpanIsLeftmostLongest | preproces.py:82 | the span found is the leftmost match, and the longest one starting there |
| Preprocess.JsonSpanIgnoresProse | preproces.py:82-84 | text without braces around a reply does not change its span |
| Preprocess.JsonSpanOfSpan | preproces.py:82-84 | searching the span again finds the same span |
| Preprocess.JsonSpanOfStrip | preproces.py:79-82 | stripping the reply first does not change the span |
| Preprocess.ReplyJson | preproces.py:79-89 | no value when the call raised or there is no span; otherwise the parse of the span |
| Preprocess.ExtractMetadata | preproces.py:57-103 | exactly the keys line_count, language and tags; the fallback record (0, "Unknown", []) when the reply holds no object; otherwise each field of the object, with those defaults when a field is missing |
| Preprocess.ExtractMetadataKeepsCompleteObject | preproces.py:91-95 | an object with exactly the three keys is returned unchanged |
| Preprocess.ExtractMetadataIgnoresProse | preproces.py:79-95 | prose without braces around the JSON does not change the metadata |
| Preprocess.Merge | preproces.py:26 | the merged record has the keys of both; the metadata's value wins where both have a key; other keys keep the post's value |
| Preprocess.MergeIdempotent | preproces.py:26 | merging the same metadata twice changes nothing |
| Preprocess.MergeWithMetadata | preproces.py:22-26 | an enriched post keeps every non-metadata key and has the three metadata keys with the extracted values |
| Preprocess.TagItems | preproces.py:111-114 | an array gives its strings, a single string gives its one-letter strings, and any other value cannot be collected |
| Preprocess.UniqueTags | preproces.py:108-112 | a tag is in the union iff some post carries it |
| Preprocess.UniqueTagsAppend | preproces.py:108-112 | the union over two groups of posts is the union of their unions |
| Preprocess.GetUnifiedTags | preproces.py:106-153 | the model is asked about the union of the tags; when the call, the span or the parse fails, the answer remaps every tag list to its own tags without duplicates; otherwise it is the parsed reply whatever its shape |
| Preprocess.Unify | preproces.py:46 | `unified.get(tag, tag)`: no value exactly when the answer is not an object or the tag's replacement is not a string; otherwise an unmapped tag stays itself, and a mapped tag becomes its string replacement |
| Preprocess.RemapList | preproces.py:46 | succeeds iff every tag can be looked up; then it has one replacement per tag, in order |
| Preprocess.RemapTags | preproces.py:44-47 | the remapped set holds exactly the replacements of the post's tags |
| Preprocess.RemapWithEmptyMapping | preproces.py:46 | the empty mapping only removes duplicates |
| Preprocess.EmptyMappingOnlyDedups | preproces.py:44-47 | the empty answer leaves every tag list as it was, without duplicates |
| Preprocess.RemapKeepsUnmapped | preproces.py:46 | a tag without a replacement is kept |
| Preprocess.RemapReplacesMapped | preproces.py:46 | a tag with a replacement is replaced, and it survives only if some tag maps onto it |
| Preprocess.RemapShrinks | preproces.py:46-47 | remapping never yields more tags than it was given |
| Preprocess.EnrichPost | preproces.py:20-38 | a post is enriched iff it is an object whose text (default empty) is a string; an enriched post has the three metadata keys |
| Preprocess.EnrichPostMergesMetadata | preproces.py:20-26 | an enriched post is the post merged with the metadata extracted for its text |
| Preprocess.Enrich | preproces.py:17-38 | skipped posts are dropped, so there are never more enriched posts than raw ones |
| Preprocess.EnrichAppend | preproces.py:20-27 | enriching two batches in turn gives the enriched posts of the first, then those of the second |
| Preprocess.EnrichOne | preproces.py:20-38 | a single raw post gives its enriched form, or nothing when handling it raised |
| Preprocess.EnrichCons | preproces.py:20-38 | a raw post in front adds its enriched form in front, or nothing when it is skipped |
| Preprocess.EnrichKeepsEnrichable | preproces.py:20-27 | every raw post that can be enriched is kept, at the place given by the number of posts kept before it |
| Preprocess.EnrichedComeFromRaws | preproces.py:20-27 | every enriched post is the enriched form of some raw post |
| Preprocess.EnrichHasMetaKeys | preproces.py:17-38 | every enriched post has the three metadata keys, whatever the model replied |
| Preprocess.AllTagItems | preproces.py:111-114 | collecting fails iff some post's tags cannot be collected; otherwise it gives one list per post |
| Preprocess.ApplyUnifiedTags | preproces.py:44-47 | succeeds iff every post's tags can be remapped; then each post changes only in its tags, which become the sorted, de-duplicated replacements |
| Preprocess.UnifyPosts | preproces.py:40-47 | it stops with "tags not strings" iff some post's tags cannot be collected; it succeeds iff the tags can be collected and every post's tags can be remapped with the unification answer; on success each post keeps its keys and every value except its tags |
| Preprocess.FailedUnificationStillSucceeds | preproces.py:40-47 | when the unification answer cannot be read, collectable tags are always remapped, so unifying succeeds |
| Preprocess.EnrichedTagLists | preproces.py:108-112 | the tag lists of the enriched posts, one per enriched post |
| Preprocess.ProcessPosts | preproces.py:10-54 | the corpus is saved iff every enriched post's tags can be collected and remapped with the unification answer; on success, one output per enriched post, in order, so at most one per raw post; output k has the keys of enriched post k and all its values except the tags, and it has the three metadata keys |
| Preprocess.ProcessSavesWithoutUnification | preproces.py:10-54 | when the tags can be collected but the unification answer cannot be read, the corpus is still saved |
| Preprocess.ProcessedTagsAreRemapped | preproces.py:44-47 | every stored tag list is a strictly sorted list of strings holding exactly the remapped tags of its post |
| Preprocess.ProcessedTagsOfRaws | preproces.py:40-47 | the stored tags of output k are exactly the remapped tags of enriched post k, sorted and without duplicates |

## Left out

- Files and JSON are left out: reading and writing, `pd.json_normalize`, `save_json_safe` and all printing. The model starts from parsed records and returns the records it would save.
- The language model (`llm_helper.py`, every `invoke`) is a function parameter. It receives what the prompt carries: the post text, the set of tags, or the final prompt. The reply is `None` when the call raises; `extract_metadata`, `get_unified_tags` and `generate_post` each model that case (the first two catch it and fall back; `generate_post` lets it propagate to its caller). The prompt templates of `extract_metadata` and `get_unified_tags` are not rendered.
- The JSON parser is a function parameter. JSON numbers are integers; floating-point values are not modelled.
- Speech synthesis, the microphone, the recogniser, Streamlit, temporary files and the pauses in `speak_and_wait` and `listen` are left out. `listen` sees only a list of recognition outcomes. The spoken prompt before listening is dropped.
- `app.py`, `main.py` and `llm_helper.py` are not part of this model. They hold the user interface and the model client.
- `remove_invalid_unicode` is the identity. Dafny strings hold no lone surrogates, so the UTF-8 round trip drops nothing.
- Python's `lower`, `title`, `strip` and `split()` are modelled for ASCII only. Whitespace is what `str.isspace` accepts among ASCII characters.
- FewShot.Load: the store keeps only text, tags, language and line count. Other record fields, such as engagement, are not carried.
- FewShot.Load: the line count is an integer. The frame's handling of missing or non-numeric values is not modelled.
- PostGenerator.Prompt: the claim that "Example 3" never appears is not stated. A quoted post may itself contain that text. The closed form appends at most two blocks, labelled 1 and 2.
- PostGenerator.MapToTagFallbackIsFixed: re-normalising is proved to change nothing only for title-cased fallbacks. For the alias values of the table this is not proved, because computing all twelve entries on literals is too costly for the verifier.
- Assistant.Listen: outcomes beyond the given list count as failed recognitions. A keyword list that is `None` and one that is empty behave alike, as they do in the source. `max_retries` is a parameter; the program's callers all rely on its default of 2 (assistant.py:32).
- Preprocess.TagItems: a `tags` value that is a JSON object is treated as uncollectable. Python would iterate its keys.
- Preprocess.Unify: a replacement that is not a string stops the pipeline. Python would store a number, boolean or null as a tag, and would stop only on a list or an object.
- Preprocess.ProcessPosts: Python stores each tag set in hash order (`list(set(...))`), which promises no order. The model stores it sorted, and ApplyUnifiedTags, ProcessedTagsAreRemapped and ProcessedTagsOfRaws also state that sorted order; the order does not carry over to the program, only the members do.

## Findings

| source | as written | input that shows it | evidently intended | confidence | as-written member | corrected member |
|---|---|---|---|---|---|---|
| assistant.py:66-71 | a topic matches when any spoken word is a substring of the lower-cased topic | "I love AI": the word "i" occurs in "motivation", which is tried first, so the answer is "Motivation" | a one- or two-letter filler word should not select a topic by occurring inside it, while a word such as "career" still selects "Careers" | high, not executed | Assistant.ILoveAiSelectsMotivation | Assistant.MapSpokenToTagFixed |
| post_genrator.py:35-37 | `generate_post` re-normalises every tag, including tags chosen from the store's own list (app.py:148-166) | corpus tag "AI" becomes "Artificial Intelligence", so the posts tagged "AI" are never offered as examples | a tag the corpus already uses should be looked up as it is | medium, not executed | PostGenerator.CorpusTagLosesExamples | PostGenerator.ResolveTag |
