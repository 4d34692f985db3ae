/**
 * The offline preparation of the example corpus: each raw post is sent to a
 * language model for its metadata, the metadata is merged into the post,
 * and the tags of the whole corpus are unified through a second model call.
 *
 * The model calls and the JSON parser are parameters. A model call is a
 * function from what the prompt carries to an optional reply (None when the
 * call raised); the parser is a partial function from text to a JSON value.
 */
module Preprocess {
  import opened Wrappers
  import opened Text
  import opened TagOrder

  /** A JSON value as the parser returns it (numbers are kept integral). */
  datatype Json =
    | JNull
    | JBool(b: bool)
    | JNum(n: int)
    | JStr(s: string)
    | JArr(items: seq<Json>)
    | JObj(fields: map<string, Json>)

  /** A post: a JSON object. */
  type Record = map<string, Json>

  /** `dict.get(key, default)`. */
  function Get(fields: map<string, Json>, key: string, default: Json): (r: Json)
    ensures key in fields ==> r == fields[key]
    ensures key !in fields ==> r == default
  {
    if key in fields then fields[key] else default
  }

  // ----- The JSON span of a reply -----

  /**
   * `s[i..j + 1]` matches the pattern `\{.*\}` in dot-all mode: an opening
   * brace, then anything, then a closing brace.
   */
  predicate BraceMatch(s: string, i: int, j: int) {
    0 <= i < j < |s| && s[i] == '{' && s[j] == '}'
  }

  /** Every match of `s` lies within `s[i..j + 1]`. */
  ghost predicate CoversAll(s: string, i: int, j: int) {
    forall x, y :: BraceMatch(s, x, y) ==> i <= x && y <= j
  }

  /** The position of the first `c` in `s`. */
  function FirstIndex(s: string, c: char): (r: Option<nat>)
    ensures r.None? ==> forall k :: 0 <= k < |s| ==> s[k] != c
    ensures r.Some? ==> r.value < |s| && s[r.value] == c
    ensures r.Some? ==> forall k :: 0 <= k < r.value ==> s[k] != c
  {
    if s == [] then None
    else if s[0] == c then Some(0)
    else
      match FirstIndex(s[1..], c)
      case None => None
      case Some(k) => Some(k + 1)
  }

  /** The position of the last `c` in `s`. */
  function LastIndex(s: string, c: char): (r: Option<nat>)
    ensures r.None? ==> forall k :: 0 <= k < |s| ==> s[k] != c
    ensures r.Some? ==> r.value < |s| && s[r.value] == c
    ensures r.Some? ==> forall k :: r.value < k < |s| ==> s[k] != c
  {
    if s == [] then None
    else if s[|s| - 1] == c then Some(|s| - 1)
    else LastIndex(s[..|s| - 1], c)
  }

  /**
   * `re.search(r"\{.*\}", s, re.DOTALL)`: the search succeeds exactly when
   * some `{` comes before some `}`, and the greedy match then runs from the
   * first `{` to the last `}`, so it covers every other match.
   */
  function JsonSpan(s: string): (r: Option<string>)
    ensures r.Some? <==> exists i, j :: BraceMatch(s, i, j)
    ensures r.Some? ==> exists i, j ::
      && BraceMatch(s, i, j)
      && CoversAll(s, i, j)
      && r.value == s[i..j + 1]
  {
    match (FirstIndex(s, '{'), LastIndex(s, '}'))
    case (Some(i), Some(j)) =>
      if i < j then
        assert BraceMatch(s, i, j) && CoversAll(s, i, j);
        Some(s[i..j + 1])
      else
        assert CoversAll(s, i, j);
        None
    case (_, _) => None
  }

  /** The bounds of the span that is found. */
  lemma SpanBounds(s: string) returns (i: int, j: int)
    requires JsonSpan(s).Some?
    ensures BraceMatch(s, i, j) && CoversAll(s, i, j) && JsonSpan(s).value == s[i..j + 1]
  {
    i, j :| BraceMatch(s, i, j) && CoversAll(s, i, j) && JsonSpan(s).value == s[i..j + 1];
  }

  /** Two spans, each covering every match of `s`, are the same span. */
  lemma SpanBoundsUnique(s: string, i: int, j: int, a: int, b: int)
    requires BraceMatch(s, i, j) && BraceMatch(s, a, b)
    requires CoversAll(s, i, j) && CoversAll(s, a, b)
    ensures i == a && j == b
  {
  }

  /** The greedy match is the leftmost one, and the longest among those starting there. */
  lemma JsonSpanIsLeftmostLongest(s: string, i: int, j: int)
    requires BraceMatch(s, i, j)
    ensures JsonSpan(s).Some?
    ensures forall i', j' :: BraceMatch(s, i', j') && JsonSpan(s).value == s[i'..j' + 1] ==> i' <= i && j <= j'
  {
    var a, b := SpanBounds(s);
    var span := JsonSpan(s).value;
    forall i', j' | BraceMatch(s, i', j') && span == s[i'..j' + 1]
      ensures i' <= i && j <= j'
    {
      assert a <= i' && b >= j';
      assert |span| == b + 1 - a == j' + 1 - i';
    }
  }

  /** The matches inside `p + s + q`, when `p` and `q` hold no braces, are those of `s`, shifted by `|p|`. */
  lemma BraceMatchesOfInfix(p: string, s: string, q: string)
    requires '{' !in p && '}' !in p && '{' !in q && '}' !in q
    ensures forall x, y :: BraceMatch(p + s + q, x, y) ==>
      |p| <= x && y < |p| + |s| && BraceMatch(s, x - |p|, y - |p|)
    ensures forall x, y :: BraceMatch(s, x, y) ==> BraceMatch(p + s + q, x + |p|, y + |p|)
  {
    var t := p + s + q;
    var n := |p|;
    assert forall k :: 0 <= k < n ==> t[k] == p[k];
    assert forall k :: n + |s| <= k < |t| ==> t[k] == q[k - n - |s|];
    forall x, y | BraceMatch(t, x, y)
      ensures n <= x && y < n + |s| && BraceMatch(s, x - n, y - n)
    {
      assert t[x] == s[x - n] && t[y] == s[y - n];
    }
    forall x, y | BraceMatch(s, x, y)
      ensures BraceMatch(t, x + n, y + n)
    {
      assert t[x + n] == s[x] && t[y + n] == s[y];
    }
  }

  /** Prose without braces around a span does not change the span that is found. */
  lemma JsonSpanIgnoresProse(p: string, s: string, q: string)
    requires '{' !in p && '}' !in p && '{' !in q && '}' !in q
    ensures JsonSpan(p + s + q) == JsonSpan(s)
  {
    if JsonSpan(s).Some? {
      var i, j := SpanBounds(s);
      ProseAroundFoundSpan(p, s, q, i, j);
    } else {
      ProseAroundNoSpan(p, s, q);
    }
  }

  lemma ProseAroundNoSpan(p: string, s: string, q: string)
    requires '{' !in p && '}' !in p && '{' !in q && '}' !in q
    requires JsonSpan(s).None?
    ensures JsonSpan(p + s + q).None?
  {
    BraceMatchesOfInfix(p, s, q);
    assert forall x, y :: !BraceMatch(p + s + q, x, y);
  }

  lemma ProseAroundFoundSpan(p: string, s: string, q: string, i: int, j: int)
    requires '{' !in p && '}' !in p && '{' !in q && '}' !in q
    requires BraceMatch(s, i, j) && CoversAll(s, i, j)
    ensures JsonSpan(p + s + q) == Some(s[i..j + 1])
  {
    InfixCovers(p, s, q, i, j);
    SpanIs(p + s + q, |p| + i, |p| + j);
    InfixSlice(p, s, q, i, j + 1);
  }

  /** A covering match of `s` stays a covering match once brace-free prose surrounds `s`. */
  lemma InfixCovers(p: string, s: string, q: string, i: int, j: int)
    requires '{' !in p && '}' !in p && '{' !in q && '}' !in q
    requires BraceMatch(s, i, j) && CoversAll(s, i, j)
    ensures BraceMatch(p + s + q, |p| + i, |p| + j) && CoversAll(p + s + q, |p| + i, |p| + j)
  {
    BraceMatchesOfInfix(p, s, q);
  }

  /** A match that covers every other match is the span that is found. */
  lemma SpanIs(s: string, i: int, j: int)
    requires BraceMatch(s, i, j) && CoversAll(s, i, j)
    ensures JsonSpan(s) == Some(s[i..j + 1])
  {
    var a, b := SpanBounds(s);
    SpanBoundsUnique(s, a, b, i, j);
  }

  /** Cutting `p + s + q` at positions inside `s` is cutting `s`. */
  lemma InfixSlice(p: string, s: string, q: string, i: int, j: int)
    requires 0 <= i <= j <= |s|
    ensures (p + s + q)[|p| + i..|p| + j] == s[i..j]
  {
    var t := p + s + q;
    assert forall k :: i <= k < j ==> t[|p| + k] == s[k];
  }

  /** The found span is found again in itself. */
  lemma JsonSpanOfSpan(s: string)
    requires JsonSpan(s).Some?
    ensures JsonSpan(JsonSpan(s).value) == JsonSpan(s)
  {
    var i, j := SpanBounds(s);
    var span := JsonSpan(s).value;
    assert BraceMatch(span, 0, j - i);
    var a, b := SpanBounds(span);
    assert span[a] == s[i + a] && span[b] == s[i + b];
    assert BraceMatch(s, i + a, i + b);
    assert a == 0 && b == j - i;
    assert span[0..j - i + 1] == span;
  }

  /** Stripping the reply first does not change its span: whitespace holds no braces. */
  lemma JsonSpanOfStrip(s: string)
    ensures JsonSpan(Strip(s)) == JsonSpan(s)
  {
    var p, q := StripSplit(s);
    assert '{' !in p && '}' !in p && '{' !in q && '}' !in q;
    JsonSpanIgnoresProse(p, Strip(s), q);
  }

  // ----- extract_metadata -----

  /** The three keys every extracted metadata record has. */
  const MetaKeys: set<string> := {"line_count", "language", "tags"}

  /** A metadata record from its three values. */
  function MetaRecord(lineCount: Json, language: Json, tags: Json): (r: Record)
    ensures r.Keys == MetaKeys
    ensures r["line_count"] == lineCount && r["language"] == language && r["tags"] == tags
  {
    map["line_count" := lineCount, "language" := language, "tags" := tags]
  }

  /** What `extract_metadata` returns when the reply cannot be read. */
  const FallbackMetadata: Record := MetaRecord(JNum(0), JStr("Unknown"), JArr([]))

  /** The JSON value in a reply: strip it, cut out the span, parse it; None when a step fails. */
  function ReplyJson(reply: Option<string>, parse: string -> Option<Json>): (r: Option<Json>)
    ensures reply.None? ==> r.None?
    ensures reply.Some? && JsonSpan(reply.value).None? ==> r.None?
    ensures reply.Some? && JsonSpan(reply.value).Some? ==> r == parse(JsonSpan(reply.value).value)
  {
    if reply.None? then None
    else
      JsonSpanOfStrip(reply.value);
      match JsonSpan(Strip(reply.value))
      case None => None
      case Some(span) => parse(span)
  }

  /** The object in a reply, if the reply holds one. */
  function ReplyObject(reply: Option<string>, parse: string -> Option<Json>): (r: Option<map<string, Json>>)
    ensures r.Some? <==> ReplyJson(reply, parse).Some? && ReplyJson(reply, parse).value.JObj?
    ensures r.Some? ==> ReplyJson(reply, parse) == Some(JObj(r.value))
  {
    match ReplyJson(reply, parse)
    case Some(JObj(fields)) => Some(fields)
    case _ => None
  }

  /**
   * `extract_metadata`: the three fields of the object in the reply, each
   * defaulting to 0, "Unknown" and the empty list; the whole fallback record
   * when the call raised, there is no span, the span does not parse, or it
   * parses to something other than an object (whose `.get` would raise).
   */
  function ExtractMetadata(reply: Option<string>, parse: string -> Option<Json>): (r: Record)
    ensures r.Keys == MetaKeys
    ensures ReplyObject(reply, parse).None? ==> r == FallbackMetadata
    ensures ReplyObject(reply, parse).Some? ==>
      var fields := ReplyObject(reply, parse).value;
      && r["line_count"] == Get(fields, "line_count", JNum(0))
      && r["language"] == Get(fields, "language", JStr("Unknown"))
      && r["tags"] == Get(fields, "tags", JArr([]))
  {
    match ReplyObject(reply, parse)
    case Some(fields) =>
      MetaRecord(
        Get(fields, "line_count", JNum(0)),
        Get(fields, "language", JStr("Unknown")),
        Get(fields, "tags", JArr([])))
    case None => FallbackMetadata
  }

  /** A reply holding an object with exactly the three keys yields that object. */
  lemma ExtractMetadataKeepsCompleteObject(reply: string, parse: string -> Option<Json>, fields: map<string, Json>)
    requires JsonSpan(reply).Some? && parse(JsonSpan(reply).value) == Some(JObj(fields))
    requires fields.Keys == MetaKeys
    ensures ExtractMetadata(Some(reply), parse) == fields
  {
    ReplyObjectOfObject(reply, parse, fields);
    MetaRecordsEqual(ExtractMetadata(Some(reply), parse), fields);
  }

  lemma ReplyObjectOfObject(reply: string, parse: string -> Option<Json>, fields: map<string, Json>)
    requires JsonSpan(reply).Some? && parse(JsonSpan(reply).value) == Some(JObj(fields))
    ensures ReplyObject(Some(reply), parse) == Some(fields)
  {
  }

  /** Two records with exactly the metadata keys are equal when their three values are. */
  lemma MetaRecordsEqual(a: Record, b: Record)
    requires a.Keys == MetaKeys && b.Keys == MetaKeys
    requires a["line_count"] == b["line_count"] && a["language"] == b["language"] && a["tags"] == b["tags"]
    ensures a == b
  {
  }

  /** Only the span of the reply matters: prose around it is ignored. */
  lemma ExtractMetadataIgnoresProse(p: string, body: string, q: string, parse: string -> Option<Json>)
    requires '{' !in p && '}' !in p && '{' !in q && '}' !in q
    ensures ExtractMetadata(Some(p + body + q), parse) == ExtractMetadata(Some(body), parse)
  {
    ReplyJsonIgnoresProse(p, body, q, parse);
    ExtractMetadataOfSameJson(Some(p + body + q), Some(body), parse);
  }

  lemma ReplyJsonIgnoresProse(p: string, body: string, q: string, parse: string -> Option<Json>)
    requires '{' !in p && '}' !in p && '{' !in q && '}' !in q
    ensures ReplyJson(Some(p + body + q), parse) == ReplyJson(Some(body), parse)
  {
    JsonSpanIgnoresProse(p, body, q);
  }

  /** Two replies holding the same JSON value yield the same record. */
  lemma ExtractMetadataOfSameJson(a: Option<string>, b: Option<string>, parse: string -> Option<Json>)
    requires ReplyJson(a, parse) == ReplyJson(b, parse)
    ensures ExtractMetadata(a, parse) == ExtractMetadata(b, parse)
  {
    ReplyObjectOfSameJson(a, b, parse);
  }

  lemma ReplyObjectOfSameJson(a: Option<string>, b: Option<string>, parse: string -> Option<Json>)
    requires ReplyJson(a, parse) == ReplyJson(b, parse)
    ensures ReplyObject(a, parse) == ReplyObject(b, parse)
  {
  }

  // ----- The merge `post | metadata` -----

  /** `post | metadata`: every key of either, with the metadata's value where both have one. */
  function Merge(post: Record, metadata: Record): (r: Record)
    ensures r.Keys == post.Keys + metadata.Keys
    ensures forall k :: k in metadata ==> r[k] == metadata[k]
    ensures forall k :: k in post && k !in metadata ==> r[k] == post[k]
  {
    post + metadata
  }

  /** Merging the same metadata twice changes nothing. */
  lemma MergeIdempotent(post: Record, metadata: Record)
    ensures Merge(Merge(post, metadata), metadata) == Merge(post, metadata)
  {
  }

  /** Merging extracted metadata keeps every other key of the post and adds the three metadata keys. */
  lemma MergeWithMetadata(post: Record, reply: Option<string>, parse: string -> Option<Json>)
    ensures var r := Merge(post, ExtractMetadata(reply, parse));
      && r.Keys == post.Keys + MetaKeys
      && (forall k :: k in post && k !in MetaKeys ==> r[k] == post[k])
      && (forall k :: k in MetaKeys ==> r[k] == ExtractMetadata(reply, parse)[k])
  {
  }

  // ----- The tags of a post and their union -----

  /** The strings of a list of JSON values, when they are all strings. */
  function StringItems(items: seq<Json>): (r: Option<seq<string>>)
    ensures r.Some? <==> forall i :: 0 <= i < |items| ==> items[i].JStr?
    ensures r.Some? ==> |r.value| == |items| && forall i :: 0 <= i < |items| ==> r.value[i] == items[i].s
  {
    if items == [] then Some([])
    else if !items[0].JStr? then None
    else
      match StringItems(items[1..])
      case None => None
      case Some(rest) => Some([items[0].s] + rest)
  }

  /** A list of strings as a JSON array. */
  function StringArray(tags: seq<string>): (r: Json)
    ensures r.JArr? && StringItems(r.items) == Some(tags)
  {
    var r := JArr(seq(|tags|, i requires 0 <= i < |tags| => JStr(tags[i])));
    assert forall i :: 0 <= i < |tags| ==> r.items[i].JStr?;
    assert StringItems(r.items).value == tags;
    r
  }

  /**
   * The strings seen when a post's `tags` value is iterated and then joined:
   * the items of an array of strings, or the one-letter strings of a single
   * string. Any other value makes the union or the join raise.
   */
  function TagItems(v: Json): (r: Option<seq<string>>)
    ensures v.JArr? ==> r == StringItems(v.items)
    ensures v.JStr? ==> r.Some? && |r.value| == |v.s| && forall i :: 0 <= i < |v.s| ==> r.value[i] == [v.s[i]]
    ensures !v.JArr? && !v.JStr? ==> r.None?
  {
    match v
    case JArr(items) => StringItems(items)
    case JStr(s) => Some(seq(|s|, i requires 0 <= i < |s| => [s[i]]))
    case _ => None
  }

  /** The union of every post's tags, as `get_unified_tags` collects them. */
  function UniqueTags(tagLists: seq<seq<string>>): (r: set<string>)
    ensures forall t :: t in r <==> exists i :: 0 <= i < |tagLists| && t in tagLists[i]
  {
    if tagLists == [] then {}
    else
      var rest := UniqueTags(tagLists[1..]);
      assert forall i :: 1 <= i < |tagLists| ==> tagLists[i] == tagLists[1..][i - 1];
      (set t | t in tagLists[0]) + rest
  }

  /** The union over two lists of posts is the union of the two unions. */
  lemma {:induction false} UniqueTagsAppend(a: seq<seq<string>>, b: seq<seq<string>>)
    ensures UniqueTags(a + b) == UniqueTags(a) + UniqueTags(b)
  {
    if a == [] {
      assert a + b == b;
    } else {
      assert (a + b)[1..] == a[1..] + b;
      UniqueTagsAppend(a[1..], b);
    }
  }

  // ----- get_unified_tags -----

  /**
   * `get_unified_tags`: the model is asked with the union of the tags and
   * its reply's JSON value is returned whatever its shape; an empty object
   * when the call raised or the reply holds no readable JSON.
   */
  function GetUnifiedTags(tagLists: seq<seq<string>>, ask: set<string> -> Option<string>, parse: string -> Option<Json>): (r: Json)
    ensures ReplyJson(ask(UniqueTags(tagLists)), parse).None? ==>
      forall tags: seq<string> :: RemapTags(r, tags) == Some(set t | t in tags)
    ensures ReplyJson(ask(UniqueTags(tagLists)), parse).Some? ==> r == ReplyJson(ask(UniqueTags(tagLists)), parse).value
  {
    match ReplyJson(ask(UniqueTags(tagLists)), parse)
    case None =>
      EmptyMappingOnlyDedups();
      JObj(map[])
    case Some(v) => v
  }

  // ----- Applying the unified tags -----

  /**
   * `unified.get(tag, tag)`: the tag's replacement, or the tag itself when
   * it has none. None when the answer is not an object (`.get` raises) or
   * the replacement is not a string.
   */
  function Unify(unified: Json, tag: string): (r: Option<string>)
    ensures r.None? <==> !unified.JObj? || (tag in unified.fields && !unified.fields[tag].JStr?)
    ensures unified.JObj? && tag !in unified.fields ==> r == Some(tag)
    ensures unified.JObj? && tag in unified.fields && unified.fields[tag].JStr? ==> r == Some(unified.fields[tag].s)
  {
    match unified
    case JObj(fields) =>
      if tag !in fields then Some(tag)
      else if fields[tag].JStr? then Some(fields[tag].s)
      else None
    case _ => None
  }

  /** The replacement of each tag, in order; None when one of them raises. */
  function RemapList(unified: Json, tags: seq<string>): (r: Option<seq<string>>)
    ensures r.Some? <==> forall i :: 0 <= i < |tags| ==> Unify(unified, tags[i]).Some?
    ensures r.Some? ==> |r.value| == |tags| && forall i :: 0 <= i < |tags| ==> Unify(unified, tags[i]) == Some(r.value[i])
  {
    if tags == [] then Some([])
    else
      match Unify(unified, tags[0])
      case None => None
      case Some(u) =>
        match RemapList(unified, tags[1..])
        case None =>
          assert forall i :: 1 <= i < |tags| ==> tags[i] == tags[1..][i - 1];
          None
        case Some(rest) => Some([u] + rest)
  }

  /** `{unified.get(tag, tag) for tag in tags}`. */
  function RemapTags(unified: Json, tags: seq<string>): (r: Option<set<string>>)
    ensures r.Some? <==> RemapList(unified, tags).Some?
    ensures r.Some? ==> forall u :: u in r.value <==> exists i :: 0 <= i < |tags| && Unify(unified, tags[i]) == Some(u)
  {
    match RemapList(unified, tags)
    case None => None
    case Some(l) =>
      assert forall u :: u in l <==> exists i :: 0 <= i < |tags| && Unify(unified, tags[i]) == Some(u) by {
        forall u | u in l ensures exists i :: 0 <= i < |tags| && Unify(unified, tags[i]) == Some(u) {
          var i :| 0 <= i < |l| && l[i] == u;
          assert Unify(unified, tags[i]) == Some(u);
        }
      }
      Some(set u | u in l)
  }

  /** With the empty mapping of a failed unification, remapping only removes duplicates. */
  lemma RemapWithEmptyMapping(tags: seq<string>)
    ensures RemapTags(JObj(map[]), tags) == Some(set t | t in tags)
  {
    var r := RemapTags(JObj(map[]), tags);
    assert forall i :: 0 <= i < |tags| ==> Unify(JObj(map[]), tags[i]) == Some(tags[i]);
    assert r.Some?;
    assert forall u :: u in r.value <==> u in tags;
    assert r.value == set t | t in tags;
  }

  /** The empty mapping leaves every tag list as it was, without duplicates. */
  lemma EmptyMappingOnlyDedups()
    ensures forall tags: seq<string> :: RemapTags(JObj(map[]), tags) == Some(set t | t in tags)
  {
    forall tags: seq<string> ensures RemapTags(JObj(map[]), tags) == Some(set t | t in tags) {
      RemapWithEmptyMapping(tags);
    }
  }

  /** A tag with no replacement is kept. */
  lemma RemapKeepsUnmapped(fields: map<string, Json>, tags: seq<string>, t: string)
    requires RemapTags(JObj(fields), tags).Some?
    requires t in tags && t !in fields
    ensures t in RemapTags(JObj(fields), tags).value
  {
    var i :| 0 <= i < |tags| && tags[i] == t;
    assert Unify(JObj(fields), tags[i]) == Some(t);
  }

  /** A tag with a replacement is replaced, and is gone unless some tag is mapped onto it. */
  lemma RemapReplacesMapped(fields: map<string, Json>, tags: seq<string>, t: string)
    requires RemapTags(JObj(fields), tags).Some?
    requires t in tags && t in fields
    ensures fields[t].JStr? && fields[t].s in RemapTags(JObj(fields), tags).value
    ensures t in RemapTags(JObj(fields), tags).value <==>
      exists i :: 0 <= i < |tags| && Unify(JObj(fields), tags[i]) == Some(t)
  {
    var i :| 0 <= i < |tags| && tags[i] == t;
    assert Unify(JObj(fields), tags[i]).Some?;
  }

  /** Remapping never yields more tags than it was given. */
  lemma {:induction false} RemapShrinks(unified: Json, tags: seq<string>)
    requires RemapTags(unified, tags).Some?
    ensures |RemapTags(unified, tags).value| <= |tags|
  {
    var l := RemapList(unified, tags).value;
    SetOfSeqSize(l);
  }

  /** A list has no more distinct members than entries. */
  lemma {:induction false} SetOfSeqSize(l: seq<string>)
    ensures |set u | u in l| <= |l|
  {
    if l != [] {
      SetOfSeqSize(l[1..]);
      assert (set u | u in l) == {l[0]} + (set u | u in l[1..]);
    }
  }

  // ----- process_posts -----

  /** Why `process_posts` stops without saving anything. */
  datatype ProcessError =
    | TagsNotStrings    // a post's tags cannot be collected and joined
    | TagsNotRemapped   // the unified answer cannot be applied to a post's tags

  /**
   * One raw post of the loop: its `text` (default empty) goes to the model
   * and the reply's metadata is merged in. None when the post is skipped
   * because handling it raised: it is not an object, or its text is not a string.
   */
  function EnrichPost(raw: Json, extract: string -> Option<string>, parse: string -> Option<Json>): (r: Option<Record>)
    ensures r.Some? <==> raw.JObj? && Get(raw.fields, "text", JStr("")).JStr?
    ensures r.Some? ==> r.value.Keys >= MetaKeys
  {
    match raw
    case JObj(post) =>
      var text := Get(post, "text", JStr(""));
      if text.JStr? then Some(Merge(post, ExtractMetadata(extract(text.s), parse))) else None
    case _ => None
  }

  /** An enriched post holds the post's own fields, overridden by the metadata extracted for its text. */
  lemma EnrichPostMergesMetadata(post: Record, text: string, extract: string -> Option<string>, parse: string -> Option<Json>)
    requires Get(post, "text", JStr("")) == JStr(text)
    ensures EnrichPost(JObj(post), extract, parse) == Some(Merge(post, ExtractMetadata(extract(text), parse)))
  {
  }

  /** The enriched posts, in order, without the skipped ones. */
  function Enrich(raws: seq<Json>, extract: string -> Option<string>, parse: string -> Option<Json>): (r: seq<Record>)
    ensures |r| <= |raws|
  {
    if raws == [] then []
    else
      var rest := Enrich(raws[1..], extract, parse);
      match EnrichPost(raws[0], extract, parse)
      case None => rest
      case Some(p) => [p] + rest
  }

  /** Each record of `rs` has the three metadata keys. */
  predicate AllHaveMetaKeys(rs: seq<Record>) {
    forall k :: 0 <= k < |rs| ==> rs[k].Keys >= MetaKeys
  }

  lemma AllHaveMetaKeysCons(p: Record, rest: seq<Record>)
    requires p.Keys >= MetaKeys && AllHaveMetaKeys(rest)
    ensures AllHaveMetaKeys([p] + rest)
  {
    var out := [p] + rest;
    assert forall k :: 1 <= k < |out| ==> out[k] == rest[k - 1];
  }

  /** Every enriched post carries the three metadata keys, whatever the reply was. */
  lemma {:induction false} EnrichHasMetaKeys(raws: seq<Json>, extract: string -> Option<string>, parse: string -> Option<Json>)
    ensures AllHaveMetaKeys(Enrich(raws, extract, parse))
  {
    if raws != [] {
      EnrichHasMetaKeys(raws[1..], extract, parse);
      var rest := Enrich(raws[1..], extract, parse);
      var e := EnrichPost(raws[0], extract, parse);
      if e.Some? {
        AllHaveMetaKeysCons(e.value, rest);
      }
    }
  }

  /** Enriching two batches one after the other gives the enriched posts of both, in order. */
  lemma {:induction false} EnrichAppend(a: seq<Json>, b: seq<Json>, extract: string -> Option<string>, parse: string -> Option<Json>)
    ensures Enrich(a + b, extract, parse) == Enrich(a, extract, parse) + Enrich(b, extract, parse)
    decreases |a|
  {
    if a == [] {
      assert a + b == b;
    } else {
      var x, t := a[0], a[1..];
      AppendAfterHead(a, b);
      EnrichCons(x, t + b, extract, parse);
      EnrichCons(x, t, extract, parse);
      EnrichAppend(t, b, extract, parse);
      OptionalHeadAppend(EnrichPost(x, extract, parse), Enrich(t, extract, parse), Enrich(b, extract, parse),
        Enrich([x] + (t + b), extract, parse), Enrich([x] + t, extract, parse));
    }
  }

  lemma AppendAfterHead<T>(a: seq<T>, b: seq<T>)
    requires |a| > 0
    ensures a == [a[0]] + a[1..] && a + b == [a[0]] + (a[1..] + b)
  {
  }

  /** An optional head in front of `r + s` is the optional head in front of `r`, followed by `s`. */
  lemma OptionalHeadAppend<T>(e: Option<T>, r: seq<T>, s: seq<T>, whole: seq<T>, part: seq<T>)
    requires whole == if e.Some? then [e.value] + (r + s) else r + s
    requires part == if e.Some? then [e.value] + r else r
    ensures whole == part + s
  {
    if e.Some? {
      assert [e.value] + (r + s) == ([e.value] + r) + s;
    }
  }

  /** A single raw post gives its enriched form, or nothing when it is skipped. */
  lemma {:induction false} EnrichOne(raw: Json, extract: string -> Option<string>, parse: string -> Option<Json>)
    ensures Enrich([raw], extract, parse) ==
      if EnrichPost(raw, extract, parse).Some? then [EnrichPost(raw, extract, parse).value] else []
  {
    assert [raw][1..] == [];
  }

  /** A raw post in front adds its enriched form in front, or nothing when it is skipped. */
  lemma {:induction false} EnrichCons(x: Json, rest: seq<Json>, extract: string -> Option<string>, parse: string -> Option<Json>)
    ensures Enrich([x] + rest, extract, parse) ==
      if EnrichPost(x, extract, parse).Some? then [EnrichPost(x, extract, parse).value] + Enrich(rest, extract, parse)
      else Enrich(rest, extract, parse)
  {
    assert ([x] + rest)[0] == x;
    assert ([x] + rest)[1..] == rest;
  }

  /**
   * A raw post that can be enriched is kept, and its place in the output is
   * the number of posts kept before it.
   */
  lemma {:induction false} EnrichKeepsEnrichable(raws: seq<Json>, i: int, extract: string -> Option<string>, parse: string -> Option<Json>)
    requires 0 <= i < |raws| && EnrichPost(raws[i], extract, parse).Some?
    ensures |Enrich(raws[..i], extract, parse)| < |Enrich(raws, extract, parse)|
    ensures Enrich(raws, extract, parse)[|Enrich(raws[..i], extract, parse)|] == EnrichPost(raws[i], extract, parse).value
  {
    SplitAround(raws, i);
    EnrichAround(raws[..i], raws[i], raws[i + 1..], extract, parse);
  }

  lemma SplitAround(xs: seq<Json>, i: int)
    requires 0 <= i < |xs|
    ensures xs == xs[..i] + ([xs[i]] + xs[i + 1..])
  {
  }

  lemma {:induction false} EnrichAround(before: seq<Json>, x: Json, after: seq<Json>, extract: string -> Option<string>, parse: string -> Option<Json>)
    requires EnrichPost(x, extract, parse).Some?
    ensures |Enrich(before, extract, parse)| < |Enrich(before + ([x] + after), extract, parse)|
    ensures Enrich(before + ([x] + after), extract, parse)[|Enrich(before, extract, parse)|] == EnrichPost(x, extract, parse).value
  {
    var e := EnrichPost(x, extract, parse).value;
    EnrichCons(x, after, extract, parse);
    EnrichAppend(before, [x] + after, extract, parse);
    IndexAfterPrefix(Enrich(before, extract, parse), e, Enrich(after, extract, parse), Enrich(before + ([x] + after), extract, parse));
  }

  lemma IndexAfterPrefix<T>(a: seq<T>, e: T, b: seq<T>, out: seq<T>)
    requires out == a + ([e] + b)
    ensures |a| < |out| && out[|a|] == e
  {
  }

  /** Every enriched post is the enriched form of some raw post. */
  lemma {:induction false} EnrichedComeFromRaws(raws: seq<Json>, k: int, extract: string -> Option<string>, parse: string -> Option<Json>)
    returns (i: int)
    requires 0 <= k < |Enrich(raws, extract, parse)|
    ensures 0 <= i < |raws| && EnrichPost(raws[i], extract, parse) == Some(Enrich(raws, extract, parse)[k])
    decreases |raws|
  {
    var x, tail := raws[0], raws[1..];
    SplitAround(raws, 0);
    if EnrichPost(x, extract, parse).Some? && k == 0 {
      EnrichCons(x, tail, extract, parse);
      ConsHead(EnrichPost(x, extract, parse), Enrich(tail, extract, parse), Enrich(raws, extract, parse));
      i := 0;
    } else {
      var j := EnrichConsIndex(x, tail, k, extract, parse);
      var t := EnrichedComeFromRaws(tail, j, extract, parse);
      assert tail[t] == raws[t + 1];
      i := t + 1;
    }
  }

  /** Past a skipped head, or past the head's own entry, the output continues with the tail's. */
  lemma {:induction false} EnrichConsIndex(x: Json, tail: seq<Json>, k: int, extract: string -> Option<string>, parse: string -> Option<Json>)
    returns (j: int)
    requires 0 <= k < |Enrich([x] + tail, extract, parse)|
    requires !(EnrichPost(x, extract, parse).Some? && k == 0)
    ensures 0 <= j < |Enrich(tail, extract, parse)| && Enrich([x] + tail, extract, parse)[k] == Enrich(tail, extract, parse)[j]
  {
    EnrichCons(x, tail, extract, parse);
    j := ConsIndex(EnrichPost(x, extract, parse), Enrich(tail, extract, parse), Enrich([x] + tail, extract, parse), k);
  }

  /** A present head is the first element. */
  lemma ConsHead<T>(e: Option<T>, rest: seq<T>, out: seq<T>)
    requires out == if e.Some? then [e.value] + rest else rest
    requires e.Some?
    ensures |out| > 0 && e == Some(out[0])
  {
  }

  /** An index into an optional head followed by `rest` that is not the head itself is an index into `rest`. */
  lemma ConsIndex<T>(e: Option<T>, rest: seq<T>, out: seq<T>, k: int) returns (j: int)
    requires out == if e.Some? then [e.value] + rest else rest
    requires 0 <= k < |out| && !(e.Some? && k == 0)
    ensures 0 <= j < |rest| && out[k] == rest[j]
  {
    j := if e.Some? then k - 1 else k;
  }

  /** The tags of every enriched post; None when one of them cannot be collected. */
  function AllTagItems(posts: seq<Record>): (r: Option<seq<seq<string>>>)
    requires forall k :: 0 <= k < |posts| ==> "tags" in posts[k]
    ensures r.Some? <==> forall k :: 0 <= k < |posts| ==> TagItems(posts[k]["tags"]).Some?
    ensures r.None? <==> exists k :: 0 <= k < |posts| && TagItems(posts[k]["tags"]).None?
    ensures r.Some? ==> |r.value| == |posts| && forall k :: 0 <= k < |posts| ==> r.value[k] == TagItems(posts[k]["tags"]).value
  {
    if posts == [] then Some([])
    else
      match TagItems(posts[0]["tags"])
      case None => None
      case Some(tags) =>
        match AllTagItems(posts[1..])
        case None => None
        case Some(rest) => Some([tags] + rest)
  }

  /** Each post with its tags replaced by the de-duplicated remapped list (stored sorted). */
  function ApplyUnifiedTags(unified: Json, posts: seq<Record>, tagLists: seq<seq<string>>): (r: Option<seq<Record>>)
    requires |tagLists| == |posts|
    requires forall k :: 0 <= k < |posts| ==> "tags" in posts[k]
    ensures r.Some? <==> forall k :: 0 <= k < |posts| ==> RemapList(unified, tagLists[k]).Some?
    ensures r.Some? ==> |r.value| == |posts| && forall k :: 0 <= k < |posts| ==>
      r.value[k] == posts[k]["tags" := StringArray(SortedUnique(RemapList(unified, tagLists[k]).value))]
  {
    if posts == [] then Some([])
    else
      assert forall k :: 1 <= k < |posts| ==> posts[1..][k - 1] == posts[k] && tagLists[1..][k - 1] == tagLists[k];
      match RemapList(unified, tagLists[0])
      case None => None
      case Some(l) =>
        match ApplyUnifiedTags(unified, posts[1..], tagLists[1..])
        case None => None
        case Some(rest) =>
          var out := [posts[0]["tags" := StringArray(SortedUnique(l))]] + rest;
          assert forall k :: 1 <= k < |out| ==> out[k] == rest[k - 1];
          Some(out)
  }

  /**
   * The second half of `process_posts`: unify the tags of the enriched
   * posts and apply the unification to each post's tags. It stops when
   * some post's tags cannot be collected, or the answer cannot be applied.
   */
  function UnifyPosts(posts: seq<Record>, ask: set<string> -> Option<string>, parse: string -> Option<Json>): (r: Result<seq<Record>, ProcessError>)
    requires forall k :: 0 <= k < |posts| ==> "tags" in posts[k]
    ensures r == Failure(TagsNotStrings) <==> exists k :: 0 <= k < |posts| && TagItems(posts[k]["tags"]).None?
    ensures r.Success? <==> AllTagItems(posts).Some? && forall k :: 0 <= k < |posts| ==>
      RemapList(GetUnifiedTags(AllTagItems(posts).value, ask, parse), AllTagItems(posts).value[k]).Some?
    ensures r.Success? ==> |r.value| == |posts| && forall k :: 0 <= k < |posts| ==>
      && r.value[k].Keys == posts[k].Keys
      && (forall key :: key in posts[k] && key != "tags" ==> r.value[k][key] == posts[k][key])
  {
    match AllTagItems(posts)
    case None => Failure(TagsNotStrings)
    case Some(tagLists) =>
      var unified := GetUnifiedTags(tagLists, ask, parse);
      match ApplyUnifiedTags(unified, posts, tagLists)
      case None => Failure(TagsNotRemapped)
      case Some(out) => Success(out)
  }

  /**
   * When the unification call, its span or its parse fails, the empty answer
   * applies to any collectable tags, so unifying succeeds.
   */
  lemma FailedUnificationStillSucceeds(posts: seq<Record>, ask: set<string> -> Option<string>, parse: string -> Option<Json>)
    requires forall k :: 0 <= k < |posts| ==> "tags" in posts[k]
    requires AllTagItems(posts).Some?
    requires ReplyJson(ask(UniqueTags(AllTagItems(posts).value)), parse).None?
    ensures UnifyPosts(posts, ask, parse).Success?
  {
    var tagLists := AllTagItems(posts).value;
    var unified := GetUnifiedTags(tagLists, ask, parse);
    forall k | 0 <= k < |posts| ensures RemapList(unified, tagLists[k]).Some? {
      assert RemapTags(unified, tagLists[k]).Some?;
    }
  }

  /** The tag lists of the enriched posts; None when one of them cannot be collected. */
  function EnrichedTagLists(raws: seq<Json>, extract: string -> Option<string>, parse: string -> Option<Json>): (r: Option<seq<seq<string>>>)
    ensures r.Some? ==> |r.value| == |Enrich(raws, extract, parse)|
  {
    EnrichHasMetaKeys(raws, extract, parse);
    assert "tags" in MetaKeys;
    AllTagItems(Enrich(raws, extract, parse))
  }

  /** `process_posts` without the files: enrich each post, then unify the tags across them. */
  function ProcessPosts(
    raws: seq<Json>,
    extract: string -> Option<string>,
    ask: set<string> -> Option<string>,
    parse: string -> Option<Json>
  ): (r: Result<seq<Record>, ProcessError>)
    ensures r.Success? <==> EnrichedTagLists(raws, extract, parse).Some? && forall k :: 0 <= k < |EnrichedTagLists(raws, extract, parse).value| ==>
      RemapList(GetUnifiedTags(EnrichedTagLists(raws, extract, parse).value, ask, parse), EnrichedTagLists(raws, extract, parse).value[k]).Some?
    ensures r.Success? ==> |r.value| <= |raws|
    ensures r.Success? ==> forall k :: 0 <= k < |r.value| ==> r.value[k].Keys >= MetaKeys
    ensures r.Success? ==> |r.value| == |Enrich(raws, extract, parse)| && forall k :: 0 <= k < |r.value| ==>
      && r.value[k].Keys == Enrich(raws, extract, parse)[k].Keys
      && (forall key :: key in r.value[k] && key != "tags" ==> r.value[k][key] == Enrich(raws, extract, parse)[k][key])
  {
    EnrichHasMetaKeys(raws, extract, parse);
    assert "tags" in MetaKeys;
    UnifyPosts(Enrich(raws, extract, parse), ask, parse)
  }

  /** Every stored tag list is sorted, without duplicates, and holds exactly the remapped tags of the post. */
  lemma ProcessedTagsAreRemapped(posts: seq<Record>, ask: set<string> -> Option<string>, parse: string -> Option<Json>, k: int)
    requires forall i :: 0 <= i < |posts| ==> "tags" in posts[i]
    requires UnifyPosts(posts, ask, parse).Success?
    requires 0 <= k < |posts|
    ensures AllTagItems(posts).Some?
    ensures var unified := GetUnifiedTags(AllTagItems(posts).value, ask, parse);
      var tags := TagItems(posts[k]["tags"]).value;
      var stored := UnifyPosts(posts, ask, parse).value[k]["tags"];
      && stored.JArr?
      && StringItems(stored.items).Some?
      && StrictlySorted(StringItems(stored.items).value)
      && RemapTags(unified, tags).Some?
      && (forall u :: u in StringItems(stored.items).value <==> u in RemapTags(unified, tags).value)
  {
    var tagLists := AllTagItems(posts).value;
    var unified := GetUnifiedTags(tagLists, ask, parse);
    var l := RemapList(unified, tagLists[k]).value;
    assert UnifyPosts(posts, ask, parse).value[k]["tags"] == StringArray(SortedUnique(l));
  }

  /**
   * The stored tags of each processed post are the remapped tags of the
   * enriched post at the same place, sorted and without duplicates.
   */
  lemma ProcessedTagsOfRaws(
    raws: seq<Json>,
    extract: string -> Option<string>,
    ask: set<string> -> Option<string>,
    parse: string -> Option<Json>,
    k: int
  )
    requires ProcessPosts(raws, extract, ask, parse).Success?
    requires 0 <= k < |ProcessPosts(raws, extract, ask, parse).value|
    ensures forall i :: 0 <= i < |Enrich(raws, extract, parse)| ==> "tags" in Enrich(raws, extract, parse)[i]
    ensures AllTagItems(Enrich(raws, extract, parse)).Some?
    ensures var posts := Enrich(raws, extract, parse);
      var unified := GetUnifiedTags(AllTagItems(posts).value, ask, parse);
      var stored := ProcessPosts(raws, extract, ask, parse).value[k]["tags"];
      && stored.JArr?
      && StringItems(stored.items).Some?
      && StrictlySorted(StringItems(stored.items).value)
      && RemapTags(unified, TagItems(posts[k]["tags"]).value).Some?
      && (forall u :: u in StringItems(stored.items).value <==> u in RemapTags(unified, TagItems(posts[k]["tags"]).value).value)
  {
    EnrichHasMetaKeys(raws, extract, parse);
    assert "tags" in MetaKeys;
    ProcessedTagsAreRemapped(Enrich(raws, extract, parse), ask, parse, k);
  }

  /**
   * When every enriched post's tags can be collected and the unification
   * answer cannot be read, the corpus is still saved, with each post's tags
   * only de-duplicated.
   */
  lemma ProcessSavesWithoutUnification(
    raws: seq<Json>,
    extract: string -> Option<string>,
    ask: set<string> -> Option<string>,
    parse: string -> Option<Json>
  )
    requires EnrichedTagLists(raws, extract, parse).Some?
    requires ReplyJson(ask(UniqueTags(EnrichedTagLists(raws, extract, parse).value)), parse).None?
    ensures ProcessPosts(raws, extract, ask, parse).Success?
  {
    EnrichHasMetaKeys(raws, extract, parse);
    assert "tags" in MetaKeys;
    FailedUnificationStillSucceeds(Enrich(raws, extract, parse), ask, parse);
  }
}
