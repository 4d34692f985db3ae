/**
 * The example store: a corpus of previously written posts, each with its
 * length bucket, language and topic tags, answering conjunctive filter
 * queries. The JSON file and the pandas frame are replaced by a sequence of
 * already-parsed records.
 */
module FewShot {
  import opened Wrappers
  import opened Text
  import opened TagOrder

  datatype Length = Short | Medium | Long

  /** The bucket as the string stored in the frame's `length` column. */
  function LengthName(l: Length): string {
    match l
    case Short => "Short"
    case Medium => "Medium"
    case Long => "Long"
  }

  /** Buckets a line count: below 5 is Short, 5 to 10 inclusive is Medium, above 10 is Long. */
  function CategorizeLength(lineCount: int): (l: Length)
    ensures l == Short <==> lineCount < 5
    ensures l == Medium <==> 5 <= lineCount <= 10
    ensures l == Long <==> lineCount > 10
  {
    if lineCount < 5 then Short
    else if 5 <= lineCount <= 10 then Medium
    else Long
  }

  /** A record's `tags` field as found in the input: one string or a list of strings. */
  datatype TagField = Scalar(tag: string) | List(tags: seq<string>)

  /** One entry of the input corpus. */
  datatype RawPost = RawPost(text: string, tags: TagField, language: string, lineCount: int)

  /** One row of the loaded corpus. */
  datatype Post = Post(text: string, tags: seq<string>, language: string, lineCount: int, length: Length)

  /** The loaded corpus and its cached tag universe. */
  datatype Store = Store(posts: seq<Post>, uniqueTags: seq<string>)

  datatype LoadError = MissingColumns

  /** Some post of the corpus carries tag `t`. */
  predicate TagOfSome(posts: seq<Post>, t: string) {
    exists i :: 0 <= i < |posts| && t in posts[i].tags
  }

  /** What loading establishes and nothing changes afterwards. */
  ghost predicate Loaded(s: Store) {
    && (forall i :: 0 <= i < |s.posts| ==> s.posts[i].length == CategorizeLength(s.posts[i].lineCount))
    && StrictlySorted(s.uniqueTags)
    && (forall t :: t in s.uniqueTags <==> TagOfSome(s.posts, t))
  }

  /** A store as the constructor of the source's class leaves it. */
  type FewShotPosts = s: Store | Loaded(s) witness Store([], [])

  function CoerceTags(f: TagField): seq<string> {
    match f
    case Scalar(t) => [t]
    case List(ts) => ts
  }

  function LoadPost(r: RawPost): Post {
    Post(r.text, CoerceTags(r.tags), r.language, r.lineCount, CategorizeLength(r.lineCount))
  }

  /** All tags of all posts, concatenated in corpus order (the frame's `tags.sum()`). */
  function AllTags(posts: seq<Post>): (r: seq<string>)
    ensures forall t :: t in r <==> TagOfSome(posts, t)
  {
    if posts == [] then []
    else
      var rest := AllTags(posts[1..]);
      assert forall t :: TagOfSome(posts[1..], t) ==> TagOfSome(posts, t) by {
        forall t | TagOfSome(posts[1..], t) ensures TagOfSome(posts, t) {
          var i :| 0 <= i < |posts[1..]| && t in posts[1..][i].tags;
          assert posts[i + 1] == posts[1..][i];
        }
      }
      assert forall t :: TagOfSome(posts, t) ==> t in posts[0].tags || TagOfSome(posts[1..], t) by {
        forall t | TagOfSome(posts, t) ensures t in posts[0].tags || TagOfSome(posts[1..], t) {
          var i :| 0 <= i < |posts| && t in posts[i].tags;
          if i > 0 { assert posts[1..][i - 1] == posts[i]; }
        }
      }
      posts[0].tags + rest
  }

  /**
   * Loads the corpus: every record gets the bucket of its line count, a
   * scalar tag becomes a one-element list, and the tag universe is the
   * sorted set of all tags. An empty input has no columns at all, so the
   * frame lookup fails.
   */
  function Load(raws: seq<RawPost>): (r: Result<FewShotPosts, LoadError>)
    ensures r.Failure? <==> raws == []
    ensures r.Success? ==> |r.value.posts| == |raws|
    ensures r.Success? ==> forall i :: 0 <= i < |raws| ==>
      var p := r.value.posts[i];
      && p.text == raws[i].text
      && p.language == raws[i].language
      && p.lineCount == raws[i].lineCount
      && p.length == CategorizeLength(raws[i].lineCount)
      && (raws[i].tags.Scalar? ==> p.tags == [raws[i].tags.tag])
      && (raws[i].tags.List? ==> p.tags == raws[i].tags.tags)
  {
    if raws == [] then Failure(MissingColumns)
    else
      var posts := seq(|raws|, i requires 0 <= i < |raws| => LoadPost(raws[i]));
      Success(Store(posts, SortedUnique(AllTags(posts))))
  }

  /** The cached tag universe: sorted, without duplicates, exactly the tags the corpus uses. */
  function GetTags(s: FewShotPosts): (tags: seq<string>)
    ensures StrictlySorted(tags)
    ensures forall t :: t in tags <==> TagOfSome(s.posts, t)
  {
    s.uniqueTags
  }

  /**
   * The three filter conditions: the tag is one of the post's tags (exact,
   * case-sensitive), the languages agree after lower-casing, and the
   * bucket's name equals `length` exactly.
   */
  predicate Matches(p: Post, length: string, language: string, tag: string) {
    && tag in p.tags
    && Lower(p.language) == Lower(language)
    && LengthName(p.length) == length
  }

  /** The posts that match all three conditions, in corpus order. */
  function FilteredPosts(posts: seq<Post>, length: string, language: string, tag: string): (r: seq<Post>)
    ensures |r| <= |posts|
    ensures forall p :: p in r <==> p in posts && Matches(p, length, language, tag)
  {
    if posts == [] then []
    else
      var rest := FilteredPosts(posts[1..], length, language, tag);
      if Matches(posts[0], length, language, tag) then [posts[0]] + rest else rest
  }

  /** Filtering a corpus in two parts and concatenating gives the filter of the whole: order is kept. */
  lemma {:induction false} FilteredAppend(a: seq<Post>, b: seq<Post>, length: string, language: string, tag: string)
    ensures FilteredPosts(a + b, length, language, tag)
         == FilteredPosts(a, length, language, tag) + FilteredPosts(b, length, language, tag)
  {
    if a == [] {
      assert a + b == b;
    } else {
      assert (a + b)[0] == a[0];
      assert (a + b)[1..] == a[1..] + b;
      FilteredAppend(a[1..], b, length, language, tag);
    }
  }

  /** The first result is the first matching post of the corpus. */
  lemma {:induction false} FilteredFirst(posts: seq<Post>, length: string, language: string, tag: string)
    requires FilteredPosts(posts, length, language, tag) != []
    ensures exists i ::
      && 0 <= i < |posts|
      && posts[i] == FilteredPosts(posts, length, language, tag)[0]
      && (forall j :: 0 <= j < i ==> !Matches(posts[j], length, language, tag))
  {
    if !Matches(posts[0], length, language, tag) {
      FilteredFirst(posts[1..], length, language, tag);
      var i :| 0 <= i < |posts[1..]|
        && posts[1..][i] == FilteredPosts(posts[1..], length, language, tag)[0]
        && (forall j :: 0 <= j < i ==> !Matches(posts[1..][j], length, language, tag));
      assert forall j :: 0 <= j < i + 1 ==> !Matches(posts[j], length, language, tag) by {
        forall j | 0 < j < i + 1 ensures !Matches(posts[j], length, language, tag) {
          assert posts[j] == posts[1..][j - 1];
        }
      }
      assert posts[i + 1] == posts[1..][i];
    } else {
      assert posts[0] == FilteredPosts(posts, length, language, tag)[0];
    }
  }

  /** Filtering a filtered list changes nothing. */
  lemma {:induction false} FilteredIdempotent(posts: seq<Post>, length: string, language: string, tag: string)
    ensures var r := FilteredPosts(posts, length, language, tag);
      FilteredPosts(r, length, language, tag) == r
  {
    if posts != [] {
      FilteredIdempotent(posts[1..], length, language, tag);
      var rest := FilteredPosts(posts[1..], length, language, tag);
      if Matches(posts[0], length, language, tag) {
        assert ([posts[0]] + rest)[1..] == rest;
      }
    }
  }

  /** Tags are compared exactly while the language ignores letter case. */
  lemma TagCaseSensitiveLanguageNot()
    ensures var p := Post("Keep going.", ["AI"], "ENGLISH", 3, Short);
      && FilteredPosts([p], "Short", "english", "AI") == [p]
      && FilteredPosts([p], "Short", "english", "ai") == []
  {
    var p := Post("Keep going.", ["AI"], "ENGLISH", 3, Short);
    assert Lower("ENGLISH") == Lower("english") == "english";
    assert Matches(p, "Short", "english", "AI");
    assert "ai" != "AI";
    assert !Matches(p, "Short", "english", "ai");
  }
}
