/**
 * `process_chapters`: walk a resource's `Topics` / `Sub-topics` structure in
 * order and emit one record per word chunk of each non-empty sub-topic content,
 * tagged with the topic and sub-topic titles.
 */
module Chapters {
  import opened Values
  import opened Chunker

  /** The word budget of a chapter chunk (`max_words=250`). */
  const ChapterWords: nat := 250

  /** One chapter record: its text and the titles of the topic and sub-topic it came from. */
  datatype ChapterChunk = ChapterChunk(text: string, topicTitle: Json, subtopicTitle: Json)

  function Tag(texts: seq<string>, topicTitle: Json, subtopicTitle: Json): (r: seq<ChapterChunk>)
    ensures |r| == |texts|
  {
    seq(|texts|, i requires 0 <= i < |texts| => ChapterChunk(texts[i], topicTitle, subtopicTitle))
  }

  /** `acc` followed by the records of `r`, or the exception `r` raised. */
  function Prepend(acc: seq<ChapterChunk>, r: Result<seq<ChapterChunk>>): Result<seq<ChapterChunk>> {
    if r.Ok? then Ok(acc + r.value) else r
  }

  /** Run `first`, then `rest`: the first exception wins, otherwise the records concatenate. */
  function Then(first: Result<seq<ChapterChunk>>, rest: Result<seq<ChapterChunk>>): Result<seq<ChapterChunk>> {
    if first.Err? then first else Prepend(first.value, rest)
  }

  /** The records of one sub-topic; `.get` on a value that is not a dict raises AttributeError. */
  function SubtopicChunks(topicTitle: Json, sub: Json): Result<seq<ChapterChunk>> {
    if !sub.JObj? then Err(AttributeError)
    else
      var content := Get(sub, "content", JStr(""));
      if Truthy(content) then Ok(Tag(ChunkTexts(content, ChapterWords), topicTitle, Get(sub, "title", JStr(""))))
      else Ok([])
  }

  function SubtopicList(topicTitle: Json, subs: seq<Json>): Result<seq<ChapterChunk>> {
    if subs == [] then Ok([])
    else Then(SubtopicChunks(topicTitle, subs[0]), SubtopicList(topicTitle, subs[1..]))
  }

  /** The records of one topic; iterating a `Sub-topics` value that is not iterable raises TypeError. */
  function TopicChunks(topic: Json): Result<seq<ChapterChunk>> {
    if !topic.JObj? then Err(AttributeError)
    else
      match Iterate(Get(topic, "Sub-topics", JList([])))
      case None => Err(TypeError)
      case Some(subs) => SubtopicList(Get(topic, "title", JStr("")), subs)
  }

  function TopicList(topics: seq<Json>): Result<seq<ChapterChunk>> {
    if topics == [] then Ok([])
    else Then(TopicChunks(topics[0]), TopicList(topics[1..]))
  }

  /** What `process_chapters(data)` returns, or the exception it raises. */
  function ChapterChunks(data: Json): Result<seq<ChapterChunk>> {
    if !Truthy(data) || !data.JObj? then Ok([])
    else
      match Iterate(Get(data, "Topics", JList([])))
      case None => Err(TypeError)
      case Some(topics) => TopicList(topics)
  }

  lemma PrependNothing(r: Result<seq<ChapterChunk>>)
    ensures Prepend([], r) == r
  {
    if r.Ok? {
      assert [] + r.value == r.value;
    }
  }

  lemma PrependThen(acc: seq<ChapterChunk>, first: seq<ChapterChunk>, rest: Result<seq<ChapterChunk>>)
    ensures Prepend(acc, Then(Ok(first), rest)) == Prepend(acc + first, rest)
  {
    if rest.Ok? {
      assert acc + (first + rest.value) == acc + first + rest.value;
    }
  }

  /** The innermost loop: one record per chunk text, appended in order. */
  method AppendTagged(chunks: seq<ChapterChunk>, texts: seq<string>, topicTitle: Json, subtopicTitle: Json)
    returns (r: seq<ChapterChunk>)
    ensures r == chunks + Tag(texts, topicTitle, subtopicTitle)
  {
    r := chunks;
    var k := 0;
    while k < |texts|
      invariant k <= |texts|
      invariant r == chunks + Tag(texts[..k], topicTitle, subtopicTitle)
    {
      assert texts[..k + 1] == texts[..k] + [texts[k]];
      r := r + [ChapterChunk(texts[k], topicTitle, subtopicTitle)];
      k := k + 1;
    }
    assert texts[..k] == texts;
  }

  /** One pass of the topic loop: the records of `topic` appended to `chunks`, or the exception raised. */
  method ProcessTopic(chunks: seq<ChapterChunk>, topic: Json) returns (r: Result<seq<ChapterChunk>>)
    ensures r == Prepend(chunks, TopicChunks(topic))
  {
    if !topic.JObj? {
      return Err(AttributeError);
    }
    var topicTitle := Get(topic, "title", JStr(""));
    var iterSubs := Iterate(Get(topic, "Sub-topics", JList([])));
    if iterSubs.None? {
      return Err(TypeError);
    }
    var subs := iterSubs.value;
    var acc := chunks;
    var j := 0;
    assert subs[0..] == subs;
    while j < |subs|
      invariant j <= |subs|
      invariant Prepend(acc, SubtopicList(topicTitle, subs[j..])) == Prepend(chunks, TopicChunks(topic))
    {
      var sub := subs[j];
      assert subs[j..][1..] == subs[j + 1..];
      if !sub.JObj? {
        return Err(AttributeError);
      }
      var subtopicTitle := Get(sub, "title", JStr(""));
      var content := Get(sub, "content", JStr(""));
      if Truthy(content) {
        var texts := ChunkTextByWords(content, ChapterWords);
        ghost var before := acc;
        acc := AppendTagged(acc, texts, topicTitle, subtopicTitle);
        PrependThen(before, Tag(texts, topicTitle, subtopicTitle), SubtopicList(topicTitle, subs[j + 1..]));
      } else {
        PrependThen(acc, [], SubtopicList(topicTitle, subs[j + 1..]));
        assert acc + [] == acc;
      }
      j := j + 1;
    }
    assert acc + [] == acc;
    return Ok(acc);
  }

  method ProcessChapters(data: Json) returns (r: Result<seq<ChapterChunk>>)
    ensures r == ChapterChunks(data)
  {
    if !Truthy(data) || !data.JObj? {
      return Ok([]);
    }
    var iterTopics := Iterate(Get(data, "Topics", JList([])));
    if iterTopics.None? {
      return Err(TypeError);
    }
    var topics := iterTopics.value;
    var chunks: seq<ChapterChunk> := [];
    var i := 0;
    assert topics[0..] == topics;
    PrependNothing(TopicList(topics));
    while i < |topics|
      invariant i <= |topics|
      invariant Prepend(chunks, TopicList(topics[i..])) == ChapterChunks(data)
    {
      assert topics[i..][1..] == topics[i + 1..];
      var step := ProcessTopic(chunks, topics[i]);
      if step.Err? {
        return step;
      }
      PrependThen(chunks, TopicChunks(topics[i]).value, TopicList(topics[i + 1..]));
      chunks := step.value;
      i := i + 1;
    }
    assert chunks + [] == chunks;
    return Ok(chunks);
  }

  // ---------------------------------------------------------------------------
  // What the records say about the chapter structure

  /** A word of a chapter text, with the titles of the topic and sub-topic it comes from. */
  datatype TaggedWord = TaggedWord(word: string, topicTitle: Json, subtopicTitle: Json)

  function TagWords(ws: seq<string>, topicTitle: Json, subtopicTitle: Json): (r: seq<TaggedWord>)
    ensures |r| == |ws|
  {
    seq(|ws|, i requires 0 <= i < |ws| => TaggedWord(ws[i], topicTitle, subtopicTitle))
  }

  /**
   * The words of a sub-topic's string content, each tagged with the topic's
   * title and the sub-topic's `title` (default "").
   */
  function SubtopicWords(topicTitle: Json, sub: Json): seq<TaggedWord> {
    if sub.JObj? && Get(sub, "content", JStr("")).JStr? then
      TagWords(Words(Get(sub, "content", JStr("")).s), topicTitle, Get(sub, "title", JStr("")))
    else []
  }

  function SubtopicListWords(topicTitle: Json, subs: seq<Json>): seq<TaggedWord> {
    if subs == [] then [] else SubtopicWords(topicTitle, subs[0]) + SubtopicListWords(topicTitle, subs[1..])
  }

  function TopicWords(topic: Json): seq<TaggedWord> {
    if !topic.JObj? then []
    else
      match Iterate(Get(topic, "Sub-topics", JList([])))
      case None => []
      case Some(subs) => SubtopicListWords(Get(topic, "title", JStr("")), subs)
  }

  function TopicListWords(topics: seq<Json>): seq<TaggedWord> {
    if topics == [] then [] else TopicWords(topics[0]) + TopicListWords(topics[1..])
  }

  /** The tagged words of every string sub-topic content, in topic-then-sub-topic order. */
  function ContentWords(data: Json): seq<TaggedWord> {
    if !Truthy(data) || !data.JObj? then []
    else
      match Iterate(Get(data, "Topics", JList([])))
      case None => []
      case Some(topics) => TopicListWords(topics)
  }

  /** The words carried by a list of records, in order, each with its record's titles. */
  function RecordWords(cs: seq<ChapterChunk>): seq<TaggedWord> {
    if cs == [] then []
    else TagWords(Words(cs[0].text), cs[0].topicTitle, cs[0].subtopicTitle) + RecordWords(cs[1..])
  }

  /** Each record is a run of 1 to 250 words. */
  predicate Bounded(cs: seq<ChapterChunk>) {
    forall k :: 0 <= k < |cs| ==> 1 <= |Words(cs[k].text)| <= ChapterWords
  }

  lemma {:induction false} RecordWordsConcat(a: seq<ChapterChunk>, b: seq<ChapterChunk>)
    ensures RecordWords(a + b) == RecordWords(a) + RecordWords(b)
  {
    if a == [] {
      assert a + b == b;
    } else {
      assert (a + b)[1..] == a[1..] + b;
      RecordWordsConcat(a[1..], b);
      var head := TagWords(Words(a[0].text), a[0].topicTitle, a[0].subtopicTitle);
      assert head + (RecordWords(a[1..]) + RecordWords(b)) == head + RecordWords(a[1..]) + RecordWords(b);
    }
  }

  lemma TagWordsConcat(a: seq<string>, b: seq<string>, topicTitle: Json, subtopicTitle: Json)
    ensures TagWords(a + b, topicTitle, subtopicTitle) == TagWords(a, topicTitle, subtopicTitle) + TagWords(b, topicTitle, subtopicTitle)
  {
  }

  /** The records of a sub-topic read back as its chunk texts' words, all with the same titles. */
  lemma {:induction false} TaggedRecordWords(texts: seq<string>, topicTitle: Json, subtopicTitle: Json)
    ensures RecordWords(Tag(texts, topicTitle, subtopicTitle)) == TagWords(Flatten(WordsOfEach(texts)), topicTitle, subtopicTitle)
  {
    if texts != [] {
      var cs := Tag(texts, topicTitle, subtopicTitle);
      var head := Words(texts[0]);
      var tail := Flatten(WordsOfEach(texts[1..]));
      assert cs[0] == ChapterChunk(texts[0], topicTitle, subtopicTitle);
      assert cs[1..] == Tag(texts[1..], topicTitle, subtopicTitle);
      assert RecordWords(cs) == TagWords(head, topicTitle, subtopicTitle) + RecordWords(cs[1..]);
      assert WordsOfEach(texts)[0] == head;
      assert WordsOfEach(texts)[1..] == WordsOfEach(texts[1..]);
      assert Flatten(WordsOfEach(texts)) == head + tail;
      TaggedRecordWords(texts[1..], topicTitle, subtopicTitle);
      TagWordsConcat(head, tail, topicTitle, subtopicTitle);
    }
  }

  lemma SubtopicFacts(topicTitle: Json, sub: Json)
    requires SubtopicChunks(topicTitle, sub).Ok?
    ensures var cs := SubtopicChunks(topicTitle, sub).value;
      && RecordWords(cs) == SubtopicWords(topicTitle, sub)
      && Bounded(cs)
      && forall k :: 0 <= k < |cs| ==>
           cs[k].topicTitle == topicTitle && cs[k].subtopicTitle == Get(sub, "title", JStr(""))
  {
    var content := Get(sub, "content", JStr(""));
    var subtopicTitle := Get(sub, "title", JStr(""));
    ChunkTextsRoundTrip(content, ChapterWords);
    if Truthy(content) {
      var texts := ChunkTexts(content, ChapterWords);
      TaggedRecordWords(texts, topicTitle, subtopicTitle);
    } else if content.JStr? {
      assert content.s == [];
    }
  }

  lemma {:induction false} SubtopicListFacts(topicTitle: Json, subs: seq<Json>)
    requires SubtopicList(topicTitle, subs).Ok?
    ensures var cs := SubtopicList(topicTitle, subs).value;
      && RecordWords(cs) == SubtopicListWords(topicTitle, subs)
      && Bounded(cs)
      && forall k :: 0 <= k < |cs| ==> cs[k].topicTitle == topicTitle
  {
    if subs != [] {
      SubtopicFacts(topicTitle, subs[0]);
      SubtopicListFacts(topicTitle, subs[1..]);
      RecordWordsConcat(SubtopicChunks(topicTitle, subs[0]).value, SubtopicList(topicTitle, subs[1..]).value);
    }
  }

  lemma {:induction false} TopicListFacts(topics: seq<Json>)
    requires TopicList(topics).Ok?
    ensures RecordWords(TopicList(topics).value) == TopicListWords(topics)
    ensures Bounded(TopicList(topics).value)
  {
    if topics != [] {
      var t := topics[0];
      match Iterate(Get(t, "Sub-topics", JList([])))
      case None =>
      case Some(subs) =>
        SubtopicListFacts(Get(t, "title", JStr("")), subs);
      TopicListFacts(topics[1..]);
      RecordWordsConcat(TopicChunks(t).value, TopicList(topics[1..]).value);
    }
  }

  /**
   * When `process_chapters` returns, its records read back, in order, as exactly
   * the words of the string sub-topic contents in topic-then-sub-topic order,
   * each word in a record tagged with the title of the topic and of the
   * sub-topic it comes from; each record holds between 1 and 250 words.
   */
  lemma ChapterChunksPreserveWords(data: Json)
    requires ChapterChunks(data).Ok?
    ensures RecordWords(ChapterChunks(data).value) == ContentWords(data)
    ensures Bounded(ChapterChunks(data).value)
  {
    if Truthy(data) && data.JObj? {
      var topics := Iterate(Get(data, "Topics", JList([]))).value;
      TopicListFacts(topics);
    }
  }

  /** A chapter structure without `Topics`, or a value that is not a dict, gives no records. */
  lemma NoTopicsNoChunks(data: Json)
    requires !data.JObj? || !HasKey(data, "Topics")
    ensures ChapterChunks(data) == Ok([])
  {
  }

  /** A topic that is not a dict makes `process_chapters` raise, whatever follows it. */
  lemma {:induction false} TopicNotDictRaises(topics: seq<Json>, i: nat)
    requires i < |topics| && !topics[i].JObj?
    requires forall j :: 0 <= j < i ==> TopicChunks(topics[j]).Ok?
    ensures TopicList(topics) == Err(AttributeError)
  {
    if i > 0 {
      TopicNotDictRaises(topics[1..], i - 1);
    }
  }
}
