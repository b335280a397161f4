/**
 * The course-material pipeline: a PDF is cut into pages, each page into
 * runs of at most 250 words numbered by a counter that runs across the
 * book, the runs are embedded and upserted from the next free id, and
 * `main` deletes the course's old material before it converts the PDF.
 *
 * The PDF file is the parameter `pdf`: missing, present but unreadable by
 * the PDF library, or the text of each of its pages in order.
 */
module Material {
  import opened Values
  import opened Chunker
  import opened Embedding
  import opened Store
  import opened Scope
  import opened Deletion
  import opened PointIds
  import opened Assembly
  import opened Upload

  datatype PdfFile = Missing | Unreadable | Readable(pageTexts: seq<string>)

  /** One entry of `pages_data`: a 1-based page number and the stripped text. */
  datatype PageText = PageText(page: nat, text: string)

  /** One entry of `all_chunks`. */
  datatype PdfChunk = PdfChunk(courseId: int, bookName: string, page: nat, counter: nat, text: string)

  /** The words per chunk. */
  const MaterialWords: nat := 250

  /**
   * The pages whose text is not empty after `clean`, numbered from 1, with
   * the cleaned text; `extract_text_from_pdf` cleans with `Strip`.
   */
  function Pages(texts: seq<string>, clean: string -> string): seq<PageText> {
    if texts == [] then []
    else
      var n := |texts| - 1;
      Pages(texts[..n], clean) + (if clean(texts[n]) != [] then [PageText(n + 1, clean(texts[n]))] else [])
  }

  /** What `extract_text_from_pdf` returns or raises. */
  function ExtractedPages(pdf: PdfFile): Result<seq<PageText>> {
    match pdf
    case Missing => Err(FileNotFound)
    case Unreadable => Err(Unavailable)
    case Readable(texts) => Ok(Pages(texts, Strip))
  }

  /** `extract_text_from_pdf(pdf_path)` */
  method ExtractTextFromPdf(pdf: PdfFile) returns (r: Result<seq<PageText>>)
    ensures r == ExtractedPages(pdf)
  {
    if pdf.Missing? {
      return Err(FileNotFound);
    }
    if pdf.Unreadable? {
      return Err(Unavailable);
    }
    var texts := pdf.pageTexts;
    var pages: seq<PageText> := [];
    var i := 0;
    while i < |texts|
      invariant i <= |texts|
      invariant pages == Pages(texts[..i], Strip)
    {
      var text := Strip(texts[i]);
      PagesSnoc(texts, i, Strip, pages);
      if text != [] {
        pages := pages + [PageText(i + 1, text)];
      }
      i := i + 1;
    }
    assert texts[..i] == texts;
    return Ok(pages);
  }

  /** One more page of the file: kept, numbered from 1, when its cleaned text is not empty. */
  lemma PagesSnoc(texts: seq<string>, i: nat, clean: string -> string, pages: seq<PageText>)
    requires i < |texts| && pages == Pages(texts[..i], clean)
    ensures Pages(texts[..i + 1], clean) ==
      pages + (if clean(texts[i]) != [] then [PageText(i + 1, clean(texts[i]))] else [])
  {
    assert texts[..i + 1][..i] == texts[..i];
  }

  /**
   * Each extracted page names a page of the file, carries that page's
   * cleaned text, which is not empty, and the page numbers increase.
   */
  lemma {:induction false} PagesShape(texts: seq<string>, clean: string -> string)
    ensures forall k :: 0 <= k < |Pages(texts, clean)| ==>
      && 1 <= Pages(texts, clean)[k].page <= |texts|
      && Pages(texts, clean)[k].text == clean(texts[Pages(texts, clean)[k].page - 1])
      && Pages(texts, clean)[k].text != []
    ensures forall k, l :: 0 <= k < l < |Pages(texts, clean)| ==> Pages(texts, clean)[k].page < Pages(texts, clean)[l].page
  {
    if texts != [] {
      var n := |texts| - 1;
      var init := texts[..n];
      PagesShape(init, clean);
      var pages, pages2 := Pages(texts, clean), Pages(init, clean);
      var tail := if clean(texts[n]) != [] then [PageText(n + 1, clean(texts[n]))] else [];
      assert pages == pages2 + tail;
      forall k | 0 <= k < |pages|
        ensures 1 <= pages[k].page <= |texts| && pages[k].text == clean(texts[pages[k].page - 1]) && pages[k].text != []
      {
        if k < |pages2| {
          assert pages[k] == pages2[k] && init[pages[k].page - 1] == texts[pages[k].page - 1];
        }
      }
      forall k, l | 0 <= k < l < |pages| ensures pages[k].page < pages[l].page {
        if l < |pages2| {
          assert pages[k] == pages2[k] && pages[l] == pages2[l];
        } else {
          assert pages[k] == pages2[k];
        }
      }
    }
  }

  /** Every page of the file whose cleaned text is not empty is extracted. */
  lemma {:induction false} PagesComplete(texts: seq<string>, clean: string -> string, i: nat)
    requires i < |texts| && clean(texts[i]) != []
    ensures exists k :: 0 <= k < |Pages(texts, clean)| && Pages(texts, clean)[k].page == i + 1
  {
    var n := |texts| - 1;
    var init := texts[..n];
    var pages, pages2 := Pages(texts, clean), Pages(init, clean);
    if i < n {
      assert init[i] == texts[i];
      PagesComplete(init, clean, i);
      var k :| 0 <= k < |pages2| && pages2[k].page == i + 1;
      assert pages[k] == pages2[k];
    } else {
      assert pages[|pages| - 1].page == i + 1;
    }
  }

  /** The chunks of one page, their counters running on from `from`. */
  function NumberChunks(courseId: int, bookName: string, page: nat, texts: seq<string>, from: nat): (r: seq<PdfChunk>)
    ensures |r| == |texts|
    ensures forall j :: 0 <= j < |texts| ==> r[j] == PdfChunk(courseId, bookName, page, from + j, texts[j])
  {
    seq(|texts|, j requires 0 <= j < |texts| => PdfChunk(courseId, bookName, page, from + j, texts[j]))
  }

  /** How `process_pdf_to_chunks` splits a page's text. */
  function PageSplit(text: string): seq<string> {
    ChunkTexts(JStr(text), MaterialWords)
  }

  /**
   * The chunks of the extracted pages, each page's text cut by `split` and
   * the counter running across the book; `process_pdf_to_chunks` splits
   * with `PageSplit`.
   */
  function PdfChunks(courseId: int, bookName: string, pages: seq<PageText>, split: string -> seq<string>): seq<PdfChunk> {
    if pages == [] then []
    else
      var init := PdfChunks(courseId, bookName, pages[..|pages| - 1], split);
      var last := pages[|pages| - 1];
      init + NumberChunks(courseId, bookName, last.page, split(last.text), |init|)
  }

  lemma PdfChunksStep(courseId: int, bookName: string, pages: seq<PageText>, split: string -> seq<string>)
    requires pages != []
    ensures var n := |pages| - 1; var init := PdfChunks(courseId, bookName, pages[..n], split);
      PdfChunks(courseId, bookName, pages, split) == init + NumberChunks(courseId, bookName, pages[n].page, split(pages[n].text), |init|)
  {
  }

  /** The chunks of one more page follow those of the pages before it. */
  lemma PdfChunksSnoc(courseId: int, bookName: string, pages: seq<PageText>, i: nat, split: string -> seq<string>,
                      all: seq<PdfChunk>)
    requires i < |pages| && all == PdfChunks(courseId, bookName, pages[..i], split)
    ensures PdfChunks(courseId, bookName, pages[..i + 1], split)
      == all + NumberChunks(courseId, bookName, pages[i].page, split(pages[i].text), |all|)
  {
    assert pages[..i + 1][..i] == pages[..i];
    PdfChunksStep(courseId, bookName, pages[..i + 1], split);
  }

  /** The inner loop of `process_pdf_to_chunks`: one page's word runs appended with the running counter. */
  method AppendPageChunks(all: seq<PdfChunk>, courseId: int, bookName: string, page: nat, texts: seq<string>)
    returns (r: seq<PdfChunk>)
    ensures r == all + NumberChunks(courseId, bookName, page, texts, |all|)
  {
    r := all;
    var counter := |all|;
    var j := 0;
    while j < |texts|
      invariant j <= |texts|
      invariant r == all + NumberChunks(courseId, bookName, page, texts[..j], |all|) && counter == |all| + j
    {
      assert NumberChunks(courseId, bookName, page, texts[..j + 1], |all|)
        == NumberChunks(courseId, bookName, page, texts[..j], |all|) + [PdfChunk(courseId, bookName, page, counter, texts[j])];
      r := r + [PdfChunk(courseId, bookName, page, counter, texts[j])];
      counter := counter + 1;
      j := j + 1;
    }
    assert texts[..j] == texts;
  }

  /** One pass of the page loop of `process_pdf_to_chunks`: the page cut into runs, appended with the running counter. */
  method AppendPage(all: seq<PdfChunk>, courseId: int, bookName: string, page: PageText) returns (r: seq<PdfChunk>)
    ensures r == all + NumberChunks(courseId, bookName, page.page, PageSplit(page.text), |all|)
  {
    var texts := ChunkTextByWords(JStr(page.text), MaterialWords);
    r := AppendPageChunks(all, courseId, bookName, page.page, texts);
  }

  /** `process_pdf_to_chunks(pdf_path, course_id, book_name)`; a failure to extract propagates. */
  method ProcessPdfToChunks(pdf: PdfFile, courseId: int, bookName: string) returns (r: Result<seq<PdfChunk>>)
    ensures ExtractedPages(pdf).Err? ==> r == Err(ExtractedPages(pdf).error)
    ensures ExtractedPages(pdf).Ok? ==> r == Ok(PdfChunks(courseId, bookName, ExtractedPages(pdf).value, PageSplit))
  {
    var extracted := ExtractTextFromPdf(pdf);
    if extracted.Err? {
      return Err(extracted.error);
    }
    var pages := extracted.value;
    ghost var split := PageSplit;
    var all: seq<PdfChunk> := [];
    var i := 0;
    while i < |pages|
      invariant i <= |pages|
      invariant all == PdfChunks(courseId, bookName, pages[..i], split)
    {
      PdfChunksSnoc(courseId, bookName, pages, i, split, all);
      all := AppendPage(all, courseId, bookName, pages[i]);
      i := i + 1;
    }
    assert pages[..i] == pages;
    return Ok(all);
  }


  /** The counter of the k-th chunk of a book is k; every chunk carries the course and the book. */
  lemma {:induction false} PdfChunksNumbered(courseId: int, bookName: string, pages: seq<PageText>, split: string -> seq<string>)
    ensures forall k :: 0 <= k < |PdfChunks(courseId, bookName, pages, split)| ==> PdfChunks(courseId, bookName, pages, split)[k].counter == k && PdfChunks(courseId, bookName, pages, split)[k].courseId == courseId && PdfChunks(courseId, bookName, pages, split)[k].bookName == bookName
  {
    if pages != [] {
      var n := |pages| - 1;
      var init := PdfChunks(courseId, bookName, pages[..n], split);
      PdfChunksNumbered(courseId, bookName, pages[..n], split);
      var more := NumberChunks(courseId, bookName, pages[n].page, split(pages[n].text), |init|);
      PdfChunksStep(courseId, bookName, pages, split);
      var chunks := init + more;
      forall k | 0 <= k < |chunks| ensures chunks[k].counter == k && chunks[k].courseId == courseId && chunks[k].bookName == bookName {
        if k < |init| {
          assert chunks[k] == init[k];
        } else {
          assert chunks[k] == more[k - |init|];
        }
      }
    }
  }

  /** `page` is the number of one of `pages`. */
  predicate OnPage(page: nat, pages: seq<PageText>) {
    exists i :: 0 <= i < |pages| && pages[i].page == page
  }

  /** Every chunk names one of the extracted pages. */
  lemma {:induction false} PdfChunksOnPages(courseId: int, bookName: string, pages: seq<PageText>, split: string -> seq<string>)
    ensures forall k :: 0 <= k < |PdfChunks(courseId, bookName, pages, split)| ==>
      OnPage(PdfChunks(courseId, bookName, pages, split)[k].page, pages)
  {
    if pages != [] {
      var n := |pages| - 1;
      var pages2 := pages[..n];
      var init := PdfChunks(courseId, bookName, pages2, split);
      PdfChunksOnPages(courseId, bookName, pages2, split);
      var more := NumberChunks(courseId, bookName, pages[n].page, split(pages[n].text), |init|);
      PdfChunksStep(courseId, bookName, pages, split);
      var chunks := init + more;
      forall k | 0 <= k < |chunks| ensures OnPage(chunks[k].page, pages) {
        if k < |init| {
          assert OnPage(init[k].page, pages2);
          var i :| 0 <= i < n && init[k].page == pages2[i].page;
          assert chunks[k].page == pages[i].page;
        } else {
          assert chunks[k] == more[k - |init|];
          assert chunks[k].page == pages[n].page;
        }
      }
      assert chunks == PdfChunks(courseId, bookName, pages, split);
    }
  }

  /** With increasing page numbers, the chunks follow the pages in order. */
  lemma {:induction false} PdfChunksInPageOrder(courseId: int, bookName: string, pages: seq<PageText>, split: string -> seq<string>)
    requires forall i, j :: 0 <= i < j < |pages| ==> pages[i].page < pages[j].page
    ensures forall k, l :: 0 <= k < l < |PdfChunks(courseId, bookName, pages, split)| ==> PdfChunks(courseId, bookName, pages, split)[k].page <= PdfChunks(courseId, bookName, pages, split)[l].page
  {
    if pages != [] {
      var n := |pages| - 1;
      var pages2 := pages[..n];
      var init := PdfChunks(courseId, bookName, pages2, split);
      PdfChunksInPageOrder(courseId, bookName, pages2, split);
      PdfChunksOnPages(courseId, bookName, pages2, split);
      var more := NumberChunks(courseId, bookName, pages[n].page, split(pages[n].text), |init|);
      PdfChunksStep(courseId, bookName, pages, split);
      var chunks := init + more;
      forall k, l | 0 <= k < l < |chunks| ensures chunks[k].page <= chunks[l].page {
        if l < |init| {
          assert chunks[k] == init[k] && chunks[l] == init[l];
        } else if k < |init| {
          assert chunks[l] == more[l - |init|];
          assert OnPage(init[k].page, pages2);
          var i :| 0 <= i < n && init[k].page == pages2[i].page;
          assert chunks[k] == init[k];
          assert pages[i].page < pages[n].page;
        } else {
          assert chunks[k] == more[k - |init|] && chunks[l] == more[l - |init|];
        }
      }
    }
  }

  /** The `chunk_id` of a chunk: `{course_id}_{book_name}_{page_num}_{chunk_counter}`. */
  function ChunkIdOf(c: PdfChunk): string {
    MaterialChunkId(c.courseId, c.bookName, c.page, c.counter)
  }

  /** Chunk ids of a book are distinct: the counters differ. */
  lemma PdfChunkIdsDistinct(courseId: int, bookName: string, pages: seq<PageText>, split: string -> seq<string>)
    ensures forall k, l :: 0 <= k < l < |PdfChunks(courseId, bookName, pages, split)| ==>
      ChunkIdOf(PdfChunks(courseId, bookName, pages, split)[k]) != ChunkIdOf(PdfChunks(courseId, bookName, pages, split)[l])
  {
    var chunks := PdfChunks(courseId, bookName, pages, split);
    PdfChunksNumbered(courseId, bookName, pages, split);
    forall k, l | 0 <= k < l < |chunks| ensures ChunkIdOf(chunks[k]) != ChunkIdOf(chunks[l]) {
      MaterialChunkIdsDiffer(chunks[k].courseId, chunks[k].bookName, chunks[k].page, chunks[k].counter,
        chunks[l].courseId, chunks[l].bookName, chunks[l].page, chunks[l].counter);
    }
  }

  /** The words of the extracted pages, in reading order. */
  function BookWords(pages: seq<PageText>): seq<string> {
    if pages == [] then [] else BookWords(pages[..|pages| - 1]) + Words(pages[|pages| - 1].text)
  }

  function ChunkTextsOf(chunks: seq<PdfChunk>): (r: seq<string>)
    ensures |r| == |chunks| && forall k :: 0 <= k < |chunks| ==> r[k] == chunks[k].text
  {
    seq(|chunks|, k requires 0 <= k < |chunks| => chunks[k].text)
  }

  /** Cutting a page into runs of 250 words keeps its words in order. */
  lemma PageSplitKeepsWords(text: string)
    ensures Flatten(WordsOfEach(PageSplit(text))) == Words(text)
  {
    ChunkTextsRoundTrip(JStr(text), MaterialWords);
  }

  /**
   * When cutting a page keeps its words, chunking the book loses, repeats
   * and reorders no word: the chunks' words, in order, are the book's words.
   */
  lemma {:induction false} PdfChunksKeepWords(courseId: int, bookName: string, pages: seq<PageText>, split: string -> seq<string>)
    requires forall t :: Flatten(WordsOfEach(split(t))) == Words(t)
    ensures Flatten(WordsOfEach(ChunkTextsOf(PdfChunks(courseId, bookName, pages, split)))) == BookWords(pages)
  {
    if pages != [] {
      var n := |pages| - 1;
      var init := PdfChunks(courseId, bookName, pages[..n], split);
      var texts := split(pages[n].text);
      PdfChunksKeepWords(courseId, bookName, pages[..n], split);
      PdfChunksStep(courseId, bookName, pages, split);
      TextsOfAppended(init, courseId, bookName, pages[n].page, texts);
      WordsOfEachConcat(ChunkTextsOf(init), texts);
      FlattenConcat(WordsOfEach(ChunkTextsOf(init)), WordsOfEach(texts));
    }
  }

  lemma TextsOfAppended(init: seq<PdfChunk>, courseId: int, bookName: string, page: nat, texts: seq<string>)
    ensures ChunkTextsOf(init + NumberChunks(courseId, bookName, page, texts, |init|)) == ChunkTextsOf(init) + texts
  {
  }

  lemma WordsOfEachConcat(a: seq<string>, b: seq<string>)
    ensures WordsOfEach(a + b) == WordsOfEach(a) + WordsOfEach(b)
  {
  }

  /** The chunks of a book hold exactly its words, in reading order. */
  lemma BookChunksKeepWords(courseId: int, bookName: string, pages: seq<PageText>)
    ensures Flatten(WordsOfEach(ChunkTextsOf(PdfChunks(courseId, bookName, pages, PageSplit)))) == BookWords(pages)
  {
    forall t ensures Flatten(WordsOfEach(PageSplit(t))) == Words(t) {
      PageSplitKeepsWords(t);
    }
    PdfChunksKeepWords(courseId, bookName, pages, PageSplit);
  }

  /** The payload `upload_chunks_to_qdrant` stores for a chunk. */
  function PayloadOf(c: PdfChunk): Payload {
    MaterialChunk(c.courseId, c.bookName, c.page, c.counter, c.text)
  }

  function PayloadsOf(chunks: seq<PdfChunk>): (r: seq<Payload>)
    ensures |r| == |chunks| && forall k :: 0 <= k < |chunks| ==> r[k] == PayloadOf(chunks[k])
  {
    seq(|chunks|, k requires 0 <= k < |chunks| => PayloadOf(chunks[k]))
  }

  /** The points of `zip(chunks, embeddings)` for the embeddings `es`, numbered from `start`. */
  function MaterialPoints(start: nat, es: seq<Option<Vector>>, chunks: seq<PdfChunk>): seq<Point> {
    AssemblePairs(start, Zip(es, PayloadsOf(chunks)))
  }

  /**
   * What `upload_chunks_to_qdrant` does to a store holding `s`, given the
   * embeddings `es` of the chunk texts: the numbering starts where
   * `get_next_point_id`'s single page says (0 when that scroll raised), and an
   * upsert failure propagates.
   */
  function AfterMaterialUpload(s: seq<Point>, scrollFails: bool, upsertFails: bool, chunks: seq<PdfChunk>,
                               es: seq<Option<Vector>>): (Result<()>, seq<Point>)
  {
    var pts := MaterialPoints(StartId(s, scrollFails), es, chunks);
    if pts != [] && upsertFails then (Err(Unavailable), s) else (Ok(()), UpsertAll(s, pts))
  }

  /** `upload_chunks_to_qdrant(chunks)` */
  method UploadChunksToQdrant(chunks: seq<PdfChunk>, col: Collection, embed: Embedder<string>) returns (r: Result<()>)
    requires col.Valid()
    modifies col
    ensures col.Valid()
    ensures (r, col.points) == AfterMaterialUpload(old(col.points), old(col.Fails(ScrollOp)), old(col.Fails(UpsertOp)),
                                                   chunks, Embeddings(ChunkTextsOf(chunks), EmbedBatch, embed))
    ensures col.indexes == old(col.indexes) && col.config == old(col.config)
  {
    var start := NextPointIdSinglePage(col);
    var texts := ChunkTextsOf(chunks);
    var embeddings, pauses := CreateEmbeddings(texts, EmbedBatch, embed);
    var points, next := AssemblePoints(start, embeddings, PayloadsOf(chunks));
    if points != [] {
      var ok := UpsertInSlices(col, points);
      if !ok {
        return Err(Unavailable);
      }
    }
    return Ok(());
  }

  /**
   * The stored points of a material upload: the k-th has id `start + k` and
   * carries the chunk of the k-th embedded text, in chunk order; with every
   * embedding present, every chunk is stored.
   */
  lemma MaterialPointsSelect(start: nat, es: seq<Option<Vector>>, chunks: seq<PdfChunk>)
    ensures forall k :: 0 <= k < |MaterialPoints(start, es, chunks)| ==> MaterialPoints(start, es, chunks)[k].id == start + k
    ensures forall k :: 0 <= k < |MaterialPoints(start, es, chunks)| ==>
      exists j :: 0 <= j < |chunks| && MaterialPoints(start, es, chunks)[k].payload == PayloadOf(chunks[j])
    ensures |es| >= |chunks| && (forall j :: 0 <= j < |chunks| ==> es[j].Some?) ==>
      && |MaterialPoints(start, es, chunks)| == |chunks|
      && forall k :: 0 <= k < |chunks| ==> MaterialPoints(start, es, chunks)[k].payload == PayloadOf(chunks[k])
  {
    var pairs := Zip(es, PayloadsOf(chunks));
    var pts := MaterialPoints(start, es, chunks);
    AssembleSelects(start, pairs);
    var idx := Picked(pairs);
    forall k | 0 <= k < |pts| ensures exists j :: 0 <= j < |chunks| && pts[k].payload == PayloadOf(chunks[j]) {
      assert pts[k].payload == pairs[idx[k]].1 == PayloadOf(chunks[idx[k]]);
    }
    if |es| >= |chunks| && (forall j :: 0 <= j < |chunks| ==> es[j].Some?) {
      AllEmbedded(start, pairs);
    }
  }

  /** When every pair has an embedding, every pair becomes a point, in order. */
  lemma {:induction false} AllEmbedded(start: nat, pairs: seq<(Option<Vector>, Payload)>)
    requires forall j :: 0 <= j < |pairs| ==> pairs[j].0.Some?
    ensures var out := AssemblePairs(start, pairs);
      |out| == |pairs| && forall k :: 0 <= k < |out| ==> out[k].payload == pairs[k].1
  {
    if pairs != [] {
      var n := |pairs| - 1;
      AllEmbedded(start, pairs[..n]);
    }
  }

  /**
   * While the store holds at most 10000 points, a successful material upload
   * only adds: every stored point is kept, and the new points follow with
   * consecutive fresh ids, each carrying one of the chunks.
   */
  lemma MaterialUploadAppends(s: seq<Point>, upsertFails: bool, chunks: seq<PdfChunk>, es: seq<Option<Vector>>)
    requires DistinctIds(s) && |s| <= ScrollLimit
    requires AfterMaterialUpload(s, false, upsertFails, chunks, es).0.Ok?
    ensures AfterMaterialUpload(s, false, upsertFails, chunks, es).1 == s + MaterialPoints(NextFree(s), es, chunks)
    ensures DistinctIds(AfterMaterialUpload(s, false, upsertFails, chunks, es).1)
  {
    var start := NextFree(s);
    SinglePageFreshWhenSmall(s);
    var pts := MaterialPoints(start, es, chunks);
    MaterialPointsSelect(start, es, chunks);
    NextFreeIsFresh(s);
    forall k | 0 <= k < |pts| ensures pts[k].id !in Ids(s) {
      assert pts[k].id >= start;
    }
    assert DistinctIds(pts) by {
      forall i, j | 0 <= i < j < |pts| ensures pts[i].id != pts[j].id {
        assert pts[i].id == start + i && pts[j].id == start + j;
      }
    }
    UpsertFreshIds(s, pts);
  }

  /**
   * Past 10000 points the material upload overwrites: with ids 0..10000
   * stored in id order, the first new point takes the place of the stored
   * point 10000.
   */
  lemma MaterialUploadOverwritesWhenLarge(payload: Payload, upsertFails: bool, chunks: seq<PdfChunk>, es: seq<Option<Vector>>)
    requires MaterialPoints(ScrollLimit, es, chunks) != []
    requires AfterMaterialUpload(Consecutive(ScrollLimit + 1, payload), false, upsertFails, chunks, es).0.Ok?
    ensures var s := Consecutive(ScrollLimit + 1, payload);
      && FindId(s, ScrollLimit) == Some(s[ScrollLimit])
      && FindId(AfterMaterialUpload(s, false, upsertFails, chunks, es).1, ScrollLimit) == Some(MaterialPoints(ScrollLimit, es, chunks)[0])
  {
    var s := Consecutive(ScrollLimit + 1, payload);
    SinglePageReusesIdWhenLarge(payload);
    FindAt(s, ScrollLimit);
    assert StartId(s, false) == ScrollLimit;
    var pts := MaterialPoints(ScrollLimit, es, chunks);
    assert AfterMaterialUpload(s, false, upsertFails, chunks, es).1 == UpsertAll(s, pts);
    MaterialPointsSelect(ScrollLimit, es, chunks);
    UpsertNumberedFrom(s, pts, ScrollLimit);
  }

  /** How `main` ends. */
  datatype MaterialOutcome =
    | MissingPdf
    | ConversionFailed(error: Exception)
    | NoPdfChunks
    | UploadFailed(error: Exception)
    | MaterialUpdated(totalVectors: Option<nat>)

  /**
   * The part of `main` after a successful conversion into `chunks`, on a
   * collection holding `cleared`, with `es` the embeddings of the chunk texts.
   */
  function AfterConversion(cleared: seq<Point>, fails: set<Op>, chunks: seq<PdfChunk>, es: seq<Option<Vector>>)
    : (MaterialOutcome, seq<Point>)
  {
    if chunks == [] then (NoPdfChunks, cleared)
    else
      var u := AfterMaterialUpload(cleared, ScrollOp in fails, UpsertOp in fails, chunks, es);
      if u.0.Err? then (UploadFailed(u.0.error), u.1)
      else (MaterialUpdated(if CollectionOp in fails then None else Some(|u.1|)), u.1)
  }

  /**
   * What `main` does to a material collection holding `s`, with `fails` the
   * calls that raise: it stops at a missing file, deletes the course's
   * points (a failed delete is only reported), converts the PDF, and uploads
   * the chunks with embeddings from `embed`; the collection size is read
   * last and is None when that call raises.
   */
  function MaterialUpdate(s: seq<Point>, fails: set<Op>, courseId: int, bookName: string, pdf: PdfFile,
                          embed: Embedder<string>): (MaterialOutcome, seq<Point>)
  {
    if pdf.Missing? then (MissingPdf, s)
    else
      var cleared := if DeleteOp in fails then s else Remove(s, CourseFilter(courseId));
      match ExtractedPages(pdf)
      case Err(e) => (ConversionFailed(e), cleared)
      case Ok(pages) =>
        var chunks := PdfChunks(courseId, bookName, pages, PageSplit);
        AfterConversion(cleared, fails, chunks, Embeddings(ChunkTextsOf(chunks), EmbedBatch, embed))
  }

  /** `main()` of the material updater, for the course `courseId` and the book `bookName`. */
  method MaterialMain(col: Collection, courseId: int, bookName: string, pdf: PdfFile, embed: Embedder<string>)
    returns (outcome: MaterialOutcome)
    requires col.Valid()
    modifies col
    ensures col.Valid()
    ensures (outcome, col.points) == MaterialUpdate(old(col.points), old(col.FailingOps()), courseId, bookName, pdf, embed)
    ensures col.indexes == old(col.indexes) && col.config == old(col.config)
  {
    if pdf.Missing? {
      return MissingPdf;
    }
    var deleted := DeleteCourseVectors(col, courseId);
    var chunks := ProcessPdfToChunks(pdf, courseId, bookName);
    if chunks.Err? {
      return ConversionFailed(chunks.error);
    }
    if chunks.value == [] {
      return NoPdfChunks;
    }
    var uploaded := UploadChunksToQdrant(chunks.value, col, embed);
    if uploaded.Err? {
      return UploadFailed(uploaded.error);
    }
    var total := col.PointsCount();
    return MaterialUpdated(total);
  }

  /**
   * With no call raising and at most 10000 points left after the delete, a
   * material update replaces the course's points by the new chunks: the
   * other courses' points are untouched, and the course's points are exactly
   * the new ones, numbered on from the next free id of what remained.
   */
  lemma ReplaceCourseMaterial(s: seq<Point>, courseId: int, chunks: seq<PdfChunk>, es: seq<Option<Vector>>)
    requires DistinctIds(s) && |Remove(s, CourseFilter(courseId))| <= ScrollLimit
    requires forall k :: 0 <= k < |chunks| ==> chunks[k].courseId == courseId
    ensures var f := CourseFilter(courseId); var rest := Remove(s, f);
      var after := AfterMaterialUpload(rest, false, false, chunks, es).1;
      && Remove(after, f) == rest
      && Select(after, f) == MaterialPoints(NextFree(rest), es, chunks)
  {
    var f := CourseFilter(courseId);
    var rest := Remove(s, f);
    var pts := MaterialPoints(NextFree(rest), es, chunks);
    RemoveDistinct(s, f);
    MaterialUploadAppends(rest, false, chunks, es);
    MaterialPointsSelect(NextFree(rest), es, chunks);
    forall k | 0 <= k < |pts| ensures Matches(pts[k], f) {
      var j :| 0 <= j < |chunks| && pts[k].payload == PayloadOf(chunks[j]);
    }
    ReplaceMatching(s, f, pts);
  }

  /**
   * With no call raising and at most 10000 points left after the delete, the
   * stage after conversion leaves the other courses' points untouched, and
   * every point of the course is a chunk of the book.
   */
  lemma ConversionReplacesCourse(s: seq<Point>, courseId: int, bookName: string, chunks: seq<PdfChunk>, es: seq<Option<Vector>>)
    requires DistinctIds(s) && |Remove(s, CourseFilter(courseId))| <= ScrollLimit
    requires forall k :: 0 <= k < |chunks| ==> chunks[k].courseId == courseId && chunks[k].bookName == bookName
    ensures var f := CourseFilter(courseId); var after := AfterConversion(Remove(s, f), {}, chunks, es).1;
      && Remove(after, f) == Remove(s, f)
      && forall p :: p in Select(after, f) ==> p.payload.MaterialChunk? && p.payload.bookName == bookName
  {
    var f := CourseFilter(courseId);
    var rest := Remove(s, f);
    if chunks == [] {
      NothingMatchesAfterRemove(s, f);
      RemoveNoMatch(rest, f);
    } else {
      assert AfterConversion(rest, {}, chunks, es).1 == AfterMaterialUpload(rest, false, false, chunks, es).1;
      ReplaceCourseMaterial(s, courseId, chunks, es);
      PointsOfBook(NextFree(rest), es, chunks, bookName);
    }
  }

  /** The points of a material upload all carry chunks of the book the chunks come from. */
  lemma PointsOfBook(start: nat, es: seq<Option<Vector>>, chunks: seq<PdfChunk>, bookName: string)
    requires forall k :: 0 <= k < |chunks| ==> chunks[k].bookName == bookName
    ensures forall p :: p in MaterialPoints(start, es, chunks) ==> p.payload.MaterialChunk? && p.payload.bookName == bookName
  {
    var pts := MaterialPoints(start, es, chunks);
    MaterialPointsSelect(start, es, chunks);
    forall p | p in pts ensures p.payload.MaterialChunk? && p.payload.bookName == bookName {
      var k :| 0 <= k < |pts| && pts[k] == p;
      var j :| 0 <= j < |chunks| && pts[k].payload == PayloadOf(chunks[j]);
    }
  }

  /**
   * A run of `main` with no call raising, on a store where at most 10000
   * points lie outside the course, leaves the other courses' material
   * untouched, and every point the course keeps is a chunk of the book.
   */
  lemma MaterialUpdateReplacesCourse(s: seq<Point>, courseId: int, bookName: string, pdf: PdfFile, embed: Embedder<string>)
    requires DistinctIds(s) && pdf.Readable? && |Remove(s, CourseFilter(courseId))| <= ScrollLimit
    ensures var f := CourseFilter(courseId); var after := MaterialUpdate(s, {}, courseId, bookName, pdf, embed).1;
      && Remove(after, f) == Remove(s, f)
      && forall p :: p in Select(after, f) ==> p.payload.MaterialChunk? && p.payload.bookName == bookName
  {
    var pages := ExtractedPages(pdf).value;
    var chunks := PdfChunks(courseId, bookName, pages, PageSplit);
    PdfChunksNumbered(courseId, bookName, pages, PageSplit);
    ConversionReplacesCourse(s, courseId, bookName, chunks, Embeddings(ChunkTextsOf(chunks), EmbedBatch, embed));
  }

  /**
   * The old material goes first: when the PDF exists but cannot be read,
   * the course's points are still deleted (unless the delete raised), and
   * nothing new is stored.
   */
  lemma UnreadablePdfStillDeletes(s: seq<Point>, fails: set<Op>, courseId: int, bookName: string, embed: Embedder<string>)
    ensures MaterialUpdate(s, fails, courseId, bookName, Unreadable, embed)
      == (ConversionFailed(Unavailable), if DeleteOp in fails then s else Remove(s, CourseFilter(courseId)))
  {
  }
}
