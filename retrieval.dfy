/** The ranking half of the `/search` handler: score every stored document
    against the query vector in scan order, sort the scores with the
    descending comparator, keep the first two and join them into one reply
    string. The database cursor becomes the sequence `records`; the query
    vector, the final floating-point quotient and the text of a score are
    parameters. */
module Retrieval {
  import opened Similarity
  import opened Ranking

  /** A stored document as the scan reads it: its `content` field and its
      `embedding` field. */
  datatype StoredRecord = StoredRecord(content: string, embedding: seq<real>)

  /** `limit(2)`: how many results the reply carries. */
  const Limit: nat := 2

  /** `Collectors.joining(", ")`. */
  const Separator: string := ", "

  /** The text between a document and its score in one reply entry. */
  const ScoreLabel: string := " - Cosine Similarity: "

  /** No stored embedding is shorter than the query vector, so the scoring
      loop never indexes past the end of one. */
  predicate Scorable(queryVector: seq<real>, records: seq<StoredRecord>)
  {
    forall k | 0 <= k < |records| :: |queryVector| <= |records[k].embedding|
  }

  /** The list the scan builds: one result per stored document, in scan
      order, carrying that document's content and its score. */
  function Scored(queryVector: seq<real>, records: seq<StoredRecord>, quotient: Quotient)
    : (r: seq<SimilarityResult>)
    requires Scorable(queryVector, records)
    ensures |r| == |records|
    ensures forall k | 0 <= k < |records| ::
              Cosine(queryVector, records[k].embedding, quotient).Ok? &&
              r[k] == SimilarityResult(records[k].content,
                                       Cosine(queryVector, records[k].embedding, quotient).value)
  {
    if records == [] then []
    else
      var last := records[|records| - 1];
      Scored(queryVector, records[..|records| - 1], quotient)
        + [SimilarityResult(last.content, Cosine(queryVector, last.embedding, quotient).value)]
  }

  /** The scan loop (`while (cursor.hasNext())`): scores each document in
      turn and appends the result. The first document whose embedding is
      shorter than the query vector throws, and nothing is returned. */
  method Collect(queryVector: seq<real>, records: seq<StoredRecord>, quotient: Quotient)
    returns (r: Result<seq<SimilarityResult>>)
    ensures r.Ok? <==> Scorable(queryVector, records)
    ensures r.Ok? ==> r.value == Scored(queryVector, records, quotient)
    ensures r.Err? ==> exists k | 0 <= k < |records| ::
              Scorable(queryVector, records[..k]) &&
              |records[k].embedding| < |queryVector| &&
              r.fault == ArrayIndexOutOfBounds(|records[k].embedding|)
  {
    var similarityResults: seq<SimilarityResult> := [];
    var i := 0;
    while i < |records|
      invariant i <= |records|
      invariant Scorable(queryVector, records[..i])
      invariant similarityResults == Scored(queryVector, records[..i], quotient)
    {
      var doc := records[i];
      var similarity := CosineSimilarity(queryVector, doc.embedding, quotient);
      if similarity.Err? {
        assert !Scorable(queryVector, records[..i + 1]);
        return Err(similarity.fault);
      }
      similarityResults := similarityResults + [SimilarityResult(doc.content, similarity.value)];
      assert records[..i + 1][..i] == records[..i];
      i := i + 1;
    }
    assert records[..i] == records;
    r := Ok(similarityResults);
  }

  /** `stream().limit(k)`: the first k results, or all of them when there
      are fewer. */
  function Take(s: seq<SimilarityResult>, k: nat): seq<SimilarityResult>
  {
    if k < |s| then s[..k] else s
  }

  /** One reply entry: the document, the label, and the score as `show`
      writes it. */
  function Render(result: SimilarityResult, show: real -> string): string
  {
    result.metadata + ScoreLabel + show(result.similarity)
  }

  /** `.map(...)` over the kept results: one entry per result, in order. */
  function RenderAll(results: seq<SimilarityResult>, show: real -> string): seq<string>
  {
    seq(|results|, k requires 0 <= k < |results| => Render(results[k], show))
  }

  /** `Collectors.joining(separator)`: the parts in order with the
      separator between neighbours. */
  function Join(parts: seq<string>, separator: string): string
  {
    if parts == [] then ""
    else if |parts| == 1 then parts[0]
    else parts[0] + separator + Join(parts[1..], separator)
  }

  /** The reply for a sorted list: its first `Limit` entries, joined. */
  function Reply(sorted: seq<SimilarityResult>, show: real -> string): string
  {
    Join(RenderAll(Take(sorted, Limit), show), Separator)
  }

  /** The ranking part of `search`: scan, sort in place, take and join.
      A document that cannot be scored aborts the whole search with the
      fault of the first such document. */
  method Search(queryVector: seq<real>, records: seq<StoredRecord>,
                quotient: Quotient, show: real -> string)
    returns (r: Result<string>)
    ensures r.Ok? <==> Scorable(queryVector, records)
    ensures r.Ok? ==> r.value == Reply(StableSort(Scored(queryVector, records, quotient)), show)
    ensures r.Err? ==> exists k | 0 <= k < |records| ::
              Scorable(queryVector, records[..k]) &&
              |records[k].embedding| < |queryVector| &&
              r.fault == ArrayIndexOutOfBounds(|records[k].embedding|)
  {
    var collected := Collect(queryVector, records, quotient);
    if collected.Err? {
      return Err(collected.fault);
    }
    var similarityResults := collected.value;
    var list := new SimilarityResult[|similarityResults|](k requires 0 <= k < |similarityResults| => similarityResults[k]);
    assert list[..] == similarityResults;
    Sort(list);
    r := Ok(Reply(list[..], show));
  }

  /** The top-k law: the reply keeps min(k, n) of the n scored results,
      loses none it should keep, and every kept score is at least every
      score left out. */
  lemma TopKLaw(collected: seq<SimilarityResult>, k: nat)
    ensures |Take(StableSort(collected), k)| == if k < |collected| then k else |collected|
    ensures multiset(Take(StableSort(collected), k)) <= multiset(collected)
    ensures forall x, y | x in Take(StableSort(collected), k) &&
                          y in multiset(collected) - multiset(Take(StableSort(collected), k)) ::
              x.similarity >= y.similarity
  {
    var sorted := StableSort(collected);
    StableSortPermutation(collected);
    StableSortIsStableSort(collected);
    var n := if k < |sorted| then k else |sorted|;
    var top, rest := sorted[..n], sorted[n..];
    assert Take(sorted, k) == top;
    assert sorted == top + rest;
    assert multiset(collected) - multiset(top) == multiset(rest);
    SortedSplit(sorted, n);
  }

  /** Joining one more part adds the separator and the part at the end. */
  lemma {:induction false} JoinSnoc(parts: seq<string>, part: string, separator: string)
    requires parts != []
    ensures Join(parts + [part], separator) == Join(parts, separator) + separator + part
  {
    if |parts| == 1 {
      assert (parts + [part])[1..] == [part];
    } else {
      assert (parts + [part])[1..] == parts[1..] + [part];
      JoinSnoc(parts[1..], part, separator);
    }
  }

  /** No separator at either end: a non-empty join starts with its first
      part and ends with its last. */
  lemma {:induction false} JoinEnds(parts: seq<string>, separator: string)
    requires parts != []
    ensures parts[0] <= Join(parts, separator)
    ensures var j := Join(parts, separator);
            var last := parts[|parts| - 1];
            |last| <= |j| && j[|j| - |last|..] == last
  {
    if |parts| > 1 {
      JoinEnds(parts[1..], separator);
      var rest := Join(parts[1..], separator);
      var j := parts[0] + separator + rest;
      assert j[..|parts[0]|] == parts[0];
      assert j[|j| - |rest|..] == rest;
    }
  }

  /** What the reply reads like at `Limit` = 2: nothing for no documents,
      the single entry for one, and the two best entries separated by ", "
      otherwise. */
  lemma ReplyShape(sorted: seq<SimilarityResult>, show: real -> string)
    ensures |sorted| == 0 ==> Reply(sorted, show) == ""
    ensures |sorted| == 1 ==> Reply(sorted, show) == Render(sorted[0], show)
    ensures |sorted| >= 2 ==>
              Reply(sorted, show) == Render(sorted[0], show) + Separator + Render(sorted[1], show)
  {
    if |sorted| >= 2 {
      var parts := RenderAll(Take(sorted, Limit), show);
      assert |parts| == 2;
      assert parts[1..] == [parts[1]];
      assert Join(parts, Separator) == parts[0] + Separator + Join([parts[1]], Separator);
    }
  }

  /** Scores for the unit vectors [1, 0], [0, 1] and [-1, 0] against the
      query [1, 0], with any quotient that is exact when both squared norms
      are 1: the reply lists the first and then the second. */
  lemma UnitVectorExample(quotient: Quotient, show: real -> string)
    requires forall d :: quotient(d, 1.0, 1.0) == d
    ensures var records := [StoredRecord("east", [1.0, 0.0]),
                            StoredRecord("north", [0.0, 1.0]),
                            StoredRecord("west", [-1.0, 0.0])];
            var ranked := StableSort(Scored([1.0, 0.0], records, quotient));
            ranked == [SimilarityResult("east", 1.0),
                       SimilarityResult("north", 0.0),
                       SimilarityResult("west", -1.0)] &&
            Reply(ranked, show) ==
              "east" + ScoreLabel + show(1.0) + Separator + "north" + ScoreLabel + show(0.0)
  {
    var records := [StoredRecord("east", [1.0, 0.0]),
                    StoredRecord("north", [0.0, 1.0]),
                    StoredRecord("west", [-1.0, 0.0])];
    var scored := Scored([1.0, 0.0], records, quotient);
    var east, north, west := SimilarityResult("east", 1.0), SimilarityResult("north", 0.0),
                             SimilarityResult("west", -1.0);
    assert scored == [east, north, west];
    assert StableSort([east]) == [east];
    assert [east, north][..1] == [east];
    assert StableSort([east, north]) == [east, north];
    assert [east, north, west][..2] == [east, north];
    assert StableSort(scored) == [east, north, west];
    ReplyShape([east, north, west], show);
  }

  /** Ties keep scan order: two documents with the same embedding are
      replied in the order the scan met them. */
  lemma TieExample(quotient: Quotient, show: real -> string)
    ensures var records := [StoredRecord("first", [1.0]), StoredRecord("second", [1.0])];
            var ranked := StableSort(Scored([1.0], records, quotient));
            ranked[0].metadata == "first" && ranked[1].metadata == "second"
  {
    var records := [StoredRecord("first", [1.0]), StoredRecord("second", [1.0])];
    var scored := Scored([1.0], records, quotient);
    assert scored[0].similarity == scored[1].similarity;
    assert scored[..1] == [scored[0]];
    assert StableSort([scored[0]]) == [scored[0]];
    assert StableSort(scored) == [scored[0], scored[1]];
  }
}
