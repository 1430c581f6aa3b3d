# Ranking core of springai-mongodb-vector-demo, in Dafny

The demo stores text chunks with their embeddings in MongoDB. Its `/search`
handler answers a query in these steps:

1. It embeds the query text.
2. It scans every stored document. It scores each one against the query
   vector with `cosineSimilarity` and collects one `SimilarityResult`
   (content, score) per document, in scan order.
3. It sorts the list with `Collections.sort`. The comparator
   `SimilarityResult.compareTo` puts the higher score first.
4. It replies with the first two entries, joined by `", "`.

This project models steps 2–4 and proves their laws.

- `similarity.dfy` (module `Similarity`) covers the scoring loop of
  `cosineSimilarity`. `Dot` and `SumSquares` are the exact prefix sums
  that the loop's three accumulators hold over reals, and `Cosine` specifies the whole call.
  `CosineSimilarity` is the loop, proved equal to `Cosine`. Proved facts:
  - the squared norms are never negative;
  - a vector's dot product with itself is its squared norm;
  - the dot product is symmetric;
  - entries of the stored vector past the query's length are never read;
  - Cauchy–Schwarz holds for the exact sums
    (`dot * dot <= normA * normB`).
- `ranking.dfy` (module `Ranking`) covers `SimilarityResult`,
  `Double.compare` and `compareTo`. It proves that the comparator is a
  descending, antisymmetric and transitive order. `Sort` sorts an array in
  place by stable insertion, and is proved to leave `StableSort` of the
  input. `StableSort` is proved to be a permutation of its input that is
  ordered by the comparator and keeps equal scores in input order.
  `StableSortOutputUnique` proves that only one list has all three
  properties. So any stable sort, including the library's TimSort,
  leaves the same list.
- `retrieval.dfy` (module `Retrieval`) covers the scan loop (`Collect`),
  `limit(2)` (`Take`), the entry text (`Render`), `Collectors.joining`
  (`Join`) and the ranking part of `search` (`Search`). Proved facts:
  - the reply keeps `min(2, n)` results, and each kept score is at least
    every score left out;
  - the reply has one of three shapes: empty, one entry, or two entries
    with one separator;
  - a joined string has no separator at either end;
  - two worked examples: three unit vectors, and a tie.

Inputs taken as parameters:

- **The query vector.** The embedding provider computes it.
- **The stored documents.** A sequence of `(content, embedding)` records
  replaces the database cursor.
- **`quotient`.** It computes `dotProduct / (Math.sqrt(normA) *
  Math.sqrt(normB))` from the three accumulators. That step is
  floating-point library code.
- **`show`.** It is `Double.toString`, the text of a score in the reply.

Scores are `real`s, so the comparator is a total preorder on results.
Every accumulator operation of the scoring loop (each product, each square
and each `+=`) is exact in the model; see "Left out".

Behaviour of the code that the model keeps:

- **Vector length mismatch.** The loop runs over the indices of the query
  vector (`vectorA`) and reads the stored vector (`vectorB`) at the same
  indices. A longer stored vector is accepted, and its extra entries are
  never read. A shorter stored vector throws
  `ArrayIndexOutOfBoundsException` at index `vectorB.length`. The exception
  ends the whole search, with no partial answer. The model returns
  `Err(ArrayIndexOutOfBounds(|vectorB|))` for the first such document in
  scan order.
- **Zero-norm vectors.** Nothing rejects them. The division then yields
  NaN (see "Left out").
- **Result size and reply format.** The number of results is fixed at
  K = 2. The reply is one string: `content + " - Cosine Similarity: " +
  score` for each entry, joined by `", "`.
- **Ties.** The comparator has no tie-break of its own. `Collections.sort`
  is documented as stable, so equal scores keep scan order, and the model
  proves that.

## Model

| member | source | states |
|---|---|---|
| Similarity.SumSquares | src/main/java/com/example/springaimongodbvectordemo/controller/AIController.java:95-96 | the squared-norm accumulator is never negative |
| Similarity.CosineSimilarity | src/main/java/com/example/springaimongodbvectordemo/controller/AIController.java:89-99 | the loop hands `quotient` the dot product over the indices of vectorA and both squared norms over those indices. It throws at index `|vectorB|` exactly when vectorB is shorter than vectorA (result equals `Cosine`) |
| Similarity.DotSelf | src/main/java/com/example/springaimongodbvectordemo/controller/AIController.java:94-95 | the dot product of a vector with itself equals its squared norm |
| Similarity.DotSymmetric | src/main/java/com/example/springaimongodbvectordemo/controller/AIController.java:94 | swapping the two vectors does not change the dot product |
| Similarity.SumsAgree | src/main/java/com/example/springaimongodbvectordemo/controller/AIController.java:93-96 | the accumulators depend only on the first n entries of each vector |
| Similarity.SelfScore | src/main/java/com/example/springaimongodbvectordemo/controller/AIController.java:89-98 | scoring a vector against itself never fails, and passes `quotient` the same value three times |
| Similarity.CosineIgnoresTail | src/main/java/com/example/springaimongodbvectordemo/controller/AIController.java:93-96 | entries of vectorB past the length of vectorA do not change the score |
| Similarity.CauchySchwarz | src/main/java/com/example/springaimongodbvectordemo/controller/AIController.java:94-98 | the squared dot product is at most the product of the two squared norms, which bounds the exact cosine to [-1, 1] |
| Ranking.DoubleCompare | src/main/java/com/example/springaimongodbvectordemo/controller/AIController.java:114 | `Double.compare(d1, d2)` is -1, 0 or 1, and negative exactly when d1 < d2, positive exactly when d1 > d2 |
| Ranking.CompareTo | src/main/java/com/example/springaimongodbvectordemo/controller/AIController.java:113-115 | `compareTo` is negative exactly when this result scores higher, positive exactly when it scores lower, and zero exactly when the scores are equal (descending order) |
| Ranking.CompareToAntisymmetric | src/main/java/com/example/springaimongodbvectordemo/controller/AIController.java:113-115 | `compareTo(x, y) == -compareTo(y, x)` |
| Ranking.CompareToTransitive | src/main/java/com/example/springaimongodbvectordemo/controller/AIController.java:113-115 | `compareTo` is transitive in both its `<= 0` and `< 0` forms, so it is a total preorder |
| Ranking.WithScoreMembers | src/main/java/com/example/springaimongodbvectordemo/controller/AIController.java:79 | the per-score subsequence used to state stability holds exactly the results with that score |
| Ranking.InsertCount | src/main/java/com/example/springaimongodbvectordemo/controller/AIController.java:79 | one insertion step adds exactly the inserted result |
| Ranking.InsertSorted | src/main/java/com/example/springaimongodbvectordemo/controller/AIController.java:79 | inserting into a sorted list leaves it sorted |
| Ranking.InsertWithScore | src/main/java/com/example/springaimongodbvectordemo/controller/AIController.java:79 | inserting x appends it to the subsequence of its own score and changes no other score's subsequence |
| Ranking.StableSortPermutation | src/main/java/com/example/springaimongodbvectordemo/controller/AIController.java:79 | after the sort the list holds exactly the collected results, with nothing added or lost (multiset equality) |
| Ranking.StableSortIsStableSort | src/main/java/com/example/springaimongodbvectordemo/controller/AIController.java:79 | the sorted list is ordered by `compareTo` (similarities non-increasing), and results with equal similarity keep their relative scan order |
| Ranking.StableSortOutputUnique | src/main/java/com/example/springaimongodbvectordemo/controller/AIController.java:79 | two lists that are both ordered by `compareTo` and have the same per-score subsequences are equal |
| Ranking.StableSortCharacterized | src/main/java/com/example/springaimongodbvectordemo/controller/AIController.java:79 | a list is a stable sort of the input exactly when it equals `StableSort` of the input, so the choice of stable algorithm does not change the result |
| Ranking.SortedSplit | src/main/java/com/example/springaimongodbvectordemo/controller/AIController.java:79-83 | in a sorted list every result before a cut scores at least as high as every result after it |
| Ranking.InsertInto | src/main/java/com/example/springaimongodbvectordemo/controller/AIController.java:79 | one pass of the in-place sort inserts element i stably into the sorted prefix and leaves the rest of the array unchanged |
| Ranking.Sort | src/main/java/com/example/springaimongodbvectordemo/controller/AIController.java:79 | `Collections.sort` in place: the array ends up holding `StableSort` of its old contents |
| Retrieval.Scored | src/main/java/com/example/springaimongodbvectordemo/controller/AIController.java:63-76 | one result per stored document, in scan order, carrying that document's content and its score against the query vector |
| Retrieval.Collect | src/main/java/com/example/springaimongodbvectordemo/controller/AIController.java:63-76 | the scan succeeds exactly when no embedding is shorter than the query vector, and then returns `Scored`. Otherwise it fails with the fault of the first such document in scan order |
| Retrieval.Search | src/main/java/com/example/springaimongodbvectordemo/controller/AIController.java:63-85 | search succeeds exactly when every document can be scored. Its reply is the first two entries of the stable sort of the scan, joined. Otherwise it fails with the first document's fault |
| Retrieval.TopKLaw | src/main/java/com/example/springaimongodbvectordemo/controller/AIController.java:79-83 | the kept results number `min(k, n)` and are drawn from the collected ones. Every kept score is at least every score left out |
| Retrieval.JoinSnoc | src/main/java/com/example/springaimongodbvectordemo/controller/AIController.java:85 | joining one more part appends the separator and that part |
| Retrieval.JoinEnds | src/main/java/com/example/springaimongodbvectordemo/controller/AIController.java:85 | a non-empty join starts with its first part and ends with its last, so there is no leading or trailing separator |
| Retrieval.ReplyShape | src/main/java/com/example/springaimongodbvectordemo/controller/AIController.java:82-85 | the reply is `""` for no results, the single entry for one, and the first two entries separated by `", "` otherwise |
| Retrieval.UnitVectorExample | src/main/java/com/example/springaimongodbvectordemo/controller/AIController.java:63-85 | query [1, 0] against [1, 0], [0, 1] and [-1, 0] ranks them in that order with scores 1, 0 and -1, and replies with the first two |
| Retrieval.TieExample | src/main/java/com/example/springaimongodbvectordemo/controller/AIController.java:79 | two documents with equal scores stay in scan order after the sort |

## Left out

- The MongoDB client, collection lookup, cursor iteration and the cast of
  the `embedding` field (AIController.java:55-57, 64-68): these are I/O.
  The model takes the scanned documents as a sequence. A missing
  `embedding` or `content` field (a `NullPointerException` or a null
  content) is not modelled.
- `OpenAIEmbeddingService.generateQueryVector`: a REST call and JSON
  unpacking. The query vector is a parameter, and provider failures are
  not modelled.
- `load()`, `TokenTextSplitter`, `VectorStore.add` and `AppConfig`: file
  reading, a library text splitter and bean wiring. The repository holds
  no chunking or ingestion logic of its own.
- The HTTP surface: routes, the default `message` and the
  `System.out.println` logging.
- Similarity.CosineSimilarity: every floating-point operation of the loop
  is exact in the model. That covers each product `vectorA[i] * vectorB[i]`,
  each `Math.pow(x, 2)` and each `+=` into `dotProduct`, `normA` and
  `normB`. `Math.sqrt` and the final division are left to the `quotient`
  parameter, so the model does not state the score's value. So `Dot`,
  `SumSquares`, `DotSelf`, `SumsAgree` and `CauchySchwarz` are facts about
  exact real sums. The program's rounded accumulators need not obey them:
  with rounding, the computed `dotProduct * dotProduct` can exceed
  `normA * normB`. A zero norm gives NaN in the code, and `Double.compare`
  would put that result first. The model does not capture this.
- Ranking.DoubleCompare: IEEE details of `Double.compare`, such as NaN
  and the ordering of -0.0 before 0.0, are not modelled, because scores
  are reals.
- `Double.toString`: the text of a score is the `show` parameter.
- Ranking.Sort: the library runs TimSort, which is binary insertion sort
  below 32 elements and merged runs above. The model runs plain insertion
  sort. `StableSortCharacterized` proves that every stable sort by the
  comparator gives the same list, so only the running time differs.
