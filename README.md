# Word-count pipeline and album service, modelled in Dafny

This project models two small Go programs:

- **The word-count pipeline** in `HW4/mapreduce-lab`. It has three HTTP request handlers. They talk to each other only through objects in a store, and each object is addressed by a bucket and a key.
  - **Splitter (`/split`).** Cuts a text object into contiguous line chunks and writes each chunk as its own object.
  - **Mapper (`/map`).** Lowercases one object and counts the maximal runs of `[A-Za-z0-9']`. It writes the count map.
  - **Reducer (`/reduce`).** Reads several count maps from one bucket, adds them key by key and writes a single final map.
  - **Locator codec (`parseS3URL` / `s3URL`, module `Locator`).** All three services share it through identical copies. The model has it once.
- **The album service** in `HW2/docker-gs-ping-main`. It is an in-memory table of albums with three handlers:
  - a listing;
  - a linear lookup by id;
  - a post that checks the fields, refuses a taken id and appends.

## Modules

| module | file | contents |
|---|---|---|
| `Wrappers` | wrappers.dfy | `Option`, `Result` and `Outcome`, for the error returns |
| `Tally` | tally.dfy | the word-count map type and its zero-default lookup |
| `Strings` | strings.dfy | `strings.Index`/`LastIndex`; `strings.Split`/`Join` on `"\n"`; `strconv.Atoi` on unbounded integers; `%02d` |
| `Locator` | locator.dfy | `parseS3URL` and `s3URL` |
| `Store`, `Http` | store.dfy | the object store and the handlers' error responses (status and text) |
| `Splitter` | splitter.dfy | the `/split` handler and `sanitizeBaseName` |
| `Mapper` | mapper.dfy | the tokenizer, the counting loop, `sanitizeKey` and the `/map` handler |
| `Sorting` | sorting.dfy | Go string order and `sort.Strings` |
| `Reducer` | reducer.dfy | the merge loop, `orderKeys` and the `/reduce` handler |
| `Albums` | albums.dfy | the album table and its handlers |

### The object store

The store is a class `Store.ObjectStore`:

- `objects` is a map from `Ref(bucket, key)` to contents.
- `faulty` is a fixed set of addresses where every get and put fails. All failure paths can therefore be followed deterministically.

### Helpers and parameters

- `Store.Fetch` is the pure meaning of a get.
- The JSON encoder and decoder are function parameters.
- The timestamp is a string parameter.
- The splitter's chunk naming takes the sanitized base name as a parameter, as the handler computes `baseName` once before its loop.

### The handlers as methods

Each handler is a module-level method (`Splitter.Split`, `Mapper.Map`, `Reducer.Reduce`) that takes the object store as a parameter, as the Go handlers are closures over the one S3 client that `main` creates. Its `ensures` gives the complete response and the new store contents in terms of specification functions:

- `Splitter.ChunkWrites`, `Splitter.FirstFault`, `Splitter.ApplyWrites`;
- `Mapper.WordCounts`;
- `Reducer.ReadAll`, `Reducer.MergeAll`.

Lemmas then prove what the code promises about those functions.

### Behaviour of the code worth knowing

The model follows the code in each case; these are consequences a reader of the handlers might not expect.

- **Chunk count.** The splitter can write fewer than `n` chunks even when there are at least `n` lines. With 4 lines and `n = 3` the chunk size is 2 and only 2 chunks are written (`Splitter.FewerChunksWithEnoughLines`). "Fewer chunks exactly when there are fewer lines than `n`" is therefore false.
- **Trailing newline.** A trailing newline stays in the last chunk: `a\nb\nc\n` in two chunks gives `a\nb` and `c\n` (`Splitter.TrailingNewlineKept`).
- **Empty chunk text.** A chunk's text can be empty even though its line range is not: `a\nb\n` in three chunks gives `a`, `b` and `""` (`Splitter.EmptyChunkText`).
- **`orderKeys` and sorting.** `orderKeys` returns a Go map, so on contents it is the identity (`Reducer.OrderKeys`). Only its internal key slice is sorted. The sorted key order of the written JSON comes from the encoder.
- **Bucket mismatch.** The reducer finds an input in another bucket only when its loop reaches that input. Earlier inputs have already been read by then. The response is the first failure in input order (`Reducer.ReadAllMeaning`).

## Model

| member | source | states |
|---|---|---|
| Locator.Parse | HW4/mapreduce-lab/splitter/main.go:24-34 | the parse refuses with the scheme error exactly when the text lacks `s3://`; a success gives a well-formed reference (non-empty bucket without `/`, non-empty key) whose formatting is the input text |
| Locator.ParseFormat | HW4/mapreduce-lab/splitter/main.go:24-38 | formatting a well-formed reference and parsing the text back gives the same reference |
| Locator.ParseSucceedsIff | HW4/mapreduce-lab/mapper/main.go:26-40 | parsing succeeds exactly on texts `s3://b/k` with `b` non-empty and free of `/` and `k` non-empty |
| Locator.FormatInjective | HW4/mapreduce-lab/reducer/main.go:37-39 | different well-formed references format to different texts |
| Store.Fetch | HW4/mapreduce-lab/splitter/main.go:81-88 | a get of a failing address is "unavailable", of a missing one "not found", and otherwise returns the stored contents |
| Store.ObjectStore.Get | HW4/mapreduce-lab/splitter/main.go:81-88 | a get succeeds exactly on a stored, non-faulty address and returns its contents; a missing address gives not-found |
| Store.ObjectStore.Put | HW4/mapreduce-lab/splitter/main.go:121-129 | a put fails on a faulty address and leaves the store unchanged, otherwise it stores the body at the address and changes nothing else |
| Strings.IndexOf | HW4/mapreduce-lab/splitter/main.go:29 | the first `/` (or line feed): none exactly when the character does not occur, otherwise a position holding it with none before it |
| Strings.LastIndexOf | HW4/mapreduce-lab/splitter/main.go:154-156 | the last `/`: none exactly when the character does not occur, otherwise a position holding it with none after it |
| Strings.SplitLines | HW4/mapreduce-lab/splitter/main.go:101 | splitting on line feeds gives at least one piece, and no piece holds a line feed |
| Strings.JoinSplitLines | HW4/mapreduce-lab/splitter/main.go:101-118 | joining the pieces of a split with line feeds gives the text back |
| Strings.SplitJoinLines | HW4/mapreduce-lab/splitter/main.go:101-118 | splitting a join of pieces free of line feeds gives the pieces back |
| Strings.SplitLinesCount | HW4/mapreduce-lab/splitter/main.go:101 | the number of pieces is the number of line feeds plus one |
| Strings.JoinLines | HW4/mapreduce-lab/splitter/main.go:118 | joining no pieces gives the empty text; otherwise the text starts with the first piece |
| Strings.Atoi | HW4/mapreduce-lab/splitter/main.go:67 | accepts exactly an optional `+` or `-` followed by one or more decimal digits, and reads them as that value, negated after `-` |
| Strings.AtoiDecimalString | HW4/mapreduce-lab/splitter/main.go:67 | `Atoi` reads a decimal numeral back as its value |
| Strings.ZeroPad2 | HW4/mapreduce-lab/splitter/main.go:120 | at least two decimal digits, with a leading `0` for numbers below 10 |
| Strings.ZeroPad2Injective | HW4/mapreduce-lab/splitter/main.go:120 | `%02d` gives different texts for different indices |
| Strings.ZeroPad2Length | HW4/mapreduce-lab/splitter/main.go:120 | `%02d` of an index below 100 is exactly two digits |
| Splitter.ParseChunkCount | HW4/mapreduce-lab/splitter/main.go:65-73 | an absent count gives 3; a present one must be an integer in 1..50 and is that integer; anything else is refused with 400 "invalid chunks (1..50)", and only then |
| Splitter.ParseChunkCountDecimal | HW4/mapreduce-lab/splitter/main.go:65-73 | every count 1..50 written in decimal is accepted as itself |
| Splitter.ParseChunkCountOutOfRange | HW4/mapreduce-lab/splitter/main.go:68-70 | 0 and every count above 50 are refused with 400 |
| Splitter.CheckRequest | HW4/mapreduce-lab/splitter/main.go:60-79 | the request passes exactly when the locator is present, the count is valid and the locator parses; a missing locator gives 400 "missing ?s3=..." first, then a bad count gives "invalid chunks (1..50)", then the locator's parse error; every refusal is a 400 |
| Splitter.ChunkSizeIsCeiling | HW4/mapreduce-lab/splitter/main.go:102 | `(L + n - 1) / n` is the ceiling of L/n, at least 1 |
| Splitter.ChunkEmitted | HW4/mapreduce-lab/splitter/main.go:109-113 | chunk i is written exactly when its start offset is below L, i.e. for i below the chunk count |
| Splitter.ChunkCountBounds | HW4/mapreduce-lab/splitter/main.go:109-113 | between 1 and n chunks are written |
| Splitter.FewerLinesThanChunks | HW4/mapreduce-lab/splitter/main.go:102-113 | with fewer lines than n, every chunk is one line and there are L chunks |
| Splitter.FewerChunksWithEnoughLines | HW4/mapreduce-lab/splitter/main.go:102-113 | 4 lines into 3 chunks gives size 2 and only 2 chunks |
| Splitter.ChunkRange | HW4/mapreduce-lab/splitter/main.go:110-117 | every written chunk covers a non-empty range of lines inside the text |
| Splitter.ChunksAdjacent | HW4/mapreduce-lab/splitter/main.go:110-117 | each chunk starts where the previous one ends |
| Splitter.LastChunkEnd | HW4/mapreduce-lab/splitter/main.go:114-117 | the last chunk ends at the last line |
| Splitter.ChunksReassemble | HW4/mapreduce-lab/splitter/main.go:101-118 | the chunk texts joined in order with line feeds give all the lines joined |
| Splitter.TrailingNewlineKept | HW4/mapreduce-lab/splitter/main.go:101-118 | `a\nb\nc\n` in two chunks gives `a\nb` and `c\n`: the trailing line feed stays in the last chunk |
| Splitter.EmptyChunkText | HW4/mapreduce-lab/splitter/main.go:101-118 | `a\nb\n` in three chunks gives `a`, `b` and an empty last text |
| Splitter.LastSegment | HW4/mapreduce-lab/splitter/main.go:153-156 | the part after the last `/`: it has no `/` and is a suffix of the key; it is the whole key when the key has no `/`, and otherwise a `/` directly precedes it |
| Splitter.TrimTxt | HW4/mapreduce-lab/splitter/main.go:157 | a name ending in `.txt` loses exactly that suffix; any other name is kept |
| Splitter.CleanBaseName | HW4/mapreduce-lab/splitter/main.go:158-163 | same length; each character stays if it is in `[A-Za-z0-9_-]` and becomes `_` otherwise |
| Splitter.SanitizeBaseName | HW4/mapreduce-lab/splitter/main.go:151-168 | never empty, only `[A-Za-z0-9_-]`; "input" when nothing is left after the last `/` and `.txt`; otherwise that remainder character by character with others replaced by `_` |
| Splitter.SanitizeBaseNameKeepsClean | HW4/mapreduce-lab/splitter/main.go:151-168 | a name already made of allowed characters is returned as it is |
| Splitter.SanitizeBaseNameIdempotent | HW4/mapreduce-lab/splitter/main.go:151-168 | sanitizing twice is sanitizing once |
| Splitter.ChunkKeyInjective | HW4/mapreduce-lab/splitter/main.go:120 | `prefix/base_ts_chunkNN.txt` keys of different indices below 100 differ |
| Splitter.ChunkKeyShape | HW4/mapreduce-lab/splitter/main.go:120 | a chunk key is the output prefix, `/`, the base name, and ends in the two index digits and `.txt` |
| Splitter.LinesWritesSpec | HW4/mapreduce-lab/splitter/main.go:101-130 | for given lines the loop writes between 1 and n chunks, chunk i at `prefix/base_ts_chunkNN.txt` in the source bucket, and their texts joined with line feeds are the lines joined |
| Splitter.ChunkWritesSpec | HW4/mapreduce-lab/splitter/main.go:101-130 | a request writes between 1 and n chunks, chunk i at `prefix/base_ts_chunkNN.txt` in the source bucket, and the texts joined with line feeds are the source text |
| Splitter.ChunkTargetsDistinct | HW4/mapreduce-lab/splitter/main.go:120-125 | the chunks of one request go to pairwise different addresses |
| Splitter.SplitStoresEveryChunk | HW4/mapreduce-lab/splitter/main.go:121-125 | after all writes, every chunk's address holds that chunk's text |
| Splitter.ApplyWritesElsewhere | HW4/mapreduce-lab/splitter/main.go:121-129 | addresses that no chunk targets keep their contents |
| Splitter.FirstFault | HW4/mapreduce-lab/splitter/main.go:126-129 | the index of the first write that fails: all earlier ones succeed, and the one at the index fails |
| Splitter.UrlsAt | HW4/mapreduce-lab/splitter/main.go:130 | the i-th returned locator names the address of the i-th chunk write |
| Splitter.PutChunk | HW4/mapreduce-lab/splitter/main.go:110-130 | one pass of the loop: the range from `i*chunkSize` to `min((i+1)*chunkSize, L)`, the put of its text at the chunk key, and the locator |
| Splitter.WriteChunks | HW4/mapreduce-lab/splitter/main.go:108-131 | the store afterwards holds exactly the chunks before the first failing put; the result is all locators in write order, or 500 at a failure |
| Splitter.Split | HW4/mapreduce-lab/splitter/main.go:57-131 | the whole handler: each check's 400, the failed get's 500, 400 "input file empty" with nothing written, otherwise the chunk writes up to the first failure and the locators in order |
| Mapper.Lower | HW4/mapreduce-lab/mapper/main.go:82 | same length, each character lowercased (ASCII) |
| Mapper.LowerIdempotent | HW4/mapreduce-lab/mapper/main.go:82 | a lowercased text has no capitals, and lowercasing again changes nothing |
| Mapper.LowerChanges | HW4/mapreduce-lab/mapper/main.go:82 | a character changes exactly when it is a capital, which moves up by 32 |
| Mapper.RunLength | HW4/mapreduce-lab/mapper/main.go:24 | the maximal run of `[A-Za-z0-9']` at the front: all inside, the next character outside |
| Mapper.Tokens | HW4/mapreduce-lab/mapper/main.go:24 | every token is a non-empty run of `[A-Za-z0-9']` |
| Mapper.TokensWord | HW4/mapreduce-lab/mapper/main.go:24 | a text that is one run is one token |
| Mapper.TokensSeparator | HW4/mapreduce-lab/mapper/main.go:85 | a character outside the class splits the tokens: the tokens of `a c b` are those of `a` followed by those of `b` |
| Mapper.TokensCoverWordChars | HW4/mapreduce-lab/mapper/main.go:85 | the tokens concatenated are exactly the text's `[A-Za-z0-9']` characters in order: none is dropped or added |
| Mapper.TokensOfSeparatedWords | HW4/mapreduce-lab/mapper/main.go:24-85 | the runs are maximal: words separated by characters outside the class come back as exactly those words, none split and none merged |
| Mapper.TokensNoUpper | HW4/mapreduce-lab/mapper/main.go:82-85 | the tokens of a lowercased text are lowercase |
| Mapper.CountTokens | HW4/mapreduce-lab/mapper/main.go:84-87 | the counting loop builds the count map of the token sequence |
| Mapper.CountMapMeaning | HW4/mapreduce-lab/mapper/main.go:84-87 | a token is a key exactly when it occurs, and its count is its number of occurrences, at least 1 |
| Mapper.TotalCounts | HW4/mapreduce-lab/mapper/main.go:84-87 | the counts add up to the number of tokens |
| Mapper.WordCounts | HW4/mapreduce-lab/mapper/main.go:82-87 | every key of the count map is a non-empty token without capitals and counts at least 1 |
| Mapper.WordCountsIgnoreCase | HW4/mapreduce-lab/mapper/main.go:82 | a text and its lowercased form give the same map |
| Mapper.WordCountsOfNoWords | HW4/mapreduce-lab/mapper/main.go:80-87 | a text without token characters, the empty text included, gives the empty map |
| Mapper.ReplaceAll | HW4/mapreduce-lab/mapper/main.go:124-125 | same length, every occurrence of the character replaced and nothing else |
| Mapper.SanitizeKey | HW4/mapreduce-lab/mapper/main.go:122-130 | no `/` or `.`, at most 60 long; a key of at most 60 only has the replacements, a longer one keeps the last 60 of the replaced key |
| Mapper.SanitizeKeyChars | HW4/mapreduce-lab/mapper/main.go:124-128 | each result character is the matching key character, or `_` where that was `/` or `.` |
| Mapper.SanitizeKeyIdempotent | HW4/mapreduce-lab/mapper/main.go:122-130 | sanitizing twice is sanitizing once |
| Mapper.OutputKeyShape | HW4/mapreduce-lab/mapper/main.go:90 | an output key is the output prefix, `/`, the sanitized input key, and ends in `.json` |
| Mapper.OutputRef | HW4/mapreduce-lab/mapper/main.go:90-97 | the output goes to the input's bucket, and a well-formed input gives a well-formed output address |
| Mapper.CheckRequest | HW4/mapreduce-lab/mapper/main.go:61-71 | passes exactly when the locator is present and parses; a missing one gives 400 "missing ?s3=..."; every refusal is a 400 |
| Mapper.Map | HW4/mapreduce-lab/mapper/main.go:59-103 | the whole handler: 400 before any read on a bad request, 500 on a failed get or put with the store unchanged, otherwise the encoded counts of the text at `prefix/sanitizeKey(key)_ts.json` and its locator |
| Sorting.LexLess | HW4/mapreduce-lab/reducer/main.go:143 | Go's string order never puts a string below itself and puts a proper prefix first |
| Sorting.LexLessTransitive | HW4/mapreduce-lab/reducer/main.go:143 | Go's string order is transitive |
| Sorting.LexLessTotal | HW4/mapreduce-lab/reducer/main.go:143 | of two different strings exactly one is below the other |
| Sorting.SortStrings | HW4/mapreduce-lab/reducer/main.go:143 | sorting is a permutation |
| Sorting.SortStringsSorted | HW4/mapreduce-lab/reducer/main.go:143 | the result is in ascending order |
| Sorting.SortDistinct | HW4/mapreduce-lab/reducer/main.go:139-143 | sorting pairwise different strings gives a strictly ascending sequence |
| Reducer.AddCounts | HW4/mapreduce-lab/reducer/main.go:99-101 | the keys of a sum are the union of the keys |
| Reducer.AddCountsCommutative | HW4/mapreduce-lab/reducer/main.go:99-101 | adding count maps does not depend on the order of the two |
| Reducer.AddCountsAssociative | HW4/mapreduce-lab/reducer/main.go:99-101 | adding count maps does not depend on grouping |
| Reducer.AddCountsIdentity | HW4/mapreduce-lab/reducer/main.go:73-101 | the empty map that `final` starts as adds nothing |
| Reducer.MergeInto | HW4/mapreduce-lab/reducer/main.go:99-101 | the `final[k] += v` loop over a part adds the part to the running map |
| Reducer.MergeAllMeaning | HW4/mapreduce-lab/reducer/main.go:73-102 | a key is in the merge exactly when some input has it, and its value is the sum over all inputs, a missing key counting 0 |
| Reducer.MergeAllAppend | HW4/mapreduce-lab/reducer/main.go:73-102 | merging two lists of inputs one after the other is adding their merges |
| Reducer.MergeNested | HW4/mapreduce-lab/reducer/main.go:73-102 | merging [A, B] and then C is merging [A, B, C] |
| Reducer.MergeAllPermutation | HW4/mapreduce-lab/reducer/main.go:73-102 | permuting the inputs gives the same merge |
| Reducer.MergeTwice | HW4/mapreduce-lab/reducer/main.go:74-101 | an input given twice is counted twice |
| Reducer.CollectKeys | HW4/mapreduce-lab/reducer/main.go:139-142 | the key slice holds every key of the map once |
| Reducer.Refill | HW4/mapreduce-lab/reducer/main.go:144-147 | refilling from a slice holding every key gives back the map |
| Reducer.OrderKeys | HW4/mapreduce-lab/reducer/main.go:138-149 | the result has exactly the keys and values of the input; the key slice is strictly ascending and holds exactly the keys |
| Reducer.ReadInput | HW4/mapreduce-lab/reducer/main.go:75-98 | one input: 400 with the parse error, 400 for another bucket, 500 exactly when the get fails, 400 "bad json in <input>: ..." on a decode failure, otherwise the decoded map |
| Reducer.ReadAllMeaning | HW4/mapreduce-lab/reducer/main.go:74-102 | reading all inputs succeeds exactly when each does, with the maps in input order; otherwise the error is that of the first failing input |
| Reducer.ReadPart | HW4/mapreduce-lab/reducer/main.go:75-98 | the steps for one input on the store compute the meaning of one read |
| Reducer.ReadAndMerge | HW4/mapreduce-lab/reducer/main.go:73-102 | the loop stops at the first failing input with its error, otherwise it returns the merge of all inputs |
| Reducer.FinalKeyShape | HW4/mapreduce-lab/reducer/main.go:105 | the final key is the output prefix, `/final_`, the timestamp and `.json` |
| Reducer.FinalLocator | HW4/mapreduce-lab/reducer/main.go:105-118 | `prefix/final_ts.json` in the first input's bucket is a well-formed address whose locator parses back to it |
| Reducer.Reduce | HW4/mapreduce-lab/reducer/main.go:58-120 | the whole handler. No inputs or a first input that does not parse: 400. Any failing input: its error. A failed put: 500. In each of these the store is unchanged. Otherwise one object holding the encoded merge at `prefix/final_ts.json`, and `files` is the number of inputs |
| Albums.SeedValid | HW2/docker-gs-ping-main/main.go:18-22 | the seed table has pairwise different ids and passes the field checks |
| Albums.FindById | HW2/docker-gs-ping-main/main.go:77-84 | a found album carries the id and is one of the table's |
| Albums.FindByIdFirst | HW2/docker-gs-ping-main/main.go:77-82 | the lookup returns the album at the first place with the id |
| Albums.FindByIdNone | HW2/docker-gs-ping-main/main.go:77-84 | the lookup finds nothing exactly when no album has the id |
| Albums.FindByIdFound | HW2/docker-gs-ping-main/main.go:77-82 | a found album has the id and no earlier album has it |
| Albums.FindEachAlbum | HW2/docker-gs-ping-main/main.go:77-81 | with unique ids, looking up any album's id finds that album |
| Albums.PostKeepsUniqueIds | HW2/docker-gs-ping-main/main.go:62-69 | a post keeps the ids pairwise different |
| Albums.Post | HW2/docker-gs-ping-main/main.go:44-71 | 201 and an append exactly when the fields pass and the id is new; the table grows by one with its earlier entries untouched; otherwise the table is unchanged with 400 or 409, and 409 exactly for a taken id |
| Albums.PostThenFind | HW2/docker-gs-ping-main/main.go:69-81 | after a successful post of `a`, looking up its id gives `a`, and other lookups are unchanged |
| Albums.FindByIdAppend | HW2/docker-gs-ping-main/main.go:69-82 | appending an album with another id does not change a lookup |
| Albums.AlbumStore.constructor | HW2/docker-gs-ping-main/main.go:18-22 | the table starts as the seed and satisfies its invariant |
| Albums.AlbumStore.GetAlbums | HW2/docker-gs-ping-main/main.go:39-41 | 200 with the whole table |
| Albums.AlbumStore.GetAlbumByID | HW2/docker-gs-ping-main/main.go:74-85 | the scan returns the first album with the id and 200, or nothing and 404 exactly when no album has it; the table is not changed |
| Albums.AlbumStore.PostAlbum | HW2/docker-gs-ping-main/main.go:44-71 | the handler's answer and new table are those of the post function, and unique ids are preserved |
| Albums.SeedLookups | HW2/docker-gs-ping-main/main_test.go:51-80 | on the seed, id "2" finds the Jeru album and id "999" finds nothing |
| Albums.SeedPosts | HW2/docker-gs-ping-main/main_test.go:82-132 | on the seed, posting a new album "4" gives 201 and four albums, and posting id "1" again gives 409 |

## Left out

- **AWS SDK.** The client, its configuration, `GetObject` and `PutObject` are replaced by `Store.ObjectStore`. Which addresses fail is a fixed set, and the SDK's error texts are two fixed words.
- **HTTP and process plumbing.** The server, routing, the health handlers, `main`, `getenv` and logging are external plumbing with no logic of the core.
- **JSON.** `json.Marshal`, `MarshalIndent`, `Unmarshal` and the response encoders are function parameters or not modelled. The key order of the written JSON comes from the encoder and is outside the model.
- **Timestamps.** `time.Now` and its formatting are replaced by a timestamp string parameter.
- **Regular expressions.** The `regexp` engine is not modelled; the token grammar `[A-Za-z0-9']+` is written out directly.
- **Reading objects.** `buf.ReadFrom` is taken to return the whole object. Its ignored results are not modelled.
- **Concurrency.** Concurrent requests are not modelled, because every handler is sequential.
- **Other files.** `HW4/mapreduce-lab/verify_json.py` and `plot_times.py` are checking and plotting scripts, and the HW3 files are not part of this model. `main_test.go` serves only as evidence for `Albums.SeedLookups` and `Albums.SeedPosts`.
- Mapper.Lower: is ASCII lowercasing, while Go's `strings.ToLower` is Unicode-aware. Non-ASCII case folding, such as the Kelvin sign becoming `k`, is not modelled.
- Mapper.SanitizeKey: works on characters, while Go's `len` and slicing work on bytes, so a key with multi-byte UTF-8 characters can be cut differently.
- Strings.Atoi: works on unbounded integers. A value outside Go's 64-bit `int` range is an error in Go and out of 1..50 here, so both give the same 400.
- Mapper.CountTokens: counts on unbounded integers; Go's `int` overflow is not modelled.
- Reducer.MergeInto: sums on unbounded integers, so Go's `int` overflow is not modelled. It visits the part's keys in an unspecified order (`:|`), standing in for Go's map iteration order; the result does not depend on it.
- Reducer.CollectKeys: visits the map's keys in an unspecified order for the same reason.
- Sorting.SortStrings: is a functional insertion sort on a sequence, not the in-place `sort.Strings` on a slice. The in-place update of the slice is not modelled. Strings are compared character by character, which agrees with Go's byte order for UTF-8 text.
- **Album JSON binding.** gin and `BindJSON` are reduced to an `Option<Album>` parameter: `None` stands for a body that does not bind.
- **Album price.** The price is a `real`, used only in the check `price > 0`.
- **Album response bodies.** `IndentedJSON` bodies, including the 404 message "album not found", are not modelled. The handlers return status and value.
- Albums.AlbumStore.PostAlbum: promises the unique-id invariant only for a table that already had it, as the code does.
