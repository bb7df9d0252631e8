# Verified model of redis-vl-golang

This project models the parts of redis-vl-golang that compute something on their own, and proves what
they are for. It covers the vector number formats and buffers, the filter language, index schemas and
their two serialisations, the embeddings cache, semantic routing, ULIDs, the batching, pooling and
reranking around a local model, the model file cache and the JWKS key source.

`dafny verify dfyconfig.toml` checks everything. There is one module per source file or concern:

| module | what it models |
|---|---|
| Words, Rounding, FloatFormats | machine words; round to nearest, ties to even, on any increasing grid of magnitudes; the exact integer value of every float32, half and bfloat16 pattern (IEEE 754-2019, sections 3.4 and 4.3.1) |
| Narrowing, NarrowingTheorems, Buffers | the conversions of `vectors/vectors.go` and its byte buffers |
| Escaper, Filter, FilterParser | the filter expressions, their printer, and a parser that specifies what a query string says |
| Fields, SchemaArgs, SchemaReader | fields, their validation, the FT.CREATE arguments, and a reader of those arguments |
| Schema, RawSchema | the schema object with its map and order list, and the raw map form |
| Cache, CachedVectorizer | the embeddings cache under interference, and the cache-aside vectorizer |
| Router, RouterRange | routing by range search, grouping, reduction, sorting and filtering; what the range limit loses |
| Ulid | ULID packing |
| Tokenize, Pooling, CrossEncoder | batches, pooling and reranking |
| Hub, RepoPath | the download cache as interleaved file-system steps, and path validation |
| KeySource | the JWKS key source as a timed state machine |
| Common | results, options, letter case |

Where code works by changing state it is a method or a class whose contract ties the new state to a
specification function; the lemmas are about that function. Float patterns are integers. Every finite
float32 is a whole multiple of 2^-149, so values are exact integers in that unit, and shifts and masks
are divisions and remainders by powers of two.

Some properties hold only under a condition. Each has a lemma with the exact condition or with the
inputs that break it:

- A `|` in a tag value is not escaped, so it splits the value (`FilterParser.TagValuesKeptIff`).
- Rendering `* | x` as `x` narrows the filter. If no Or has a single match-all operand, rendering keeps the
  meaning. When no leaf text occurs twice, that condition is exact (`Filter.RenderingKeepsTextMeaningIff`);
  with repeated leaves such an Or may do no harm (`Filter.RepeatedTextKeepsMeaning`).
- The schema arguments are read back exactly when no field would take the name or path that the next one
  starts with for one of its own modifiers (`SchemaReader.SchemaRead`), as in
  `SchemaReader.ModifierNamesCollide`. It does exactly when some field prints the same arguments and then
  some of the next one's (`SchemaReader.TakesIff`).
- A raw schema that has not been through YAML is accepted exactly when it has one prefix
  (`RawSchema.DirectRoundTripIff`).
- Models may share an embeddings cache exactly when no name ends in a colon and another's name
  (`Cache.SharingSafeIff`).
- Files of two repositories share a local path exactly when one model name goes on with the first
  segments of the other's file name (`Hub.SharedLocalIff`). The download cache holds each file's own
  content, whatever the hub serves, exactly when no two requested files share a path (`Hub.OwnContentIff`).
- A cached path is recognised by its size alone, so the directory `onnx` is returned as the file `onnx`
  once `onnx/model.onnx` has been downloaded (`Hub.DirectoryReturned`). Without names shaped like temporary
  files, every returned path is one of a complete file, whatever the hub serves, exactly when no requested
  path is a directory on the way to another (`Hub.ReturnsCompleteIff`). Every returned path is one of the
  file's own content exactly when moreover no two requested files share a path and no requested name is
  shaped like a temporary file (`Hub.ReturnsOwnIff`).
- The comment that a partial download never masquerades as a cached file holds, whatever the hub serves,
  exactly when no requested name is shaped like a temporary file (`Hub.AlwaysCompleteIff`).
- The five-minute bound on JWKS fetches starts at the first success (`KeySource.FetchesUntilSuccess`).
- Limiting the vector search to the greatest threshold loses nothing with Min. With Avg, the default, it
  loses nothing exactly when no route has one reference strictly below that radius and one beyond it, and
  with Sum exactly when no route has one beyond it and others within it that add up to less
  (`RouterRange.AverageLosesNothingIff`, `RouterRange.SumLosesNothingIff`).
- Since only maxK groups are kept before the filter, a passing route is sure to be returned exactly when
  fewer than maxK others are as near (`Router.SureMatchIff`).

## Model

| member | source | states |
|---|---|---|
| Rounding.RoundsToNearest | vectors/vectors.go:178-202 | no grid value is nearer than the one rounded to, and an equally near one loses only to an even code |
| Rounding.RoundingMonotone | vectors/vectors.go:160-203 | rounding preserves order |
| Rounding.InfiniteIff | vectors/vectors.go:173-202 | infinity results exactly from the midpoint after the largest finite value on |
| Rounding.RoundingUnique | vectors/vectors.go:160-203 | the rounded code is determined, so any code that satisfies the neighbour conditions is the reference result |
| Narrowing.Float32ToFloat16 | vectors/vectors.go:160-203 | the branches with their shifts, masks and carry compute the reference rounding of the exact value, or the quiet NaN |
| Narrowing.Float32ToBFloat16 | vectors/vectors.go:144-151 | adding 0x7fff and the last kept bit computes the reference rounding; a NaN is made quiet |
| Narrowing.BFloatBranch | vectors/vectors.go:149-150 | on every pattern but NaNs the sum fits 32 bits, and its upper half is the nearest-even rounding, through carries up to infinity |
| Narrowing.Float16ToFloat32 | vectors/vectors.go:206-228 | the normalising loop ends and gives the pattern of the reference widening |
| Narrowing.WideningExact | vectors/vectors.go:206-228 | widening keeps the sign and the exact value of zeros, subnormals and normals, and infinities |
| NarrowingTheorems.HalfNearestEven | vectors/vectors.go:160-203 | the narrowed half keeps the sign and is at least as near as every other finite half, with an even significand on ties |
| NarrowingTheorems.HalfOverflow | vectors/vectors.go:166-203 | infinity results exactly when the magnitude is at least 65520 |
| NarrowingTheorems.HalfMonotone | vectors/vectors.go:160-203 | greater values narrow to halves at least as great |
| NarrowingTheorems.HalfRoundTrip | vectors/vectors.go:160-228 | narrowing undoes widening on every half that is not a NaN, and keeps sign and NaN-ness on NaNs |
| NarrowingTheorems.BFloatNearestEven | vectors/vectors.go:144-151 | the narrowed bfloat16 keeps the sign and is nearest, ties to even, against every finite bfloat16 |
| NarrowingTheorems.BFloatOverflow | vectors/vectors.go:144-151 | infinity results exactly from (2 - 2^-8) * 2^127 on |
| NarrowingTheorems.BFloatMonotone | vectors/vectors.go:144-151 | greater values narrow to bfloat16s at least as great |
| NarrowingTheorems.BFloatRoundTrip | vectors/vectors.go:144-156 | widening keeps the value and narrowing undoes it; a NaN only becomes quiet |
| NarrowingTheorems.NaNsStayNaNs | vectors/vectors.go:144-203 | a NaN narrows to a NaN of the same sign in both formats: one pattern in half, its upper half made quiet in bfloat16 |
| Common.LetterCase | vectors/vectors.go:29-29 | the 26 letters of ASCII change case into one another and its other characters do not |
| Buffers.ToBuffer | vectors/vectors.go:28-86 | a name that is in no case one of the six types is an error; otherwise the buffer has 2, 4, 8 or 1 bytes an element, which write, least significant first, the bfloat16, half or float32 that the element narrows to, its float64 pattern, or its integer |
| Buffers.FromBuffer | vectors/vectors.go:28-140 | such a name or a length that is no multiple of the element size is an error; otherwise element i is the number that the bytes at its place write, widened from the named type |
| Buffers.EncodeAppend | vectors/vectors.go:42-86 | encoding distributes over concatenation |
| Buffers.DecodeEncode | vectors/vectors.go:42-140 | decoding an encoding rounds each element and keeps number and order |
| Buffers.IntegersKept | vectors/vectors.go:42-140 | in-range integers come back unchanged from int8 and uint8 buffers |
| Buffers.EncodeDecode | vectors/vectors.go:42-140 | re-encoding a decoded buffer without NaNs gives back the same bytes |
| Escaper.UnescapeEscape | filter/escaper.go:7-23 | reading a backslash as standing for the next character undoes escaping, in both modes |
| Escaper.EscapesExactly | filter/escaper.go:5-23 | what no backslash precedes in the escaped value is exactly the value without the special characters, in order, and each of those gets one backslash; `*` and `?` are special only without wildcards |
| Filter.ErrIsFirstLeafError | filter/filter.go:42-58 | Err is nil exactly when no leaf carries an error, and else is the error of the leftmost one |
| Filter.AndAll | filter/filter.go:67-73 | the loop groups the operands to the left |
| Filter.OrAll | filter/filter.go:76-82 | the loop groups the operands to the left |
| Filter.FoldMeaning | filter/filter.go:67-82 | variadic And denotes the intersection of all operands and Or the union |
| Filter.FormatTagValues | filter/filter.go:125-134 | the loop keeps the non-empty values, escaped and joined by bars |
| FilterParser.EscapedValuesKeep | filter/filter.go:125-134 | the values that are formatted are the non-empty ones, each escaped, in order, in both modes |
| Filter.RenderingNarrows | filter/filter.go:85-105 | whatever the leaves mean, a document that matches the rendered expression matches the tree |
| Filter.RenderingExact | filter/filter.go:85-105 | they match the same documents when no Or has exactly one match-all operand |
| Filter.OneSidedOrDiffers | filter/filter.go:91-98 | with such an Or some meaning of the leaf positions tells them apart |
| Filter.RenderingKeepsMeaningIff | filter/filter.go:85-105 | if each occurrence of a leaf may mean something of its own, rendering keeps every meaning exactly when there is no such Or |
| Filter.RenderingKeepsTextMeaningIff | filter/filter.go:85-105 | the same for meanings of the leaf text, as the server reads it, when no text occurs twice |
| Filter.RepeatedTextKeepsMeaning | filter/filter.go:85-105 | with a repeated text such an Or may leave the meaning as it is |
| FilterParser.ReadRendered | filter/filter.go:85-226 | the parser reads a rendered tree and stops exactly at its end, whatever follows; it renders as `*` exactly when everything in it is match-all |
| FilterParser.ParseRendered | filter/filter.go:85-226 | parsing the rendered string, in which no punctuation may stand bare in a tag value, gives the tree back with its match-all operands removed |
| FilterParser.RenderedApart | filter/filter.go:85-226 | only trees equal up to match-all operands render alike |
| FilterParser.TagValuesKeptIff | filter/filter.go:125-134 | the values read back are the non-empty values given exactly when none has a bar |
| FilterParser.BarIsNotEscaped | filter/escaper.go:7-7 | the value `a\|b` and the values `a` and `b` build the same filter |
| FilterParser.NumericMeaning | filter/filter.go:176-230 | what a numeric builder renders is a range query that holds of exactly the numbers that the builder is named for, with both, one or no end of Between included |
| FilterParser.TagMeaning | filter/filter.go:137-151 | without bars, what Eq and Ne render holds of exactly the tags given, or of exactly the others; with no value they match everything |
| FilterParser.NormalizedMeaning | filter/filter.go:85-105 | what the parsed query means is what the rendered tree means |
| FilterParser.RenderedQuerySound | filter/filter.go:85-105 | a document that satisfies the parsed query matches the tree as built, and conversely without one-sided Ors |
| Fields.VectorObject.Validate | schema/fields.go:123-173 | the error is the first of the eight constraints that the attributes violate as given; otherwise the object holds them with names in canonical case and the defaults float32 and COSINE, which validate again unchanged; on failure only names were normalized |
| Fields.FaultIsFirst | schema/fields.go:123-173 | checking the normalized attributes finds the first constraint that the attributes violate as given |
| Fields.ConstructorsConstruct | schema/fields.go:192-240 | each constructor makes a field with exactly the attributes of its type |
| Fields.ConstructorsKeep | schema/fields.go:192-240 | each constructor keeps the name and attributes it is given, but for blank weights, separators and vector names; a vector field is made exactly when its attributes are acceptable |
| SchemaArgs.RedisArgs | schema/fields.go:251-419 | the appending branches produce the canonical modifier list of the field, or the validation error |
| SchemaArgs.ReadPrint | schema/fields.go:251-419 | a list of optional modifiers is read back and the reader stops where it ends |
| SchemaReader.FieldRead | schema/fields.go:251-419 | every field is read back from its arguments, up to printed defaults and a path without a name, which prints as a name, whatever follows that does not begin with a modifier from which on the field has none; UNF is one only after SORTABLE, and only for text and numeric fields |
| SchemaReader.TakesIff | schema/fields.go:248-419 | a field takes the start of another for a modifier exactly when some field prints the arguments of the one and then some of the other's, so the condition does not depend on the reader |
| SchemaReader.SchemaRead | schema/schema.go:144-157 | the argument list of any schema is read back field by field in order exactly when no field would take the start of the next one for a modifier of its own |
| SchemaReader.ArgsApart | schema/schema.go:144-157 | a schema with the same arguments as one that is read back has the same fields up to printed defaults exactly when it is read back too |
| SchemaReader.ModifierNamesCollide | schema/fields.go:251-300 | an instance where it is not: a text field called PHONETIC after another makes two different schemas print alike |
| Schema.AddKeeps | schema/schema.go:84-106 | a successful add keeps names distinct, JSON fields with a path and hash fields without, and vector attributes validated |
| Schema.WithoutKeeps | schema/schema.go:109-120 | removal keeps all that, and exactly the other fields |
| Schema.WithoutAt | schema/schema.go:109-120 | removal cuts out the one field and keeps the relative order of the others |
| Schema.RemoveUndoesAdd | schema/schema.go:84-120 | removing the field just added gives back the fields as they were |
| Schema.EveryStateWellFormed | schema/schema.go:84-120 | after any sequence of additions and removals the schema is well formed |
| Schema.NewIndexSchema | schema/schema.go:37-81 | defaults, or their error, and then the fields one by one up to the first error |
| Schema.DefaultsAre | schema/schema.go:37-58 | the name is required and the storage type hash or json; blank prefixes, separator and storage type become rvl, a colon and hash, and nothing else changes |
| Schema.IndexSchema.AddField | schema/schema.go:84-106 | an unnamed, known or invalid field is an error that changes nothing; otherwise map and order list together gain the field at the end, with the path given or `$.` and its name for JSON, and none for hash |
| Schema.IndexSchema.RemoveField | schema/schema.go:109-120 | map and order list together lose the field, and an unknown name changes nothing |
| Schema.IndexSchema.FieldList | schema/schema.go:135-141 | the stored fields in the order of the order list |
| Schema.IndexSchema.SchemaArgs | schema/schema.go:144-157 | an empty schema is an error; otherwise the concatenated arguments of the fields, or the first field's error |
| RawSchema.FieldRoundTrip | schema/schema.go:242-465 | the raw form of a constructed field gives back every attribute of all five types |
| RawSchema.ToRaw | schema/schema.go:371-465 | the raw form of the schema's settings and fields in order, for any fields with the attributes of their type |
| RawSchema.FromRaw | schema/schema.go:201-240 | the schema that the raw form specifies, or its first error |
| RawSchema.ReadPrefixes | schema/schema.go:202-221 | the prefixes are one string, every value of a list, or none when absent; anything else is an error |
| RawSchema.ReadSettings | schema/schema.go:201-240 | a schema that is read has the raw settings, with defaults for blank ones and the storage type in lower case, and one field for each raw field in order, stored with its path |
| RawSchema.FieldFromRawReads | schema/schema.go:242-349 | an unknown type is an error; otherwise the attributes are those of the map, flags on only where it says true, with weight 1 and separator comma when absent, and integers as weights |
| RawSchema.VectorReads | schema/schema.go:293-345 | a vector field needs attributes, dims and an algorithm, and is then read exactly when its attributes are acceptable |
| RawSchema.NewSchemaConstructed | schema/schema.go:69-81 | what NewIndexSchema makes from constructed fields satisfies the round trip's condition |
| RawSchema.SchemaRoundTrip | schema/schema.go:201-465 | raw form, YAML and back give an equal schema: settings, field order, paths and attributes |
| RawSchema.DirectRoundTripIff | schema/schema.go:201-240 | without YAML the raw form is accepted exactly when there is one prefix |
| Cache.RunSound | extensions/cache/embeddings.go:98-254 | in every run of writes, expiry, drops and clears by any number of wrappers, what is found under a model's text is that model's embedding of it |
| Cache.AlwaysSoundIff | extensions/cache/embeddings.go:79-128 | that holds exactly when texts that share a key share the embedding |
| Cache.CollideIff | extensions/cache/embeddings.go:79-86 | texts of two models can share a key exactly when one name ends in a colon and the other |
| Cache.OneModelApart | extensions/cache/embeddings.go:79-86 | for one model different texts have different keys |
| Cache.RunKeyed | extensions/cache/embeddings.go:79-128 | in every run each record lies under the key of its own text and model, below the cache name that a clear scans for |
| Cache.SharingSafeIff | extensions/cache/embeddings.go:79-86 | sharing is safe for all vectorizers exactly when no name ends in a colon and another's name; names without colons are enough |
| Cache.FoundIsOwn | extensions/cache/embeddings.go:98-182 | with names apart, a record that is found has the text and model asked for and the embedding of that text |
| Cache.EmbeddingsCache.Set | extensions/cache/embeddings.go:98-128 | the record is put under its key, or nothing changes if the write did not land |
| Cache.EmbeddingsCache.MSet | extensions/cache/embeddings.go:132-157 | the store changes by exactly one put per landed item |
| Cache.EmbeddingsCache.Get | extensions/cache/embeddings.go:161-176 | the record under the key, nothing, or an error |
| Cache.EmbeddingsCache.MGet | extensions/cache/embeddings.go:180-215 | one entry per content in input order, each read from the store as it was at its own read |
| Cache.EmbeddingsCache.Drop | extensions/cache/embeddings.go:223-226 | the entry is gone and every other stays |
| Cache.EmbeddingsCache.Clear | extensions/cache/embeddings.go:237-254 | the scanned keys are deleted batch by batch, whatever others do before each deletion |
| Cache.ClearRemoves | extensions/cache/embeddings.go:237-254 | a key found after a clear was put by somebody else meanwhile, or was there before and in no scan |
| Cache.ClearAlone | extensions/cache/embeddings.go:237-254 | without interference exactly the scanned keys are gone |
| CachedVectorizer.CachedVectorizer.Embed | extensions/cache/cached_vectorizer.go:25-35 | the result is the inner vectorizer's whatever happens to the cache; it is asked exactly when the lookup found nothing, and only its error is an error; what it computes is written unless the write fails |
| CachedVectorizer.CachedVectorizer.EmbedMany | extensions/cache/cached_vectorizer.go:39-75 | all results are the inner vectorizer's in input order; it is asked once, with exactly the missed texts in order, and not at all without misses; every embedding it computes is written once unless its write fails |
| CachedVectorizer.MissingAre | extensions/cache/cached_vectorizer.go:39-55 | a text is missed exactly when the lookup failed, found no record or found one with an empty embedding |
| CachedVectorizer.ServeHits | extensions/cache/cached_vectorizer.go:42-55 | the first loop: hits go to their positions, and the misses are the other positions, ascending |
| CachedVectorizer.ServeMisses | extensions/cache/cached_vectorizer.go:69-73 | the third loop: each new embedding goes to its missed position and under its text |
| CachedVectorizer.Assembled | extensions/cache/cached_vectorizer.go:39-75 | hits and misses together make the inner vectorizer's whole answer |
| Router.SemanticRouter.UpdateRouteThresholds | extensions/router/router.go:189-195 | exactly the thresholds of the named routes change |
| Router.SemanticRouter.MaxThreshold | extensions/router/router.go:313-320 | the loop finds the least bound of zero and all thresholds |
| Router.SemanticRouter.ThresholdFilter | extensions/router/router.go:359-366 | the conditions together hold exactly for matches strictly below the threshold of a route of their name |
| Router.MatchesRespectThresholds | extensions/router/router.go:309-345 | for every aggregation each match is strictly below the threshold of a route of its name, matches ascend and name different routes, and there are at most maxK, or one if maxK is not positive |
| Router.MatchesComeFromGroups | extensions/router/router.go:336-346 | every match carries the reduced distance of its own route |
| Router.GroupsAre | extensions/router/router.go:336-342 | a route has a group exactly when it has a reference; its distance is the least of its references' with Min, their sum with Sum, and with Avg that sum divided by their number |
| RouterRange.OnlyBelowCounts | extensions/router/router.go:336-346 | only groups strictly below the greatest threshold decide the possible results |
| RouterRange.LosesNothingIff | extensions/router/router.go:309-346 | for every aggregation the limited search has the possible results of a full one, for all routes with that greatest threshold and all maxK, exactly when it leaves the groups below the threshold as they are |
| RouterRange.MinLosesNothing | extensions/router/router.go:309-346 | with Min it always does |
| RouterRange.RangeLosesNothing | extensions/router/router.go:309-346 | with Min the possible results of the limited search are exactly those over all references |
| RouterRange.AverageLosesNothingIff | extensions/router/router.go:309-346 | with Avg nothing is lost exactly when no route has one reference strictly below the greatest threshold and one beyond it |
| RouterRange.SumLosesNothingIff | extensions/router/router.go:309-346 | with Sum nothing is lost exactly when no route has a reference beyond the greatest threshold and others within it that add up to less |
| RouterRange.AverageDiffers | extensions/router/router.go:313-346 | an instance for Avg: two references of a route on both sides |
| Router.SureMatchIff | extensions/router/router.go:336-346 | a passing route is in every possible result exactly when fewer than maxK other routes are as near, passing or not |
| Router.RoutedSureIff | extensions/router/router.go:309-346 | the same for a whole query on the references within the greatest threshold, where a maxK that is not positive counts as one |
| Ulid.NewULID | utils.go:17-45 | 26 characters of the alphabet that carry the low 48 bits of the timestamp and all ten random bytes |
| Ulid.ShiftIn | utils.go:35-42 | the high bits that the 64-bit accumulator drops are none of the pending ones |
| Ulid.LaterSortsAfter | utils.go:17-45 | a larger 48-bit timestamp gives a lexicographically larger string |
| Ulid.NumbersDetermine | utils.go:17-45 | a ULID is determined by the timestamp and the random number it carries |
| Tokenize.RowFromEncoding | extensions/vectorize/hf/tokenize.go:41-72 | the row has the tokens up to the last that is not padding, with type zero where types are missing; if they are more than the limit, as many as that, and a last token that is special takes the last place |
| Tokenize.BuildBatch | extensions/vectorize/hf/tokenize.go:107-138 | the flat matrices are each row followed by padding, with mask 1 exactly on real tokens |
| Tokenize.FlatRow | extensions/vectorize/hf/tokenize.go:122-136 | cutting a flat matrix into rows gives back each padded row |
| Tokenize.FlatCell | extensions/vectorize/hf/tokenize.go:107-138 | the cell of a row and column is the token, its type or 1 within the row, and the padding, 0 or 0 beyond it |
| Tokenize.BatchPaddingInvariant | extensions/vectorize/hf/model.go:213-222 | pooling a row's slice of the flat output under the mask of its batch is pooling the row's tokens alone |
| Pooling.PoolTokens | extensions/vectorize/hf/pooling.go:8-58 | the loops compute the specified pooling in each mode, for CLS the first token |
| Pooling.CLSComponent | extensions/vectorize/hf/pooling.go:11-14 | each CLS-pooled component is that of the first token, whatever the mask and the other tokens are |
| Pooling.MeanComponent | extensions/vectorize/hf/pooling.go:36-56 | each mean-pooled component is the mean over the unmasked tokens |
| Pooling.MaxComponent | extensions/vectorize/hf/pooling.go:16-35 | each max-pooled component is the greatest over the unmasked tokens, or zero without any |
| Pooling.PaddingInvariant | extensions/vectorize/hf/pooling.go:8-58 | padding a row never changes its pooled embedding, for mean, max and, on non-empty rows, CLS |
| CrossEncoder.StableSort | extensions/vectorize/hf/crossencoder.go:184-186 | sorting in place by shifting larger scores forward gives the stable descending order |
| CrossEncoder.Rank | extensions/vectorize/hf/crossencoder.go:157-191 | for every positive batch size the one ranking of the documents by their own scores, at most limit of them; an empty query is an error, and there is another error exactly when a batch fails |
| CrossEncoder.TopRanks | extensions/vectorize/hf/crossencoder.go:157-191 | entries have distinct indices, the document at the index and the score that the model gives it; scores descend, with ties in input order, and every document left out belongs behind the kept ones |
| CrossEncoder.DroppedRankBelow | extensions/vectorize/hf/crossencoder.go:187-189 | a document left out scores at most as much as any kept one, and comes later if it scores the same |
| CrossEncoder.RankingUnique | extensions/vectorize/hf/crossencoder.go:184-186 | order and members determine the ranking |
| Hub.Preserved | extensions/vectorize/hf/hub.go:125-179 | every single step of any download, crash or removal keeps the invariant on files and temporary files |
| Hub.VisibleIsComplete | extensions/vectorize/hf/hub.go:125-179 | in every interleaving of downloads, crashes, failures, short bodies and removals a non-empty file at a final path is a complete served content |
| Hub.ReturnsComplete | extensions/vectorize/hf/hub.go:125-179 | a download that returns a path returns that of its own file; if no requested path is on the way to another, a complete content is there, not empty if it was found and served for it if it was downloaded |
| Hub.NestedReturnsDirectory | extensions/vectorize/hf/hub.go:127-154 | a requested path on the way to another is returned although it is a directory |
| Hub.DirectoryReturned | extensions/vectorize/hf/hub.go:127-154 | for instance `onnx` after the download of `onnx/model.onnx` |
| Hub.ReturnsCompleteIff | extensions/vectorize/hf/hub.go:125-179 | whatever the hub serves, every path returned in any run is one of a complete file exactly when no requested path is on the way to another, given that no requested name is shaped like a temporary file |
| Hub.ReturnsOwnIff | extensions/vectorize/hf/hub.go:125-179 | every path returned in any run is one of a file with the content served for it exactly when no requested name is shaped like a temporary file, no two requested files share a path, and no requested path is on the way to another |
| Hub.SharedLocalIff | extensions/vectorize/hf/hub.go:126-126 | when two different files share a local path |
| Hub.SameDepthDistinct | extensions/vectorize/hf/hub.go:126-126 | model names of one length, such as owner and name, never share |
| Hub.VisibleIsServed | extensions/vectorize/hf/hub.go:125-179 | without shared paths a non-empty file has a content that was served for that very file |
| Hub.AlwaysServedIff | extensions/vectorize/hf/hub.go:125-179 | the cache holds each file's own content in every run exactly when files that share a path have the same contents |
| Hub.OwnContentIff | extensions/vectorize/hf/hub.go:125-179 | it does so whatever the hub serves exactly when no two requested files share a path |
| Hub.Fetch | extensions/vectorize/hf/hub.go:125-179 | an undisturbed download changes the file at the final path alone, makes the directories on the way to it and leaves no temporary file |
| Hub.FailureLeavesNothing | extensions/vectorize/hf/hub.go:165-169 | a failed copy leaves the files as they were |
| Hub.LateFailureLeavesNothing | extensions/vectorize/hf/hub.go:170-177 | a failed close or rename removes the temporary file and changes no other |
| Hub.RefusedLeavesNothing | extensions/vectorize/hf/hub.go:140-152 | a download that cannot be fetched fails, as not found for a 404, and changes no file or directory |
| Hub.StepFrame | extensions/vectorize/hf/hub.go:125-179 | every step of a download changes its own temporary file alone, and a successful rename its final path |
| Hub.AlwaysCompleteIff | extensions/vectorize/hf/hub.go:157-179 | whatever the hub serves, every non-empty file at a requested path is complete in every run exactly when no requested file's name begins with `.download-` |
| Hub.TempRequestedBreaks | extensions/vectorize/hf/hub.go:157-160 | how such a name is returned with a part of another file |
| RepoPath.ValidateRepoPath | extensions/vectorize/hf/hub.go:183-192 | accepts exactly the paths without backslash and colon and without an empty, `.` or `..` segment |
| RepoPath.StaysInside | extensions/vectorize/hf/hub.go:125-192 | a validated path joined to the cache directory stays inside it, and keeps model and file name readable |
| RepoPath.TemporaryNamesAreValid | extensions/vectorize/hf/hub.go:157-192 | validation accepts names shaped like temporary files |
| KeySource.KeySource.Key | mcpserver/auth.go:171-197 | a static key answers always; otherwise a fetch is made exactly without keys or five minutes after the recorded time, a successful one replaces the keys and records its end, a failed one records its start, and the answer is the one the keys allow, or the fetch's error while there are none |
| KeySource.KeySource.RefreshLocked | mcpserver/auth.go:199-238 | the attempt time is recorded whatever happens, keys change only for a non-empty set of usable ones, and otherwise the error says why |
| KeySource.UsableKeysAre | mcpserver/auth.go:224-231 | a kid is usable exactly when an entry has it with a usable key, and the last such entry decides |
| KeySource.ObtainedIs | mcpserver/auth.go:218-236 | a fetch obtains keys exactly when a document has an entry with a usable key |
| KeySource.KeysAreLatest | mcpserver/auth.go:171-238 | the key set is empty exactly until the first successful fetch, and then equals the usable keys of the latest one |
| KeySource.AttemptsApart | mcpserver/auth.go:154-202 | after the first success a fetch starts at least five minutes after every earlier one, whatever kids arrive |
| KeySource.RotationPickedUp | mcpserver/auth.go:181-188 | a request at least five minutes after the end of every earlier one gets the usable keys that the endpoint then has, whatever kid it asks for |
| KeySource.AttemptsIff | mcpserver/auth.go:181-202 | a request fetches exactly before the first success or five minutes after the last fetch ended, or started if it failed |
| KeySource.AttemptsBounded | mcpserver/auth.go:154-202 | from the first success on a window of length T sees at most 1 + T / 5min fetches |
| KeySource.FetchesUntilSuccess | mcpserver/auth.go:181-185 | until then every request fetches |
| KeySource.AnswersFromLatest | mcpserver/auth.go:171-197 | a key handed out was usable in the latest successful fetch, under the requested kid or as the only key |

## Left out

- Redis commands, pipelines and server semantics beyond the router's aggregation stages: thin calls to a server that is not part of this repository.
- Clients of embedding, reranking and LangCache services, retry loops, MCP transports and tools, the command line and benchmarks: input and output without logic of their own.
- Token verification, SHA-256, PEM and JWK decoding, random bytes and clocks: taken as given; the hash is injective, and times, random bytes and decoded keys are inputs.
- Conversion from float64 to float32, and of out-of-range floats to int8 and uint8: given functions, so nothing is claimed about rounding from float64 to half, or about integer elements out of range.
- Formatting of numbers, JSON and YAML texts: given functions; YAML is the identity except that a list of strings comes back as a list of any.
- Upper and lower case: modelled for ASCII and the four characters that fold into or out of it.
- Text, Geo and Raw filter leaves and Tag Like in the printer and parser: their payloads are unescaped or opaque, or, for Like, values formatted as proved but with wildcards bare. Timestamp leaves are numeric leaves with formatted times.
- Aliasing of attribute structs between callers and a schema: fields are values, and Fields.VectorObject models validation in place.
- Attribute maps have an enumeration of the known keys instead of strings, so unknown keys are not modelled; reading and writing the attributes of one field is modelled on values, while the loops over fields are methods.
- NaN scores in Rank and NaN components in max pooling: scores are reals, and the order of components is that of floats without NaN. sort.SliceStable is modelled as a stable insertion sort.
- The model and the tokenizer library: token matrices and per-pair scores are inputs. l2Normalize is left out.
- Quoting of route names in the FILTER expression, the errors for a router without routes or a request without a statement, and the reply parser. Distances and thresholds are reals.
- Router bookkeeping in Redis and the in-memory AddRoute and RemoveRoute: removal uses a glob pattern, which needs side conditions on route names.
- Cached metadata and timestamps, and per-entry expiry times: expiry may happen at any time, which covers every setting.
- Hub: the string that CreateTemp appends to the prefix is taken as arbitrary, while Go's appends decimal digits, so a requested name such as `.download-abc` counts as shaped like a temporary file though it is never given out. The size of a directory is taken as positive; a Stat that does not find it covers the others.
- Hub: bodies that end early are assumed to be reported as read errors, renames are atomic, temporary names are never given out twice, and crashes are of the process; loss of unsynced data in a power failure is not modelled.
- KeySource: the zero time of a new source is older than any interval, and readings of one clock do not decrease.
- The compression advisor, query argument builders, message history, and configuration defaults: they would only add easy members.
